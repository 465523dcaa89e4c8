/** The products table (src/db/schema.ts) and the two things the monitor
    does with it: read every row into a lookup map, and write a batch of
    rows as an insert-or-update keyed by the unique item id. */
module Catalog {

  /** A row as the monitor reads and writes it: the item id (unique and
      non-null) and its availability flag. The surrogate `id` column is
      never read or written by the monitor. */
  datatype Row = Row(itemId: string, inStock: bool)

  /** The item ids occurring in a sequence of rows. */
  function Ids(rows: seq<Row>): set<string>
  {
    set r | r in rows :: r.itemId
  }

  /** The uniqueness constraint on `item_id`. */
  predicate DistinctIds(rows: seq<Row>)
  {
    forall i, j :: 0 <= i < j < |rows| ==> rows[i].itemId != rows[j].itemId
  }

  /** The `itemId -> inStock` lookup built from a list of rows, as a
      JavaScript `Map` is built from key/value pairs: a later pair with the
      same key overrides an earlier one. */
  function ToMap(rows: seq<Row>): map<string, bool>
  {
    if rows == [] then map[]
    else
      var last := rows[|rows| - 1];
      ToMap(rows[..|rows| - 1])[last.itemId := last.inStock]
  }

  /** The map has an entry for exactly the ids of the list. */
  lemma {:induction false} ToMapKeys(rows: seq<Row>)
    ensures ToMap(rows).Keys == Ids(rows)
  {
    if rows != [] {
      var n := |rows| - 1;
      ToMapKeys(rows[..n]);
      assert rows == rows[..n] + [rows[n]];
    }
  }

  /** Every entry of the map comes from a row of the list. */
  lemma {:induction false} ToMapEntries(rows: seq<Row>)
    ensures forall k :: k in ToMap(rows) ==> Row(k, ToMap(rows)[k]) in rows
  {
    if rows != [] {
      var n := |rows| - 1;
      ToMapEntries(rows[..n]);
      assert rows == rows[..n] + [rows[n]];
    }
  }

  /** Where the row for `id` sits, or |rows| when there is none: the lookup
      of the conflict target through the unique index on `item_id`. */
  function IndexOf(rows: seq<Row>, id: string): (j: nat)
    ensures j <= |rows|
    ensures j < |rows| ==> rows[j].itemId == id
    ensures j == |rows| <==> id !in Ids(rows)
  {
    if rows == [] then 0
    else if rows[0].itemId == id then 0
    else
      assert rows == [rows[0]] + rows[1..];
      1 + IndexOf(rows[1..], id)
  }

  /** One row applied as `INSERT ... ON CONFLICT (item_id) DO UPDATE SET
      in_stock = excluded.in_stock` applies it: a row already present keeps
      its place and takes the new flag, an unknown id is added. */
  function UpsertRow(rows: seq<Row>, r: Row): seq<Row>
  {
    var j := IndexOf(rows, r.itemId);
    if j < |rows| then rows[j := rows[j].(inStock := r.inStock)] else rows + [r]
  }

  /** A batch applied one row after another, in batch order. */
  function UpsertRows(rows: seq<Row>, batch: seq<Row>): seq<Row>
  {
    if batch == [] then rows
    else UpsertRow(UpsertRows(rows, batch[..|batch| - 1]), batch[|batch| - 1])
  }

  /** With unique ids, the map holds each row's own flag. */
  lemma {:induction false} ToMapAt(rows: seq<Row>, i: nat)
    requires DistinctIds(rows)
    requires i < |rows|
    ensures rows[i].itemId in ToMap(rows)
    ensures ToMap(rows)[rows[i].itemId] == rows[i].inStock
  {
    var n := |rows| - 1;
    if i < n {
      ToMapAt(rows[..n], i);
    }
  }

  /** Setting one row's flag in place sets that id's entry in the map,
      provided no other row carries the same id. */
  lemma {:induction false} ToMapSetFlag(rows: seq<Row>, j: nat, v: bool)
    requires j < |rows|
    requires forall i :: 0 <= i < |rows| && i != j ==> rows[i].itemId != rows[j].itemId
    ensures ToMap(rows[j := rows[j].(inStock := v)]) == ToMap(rows)[rows[j].itemId := v]
  {
    var n := |rows| - 1;
    var rows' := rows[j := rows[j].(inStock := v)];
    assert ToMap(rows) == ToMap(rows[..n])[rows[n].itemId := rows[n].inStock];
    assert ToMap(rows') == ToMap(rows'[..n])[rows'[n].itemId := rows'[n].inStock];
    if j == n {
      assert rows'[..n] == rows[..n];
    } else {
      assert rows'[..n] == rows[..n][j := rows[j].(inStock := v)];
      assert rows'[n] == rows[n];
      ToMapSetFlag(rows[..n], j, v);
      assert rows[n].itemId != rows[j].itemId;
    }
  }

  /** Building the map from a concatenation overrides the first part's
      entries with the second's. */
  lemma {:induction false} ToMapConcat(a: seq<Row>, b: seq<Row>)
    ensures ToMap(a + b) == ToMap(a) + ToMap(b)
  {
    if b == [] {
      assert a + b == a;
    } else {
      var n := |b| - 1;
      assert (a + b)[..|a + b| - 1] == a + b[..n];
      ToMapConcat(a, b[..n]);
    }
  }

  lemma DistinctAppend(rows: seq<Row>, r: Row)
    requires DistinctIds(rows)
    requires r.itemId !in Ids(rows)
    ensures DistinctIds(rows + [r])
  {
    forall i | 0 <= i < |rows|
      ensures rows[i].itemId != r.itemId
    {
      assert rows[i] in rows;
    }
  }

  lemma DistinctConcat(a: seq<Row>, b: seq<Row>)
    requires DistinctIds(a) && DistinctIds(b)
    requires Ids(a) !! Ids(b)
    ensures DistinctIds(a + b)
  {
    var ab := a + b;
    forall i, j | 0 <= i < j < |ab|
      ensures ab[i].itemId != ab[j].itemId
    {
      if j < |a| {
        assert ab[i] == a[i] && ab[j] == a[j];
      } else if |a| <= i {
        assert ab[i] == b[i - |a|] && ab[j] == b[j - |a|];
      } else {
        assert ab[i] == a[i] && a[i] in a;
        assert ab[j] == b[j - |a|] && b[j - |a|] in b;
        assert a[i].itemId in Ids(a) && b[j - |a|].itemId in Ids(b);
      }
    }
  }

  /** Ids a sequence of rows keeps unique stay unique when only flags
      change. */
  lemma SameIdsDistinct(rows: seq<Row>, rows': seq<Row>)
    requires DistinctIds(rows)
    requires |rows'| == |rows|
    requires forall i :: 0 <= i < |rows| ==> rows'[i].itemId == rows[i].itemId
    ensures DistinctIds(rows')
  {
    forall a, b | 0 <= a < b < |rows'|
      ensures rows'[a].itemId != rows'[b].itemId
    {
      assert rows'[a].itemId == rows[a].itemId;
    }
  }

  /** One upsert keeps the ids unique, keeps every existing row at its place
      with its id, and changes the map at exactly the written id. */
  lemma UpsertRowEffect(rows: seq<Row>, r: Row)
    requires DistinctIds(rows)
    ensures DistinctIds(UpsertRow(rows, r))
    ensures ToMap(UpsertRow(rows, r)) == ToMap(rows)[r.itemId := r.inStock]
    ensures |UpsertRow(rows, r)| >= |rows|
    ensures forall i :: 0 <= i < |rows| ==> UpsertRow(rows, r)[i].itemId == rows[i].itemId
  {
    var j := IndexOf(rows, r.itemId);
    if j < |rows| {
      var rows' := rows[j := rows[j].(inStock := r.inStock)];
      assert forall i :: 0 <= i < |rows| ==> rows'[i].itemId == rows[i].itemId;
      SameIdsDistinct(rows, rows');
      assert forall i :: 0 <= i < |rows| && i != j ==> rows[i].itemId != rows[j].itemId;
      ToMapSetFlag(rows, j, r.inStock);
    } else {
      DistinctAppend(rows, r);
      assert (rows + [r])[..|rows|] == rows;
    }
  }

  lemma UpdateAfterUnion(a: map<string, bool>, b: map<string, bool>, k: string, v: bool)
    ensures (a + b)[k := v] == a + b[k := v]
  {
  }

  /** A batch upsert keeps the ids unique, never removes or moves a row, and
      leaves the map equal to the old map overridden by the batch, later
      rows of the batch winning over earlier ones. */
  lemma {:induction false} UpsertRowsEffect(rows: seq<Row>, batch: seq<Row>)
    requires DistinctIds(rows)
    ensures DistinctIds(UpsertRows(rows, batch))
    ensures ToMap(UpsertRows(rows, batch)) == ToMap(rows) + ToMap(batch)
    ensures |UpsertRows(rows, batch)| >= |rows|
    ensures forall i :: 0 <= i < |rows| ==> UpsertRows(rows, batch)[i].itemId == rows[i].itemId
  {
    if batch != [] {
      var n := |batch| - 1;
      var before := UpsertRows(rows, batch[..n]);
      UpsertRowsEffect(rows, batch[..n]);
      UpsertRowEffect(before, batch[n]);
      assert ToMap(batch) == ToMap(batch[..n])[batch[n].itemId := batch[n].inStock];
      UpdateAfterUnion(ToMap(rows), ToMap(batch[..n]), batch[n].itemId, batch[n].inStock);
    }
  }

  /** The insert-or-update as the stored map sees it: each written id holds
      the flag written for it, every id not written keeps its flag, and the
      set of ids only grows. */
  lemma UpsertedValues(rows: seq<Row>, batch: seq<Row>)
    requires DistinctIds(rows)
    requires DistinctIds(batch)
    ensures Ids(UpsertRows(rows, batch)) == Ids(rows) + Ids(batch)
    ensures forall i :: 0 <= i < |batch| ==>
      var after := ToMap(UpsertRows(rows, batch));
      batch[i].itemId in after && after[batch[i].itemId] == batch[i].inStock
    ensures forall k :: k in ToMap(rows) && k !in Ids(batch) ==>
      var after := ToMap(UpsertRows(rows, batch));
      k in after && after[k] == ToMap(rows)[k]
  {
    UpsertRowsEffect(rows, batch);
    ToMapKeys(UpsertRows(rows, batch));
    ToMapKeys(rows);
    ToMapKeys(batch);
    forall i | 0 <= i < |batch|
      ensures ToMap(batch)[batch[i].itemId] == batch[i].inStock
    {
      ToMapAt(batch, i);
    }
  }

  /** A batch whose every row repeats what is already stored leaves the
      table exactly as it was. */
  lemma {:induction false} UpsertRowsUnchanged(rows: seq<Row>, batch: seq<Row>)
    requires DistinctIds(rows)
    requires forall r :: r in batch ==> r.itemId in ToMap(rows) && ToMap(rows)[r.itemId] == r.inStock
    ensures UpsertRows(rows, batch) == rows
  {
    if batch != [] {
      var n := |batch| - 1;
      var r := batch[n];
      assert r in batch;
      assert forall x :: x in batch[..n] ==> x in batch;
      UpsertRowsUnchanged(rows, batch[..n]);
      ToMapKeys(rows);
      var j := IndexOf(rows, r.itemId);
      ToMapAt(rows, j);
      assert rows[j].(inStock := r.inStock) == rows[j];
    }
  }

  /** The products table. Its rows are kept in the order a full select
      returns them. */
  class Store {
    var rows: seq<Row>

    /** `item_id` is unique (src/db/schema.ts). */
    ghost predicate Valid()
      reads this
    {
      DistinctIds(rows)
    }

    /** The stored `itemId -> inStock` mapping. */
    function Contents(): map<string, bool>
      reads this
    {
      ToMap(rows)
    }

    constructor (initial: seq<Row>)
      requires DistinctIds(initial)
      ensures Valid() && rows == initial
    {
      rows := initial;
    }

    /** `db.select().from(productsTable)`: every row, in table order. */
    method SelectAll() returns (all: seq<Row>)
      requires Valid()
      ensures all == rows && DistinctIds(all)
    {
      all := rows;
    }

    /** The one batch statement of a pass. It is applied as a whole. */
    method UpsertBatch(batch: seq<Row>)
      requires Valid()
      modifies this
      ensures Valid()
      ensures rows == UpsertRows(old(rows), batch)
      ensures Contents() == old(Contents()) + ToMap(batch)
      ensures Ids(old(rows)) <= Ids(rows)
    {
      UpsertRowsEffect(rows, batch);
      rows := UpsertRows(rows, batch);
    }
  }
}
