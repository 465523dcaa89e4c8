/** One monitoring pass (`monitorProducts` in index.ts): read the stored
    availability of every item, fetch the product search, narrow the list by
    the optional name filter, stage an in-stock row for every listed product
    and an out-of-stock row for every stored in-stock item that is not
    listed, pick the products to notify about, and write the staged rows as
    one insert-or-update batch. */
module Monitor {
  import opened Catalog
  import opened Search

  /** How a pass ends. */
  datatype Outcome =
    | FetchFailed      // the request threw, or answered with a non-2xx status
    | NoProducts       // the fetched list is empty
    | NoneAfterFilter  // nothing is left once the filter is applied
    | WriteFailed      // the batch write threw, so nothing was stored
    | Written          // the batch write was stored

  /** What a pass produced: how it ended, the rows staged for the batch
      write (`newProducts`), and the products whose notification was fired,
      in the order they were fired. */
  datatype PassResult = PassResult(outcome: Outcome, staged: seq<Row>, notify: seq<Product>)

  /** `existingProduct?.inStock ?? false`: an id that is not stored counts
      as out of stock. */
  predicate WasInStock(existing: map<string, bool>, id: string)
  {
    id in existing && existing[id]
  }

  /** The rows the first loop stages: every listed product marked in stock,
      in list order. */
  function FoundRows(products: seq<Product>): seq<Row>
  {
    seq(|products|, i requires 0 <= i < |products| => Row(products[i].id, true))
  }

  /** The products the first loop notifies about, in list order. */
  function NotifyList(existing: map<string, bool>, products: seq<Product>, seed: bool): seq<Product>
  {
    if products == [] then []
    else
      var n := |products| - 1;
      NotifyList(existing, products[..n], seed)
        + (if !seed && !WasInStock(existing, products[n].id) then [products[n]] else [])
  }

  /** The rows the second loop stages: every stored row still marked in
      stock whose id is not among `found`, marked out of stock, in table
      order. */
  function Vanished(rows: seq<Row>, found: set<string>): seq<Row>
  {
    if rows == [] then []
    else
      var n := |rows| - 1;
      Vanished(rows[..n], found)
        + (if rows[n].itemId !in found && rows[n].inStock then [Row(rows[n].itemId, false)] else [])
  }

  /** `newProducts` after both loops. `foundProductIds` is taken from the
      list the loops work on, that is, from the filtered list. */
  function Staged(rows: seq<Row>, products: seq<Product>): seq<Row>
  {
    FoundRows(products) + Vanished(rows, ProductIds(products))
  }

  /** A whole pass over the table `rows`. `writeSucceeds` is the database's
      answer to the batch write. */
  function Pass(rows: seq<Row>, fetched: FetchResult, filter: Option<string>, seed: bool,
                writeSucceeds: bool): (r: PassResult)
    ensures r.outcome in {FetchFailed, NoProducts, NoneAfterFilter} ==> r.staged == [] && r.notify == []
    ensures r.outcome == FetchFailed <==> !Succeeded(fetched)
    ensures r.outcome in {WriteFailed, Written} <==>
      Succeeded(fetched) && Relevant(fetched.productList, filter) != []
    ensures r.outcome in {WriteFailed, Written} ==> |r.staged| > 0
    ensures r.outcome == Written ==> writeSucceeds
  {
    if !Succeeded(fetched) then PassResult(FetchFailed, [], [])
    else if fetched.productList == [] then PassResult(NoProducts, [], [])
    else
      var products := Relevant(fetched.productList, filter);
      if products == [] then PassResult(NoneAfterFilter, [], [])
      else
        PassResult(if writeSucceeds then Written else WriteFailed,
                   Staged(rows, products), NotifyList(ToMap(rows), products, seed))
  }

  /** The table after a pass: the staged rows are stored only when the
      batch write succeeded. */
  function Committed(rows: seq<Row>, r: PassResult): seq<Row>
  {
    if r.outcome == Written then UpsertRows(rows, r.staged) else rows
  }

  /** The two staging loops. `rows` is the select result; with unique item
      ids its rows are exactly the entries of the lookup map built from it,
      in that map's iteration order, so the second loop walks `rows`. */
  method Stage(rows: seq<Row>, products: seq<Product>, seed: bool)
    returns (staged: seq<Row>, notify: seq<Product>)
    requires DistinctIds(rows)
    ensures staged == Staged(rows, products)
    ensures notify == NotifyList(ToMap(rows), products, seed)
  {
    var existing := ToMap(rows);
    var found := ProductIds(products);
    staged, notify := [], [];
    for i := 0 to |products|
      invariant staged == FoundRows(products[..i])
      invariant notify == NotifyList(existing, products[..i], seed)
    {
      var product := products[i];
      staged := staged + [Row(product.id, true)];
      var isExistingProductInStock := if product.id in existing then existing[product.id] else false;
      if !seed && !isExistingProductInStock {
        notify := notify + [product];
      }
      assert products[..i + 1][..i] == products[..i];
    }
    assert products[..|products|] == products;
    for j := 0 to |rows|
      invariant staged == FoundRows(products) + Vanished(rows[..j], found)
    {
      var row := rows[j];
      if row.itemId !in found && row.inStock {
        staged := staged + [Row(row.itemId, false)];
      }
      assert rows[..j + 1][..j] == rows[..j];
    }
    assert rows[..|rows|] == rows;
  }

  /** `monitorProducts` against the products table. */
  method MonitorProducts(store: Store, fetched: FetchResult, filter: Option<string>, seed: bool,
                         writeSucceeds: bool) returns (r: PassResult)
    requires store.Valid()
    modifies store
    ensures store.Valid()
    ensures r == Pass(old(store.rows), fetched, filter, seed, writeSucceeds)
    ensures store.rows == Committed(old(store.rows), r)
    ensures r.outcome != Written ==> store.rows == old(store.rows)
  {
    var existing := store.SelectAll();
    if !Succeeded(fetched) {
      return PassResult(FetchFailed, [], []);
    }
    if |fetched.productList| == 0 {
      return PassResult(NoProducts, [], []);
    }
    var products := fetched.productList;
    if FilterActive(filter) {
      products := Narrow(products, filter.value);
    }
    if |products| == 0 {
      return PassResult(NoneAfterFilter, [], []);
    }
    var staged, notify := Stage(existing, products, seed);
    if writeSucceeds {
      store.UpsertBatch(staged);
      r := PassResult(Written, staged, notify);
    } else {
      r := PassResult(WriteFailed, staged, notify);
    }
  }

  /** The first loop stages an in-stock row for each listed id and for
      nothing else. */
  lemma FoundRowsExactly(products: seq<Product>)
    ensures forall r :: r in FoundRows(products) <==> r.inStock && r.itemId in ProductIds(products)
  {
    var found := FoundRows(products);
    forall r: Row | r.inStock && r.itemId in ProductIds(products)
      ensures r in found
    {
      var p :| p in products && p.id == r.itemId;
      var i :| 0 <= i < |products| && products[i] == p;
      assert found[i] == r;
    }
  }

  /** A product is notified about exactly when it is listed, seed mode is
      off, and it is not stored as in stock. */
  lemma {:induction false} NotifyExactly(existing: map<string, bool>, products: seq<Product>, seed: bool)
    ensures forall p :: p in NotifyList(existing, products, seed) <==>
      p in products && !seed && !WasInStock(existing, p.id)
  {
    if products != [] {
      var n := |products| - 1;
      NotifyExactly(existing, products[..n], seed);
      assert products == products[..n] + [products[n]];
    }
  }

  /** Every row of the second loop is an out-of-stock row for a stored id
      outside `found`. */
  lemma {:induction false} VanishedShape(rows: seq<Row>, found: set<string>)
    ensures forall r :: r in Vanished(rows, found) ==>
      !r.inStock && r.itemId !in found && r.itemId in Ids(rows)
  {
    if rows != [] {
      var n := |rows| - 1;
      VanishedShape(rows[..n], found);
      assert rows == rows[..n] + [rows[n]];
    }
  }

  /** The second loop stages an out-of-stock row exactly for each stored id
      that is in stock and not among `found`; an id stored as out of stock is
      never staged by it, and no id twice. */
  lemma {:induction false} VanishedExactly(rows: seq<Row>, found: set<string>)
    requires DistinctIds(rows)
    ensures forall r :: r in Vanished(rows, found) <==>
      !r.inStock && WasInStock(ToMap(rows), r.itemId) && r.itemId !in found
    ensures DistinctIds(Vanished(rows, found))
  {
    if rows != [] {
      var n := |rows| - 1;
      var prefix := rows[..n];
      var last := rows[n];
      VanishedExactly(prefix, found);
      VanishedShape(prefix, found);
      forall x | x in prefix
        ensures x.itemId != last.itemId
      {
        var k :| 0 <= k < n && prefix[k] == x;
        assert rows[k].itemId != rows[n].itemId;
      }
      assert ToMap(rows) == ToMap(prefix)[last.itemId := last.inStock];
      if last.itemId !in found && last.inStock {
        DistinctAppend(Vanished(prefix, found), Row(last.itemId, false));
      }
    }
  }

  /** The write-set row by row: a row is staged in stock exactly for each
      listed id, and out of stock exactly for each stored in-stock id that
      is not listed. An id neither listed nor stored is never staged. */
  lemma StagedExactly(rows: seq<Row>, products: seq<Product>)
    requires DistinctIds(rows)
    ensures forall r :: r in Staged(rows, products) <==>
      if r.inStock then r.itemId in ProductIds(products)
      else r.itemId !in ProductIds(products) && WasInStock(ToMap(rows), r.itemId)
  {
    FoundRowsExactly(products);
    VanishedExactly(rows, ProductIds(products));
  }

  /** The two loops stage disjoint sets of ids: the first only listed ids,
      the second only ids that are not listed. */
  lemma StagesDisjoint(rows: seq<Row>, products: seq<Product>)
    ensures Ids(FoundRows(products)) == ProductIds(products)
    ensures Ids(Vanished(rows, ProductIds(products))) !! ProductIds(products)
  {
    FoundRowsExactly(products);
    VanishedShape(rows, ProductIds(products));
    forall k | k in ProductIds(products)
      ensures k in Ids(FoundRows(products))
    {
      assert Row(k, true) in FoundRows(products);
    }
  }

  /** With distinct listed ids, no id is staged twice in one pass. */
  lemma StagedDistinct(rows: seq<Row>, products: seq<Product>)
    requires DistinctIds(rows)
    requires DistinctProductIds(products)
    ensures DistinctIds(Staged(rows, products))
  {
    StagesDisjoint(rows, products);
    VanishedExactly(rows, ProductIds(products));
    DistinctConcat(FoundRows(products), Vanished(rows, ProductIds(products)));
  }

  /** With distinct ids in the fetched list, a pass never stages an id
      twice, so the order of the batch does not matter. */
  lemma PassStagesEachIdOnce(rows: seq<Row>, fetched: FetchResult, filter: Option<string>,
                             seed: bool, writeSucceeds: bool)
    requires DistinctIds(rows)
    requires fetched.Answered? && DistinctProductIds(fetched.productList)
    ensures DistinctIds(Pass(rows, fetched, filter, seed, writeSucceeds).staged)
  {
    if FilterActive(filter) {
      NarrowKeepsDistinct(fetched.productList, filter.value);
    }
    var products := Relevant(fetched.productList, filter);
    if Succeeded(fetched) && fetched.productList != [] && products != [] {
      StagedDistinct(rows, products);
    }
  }

  /** The staged rows as the batch write sees them: every listed id maps to
      true, every other staged id to false, every stored in-stock id that is
      not listed is staged, and nothing else is. */
  lemma StagedAsMap(rows: seq<Row>, products: seq<Product>)
    requires DistinctIds(rows)
    ensures var staged := ToMap(Staged(rows, products));
            var found := ProductIds(products);
            && staged.Keys <= Ids(rows) + found
            && (forall k :: k in found ==> k in staged && staged[k])
            && (forall k :: k in staged && k !in found ==> !staged[k])
            && (forall k :: WasInStock(ToMap(rows), k) && k !in found ==> k in staged)
  {
    var found := ProductIds(products);
    var foundRows := FoundRows(products);
    var vanished := Vanished(rows, found);
    ToMapConcat(foundRows, vanished);
    var staged := ToMap(foundRows) + ToMap(vanished);
    ToMapKeys(foundRows);
    ToMapKeys(vanished);
    StagesDisjoint(rows, products);
    VanishedShape(rows, found);
    forall k | k in found
      ensures k in staged && staged[k]
    {
      FoundRowsExactly(products);
      ToMapEntries(foundRows);
      assert Row(k, ToMap(foundRows)[k]) in foundRows;
    }
    forall k | k in staged && k !in found
      ensures !staged[k]
    {
      ToMapEntries(vanished);
      assert Row(k, ToMap(vanished)[k]) in vanished;
    }
    forall k | WasInStock(ToMap(rows), k) && k !in found
      ensures k in staged
    {
      VanishedExactly(rows, found);
      assert Row(k, false) in vanished;
    }
  }

  /** The stored map after a pass that wrote: every id of the list the pass
      works on is in stock, every other stored id is out of stock, and the
      set of stored ids only grows by the listed ones. */
  lemma PassEffect(rows: seq<Row>, fetched: FetchResult, filter: Option<string>, seed: bool)
    requires DistinctIds(rows)
    requires Pass(rows, fetched, filter, seed, true).outcome == Written
    ensures var found := ProductIds(Relevant(fetched.productList, filter));
            var before := ToMap(rows);
            var after := ToMap(Committed(rows, Pass(rows, fetched, filter, seed, true)));
            && after.Keys == before.Keys + found
            && (forall k :: k in found ==> after[k])
            && (forall k :: k in before && k !in found ==> !after[k])
  {
    var products := Relevant(fetched.productList, filter);
    var found := ProductIds(products);
    var staged := Staged(rows, products);
    var before := ToMap(rows);
    assert Committed(rows, Pass(rows, fetched, filter, seed, true)) == UpsertRows(rows, staged);
    UpsertRowsEffect(rows, staged);
    var after := before + ToMap(staged);
    assert ToMap(UpsertRows(rows, staged)) == after;
    StagedAsMap(rows, products);
    ToMapKeys(rows);
    assert after.Keys == before.Keys + found;
    assert forall k :: k in found ==> after[k];
    forall k | k in before && k !in found
      ensures !after[k]
    {
      if k !in ToMap(staged) {
        assert !WasInStock(before, k);
      }
    }
  }

  /** Once every listed id is stored in stock, nobody is notified. */
  lemma {:induction false} NothingLeftToNotify(existing: map<string, bool>, products: seq<Product>,
                                               seed: bool)
    requires forall p :: p in products ==> WasInStock(existing, p.id)
    ensures NotifyList(existing, products, seed) == []
  {
    if products != [] {
      var n := |products| - 1;
      assert products[n] in products;
      assert forall p :: p in products[..n] ==> p in products;
      NothingLeftToNotify(existing, products[..n], seed);
    }
  }

  /** Once every stored in-stock id is listed, the second loop stages
      nothing. */
  lemma {:induction false} NothingLeftToVanish(rows: seq<Row>, found: set<string>)
    requires DistinctIds(rows)
    requires forall k :: WasInStock(ToMap(rows), k) ==> k in found
    ensures Vanished(rows, found) == []
  {
    if rows != [] {
      var n := |rows| - 1;
      var prefix := rows[..n];
      var last := rows[n];
      forall x | x in prefix
        ensures x.itemId != last.itemId
      {
        var k :| 0 <= k < n && prefix[k] == x;
        assert rows[k].itemId != rows[n].itemId;
      }
      assert ToMap(rows) == ToMap(prefix)[last.itemId := last.inStock];
      assert WasInStock(ToMap(rows), last.itemId) == last.inStock;
      ToMapKeys(prefix);
      forall k | WasInStock(ToMap(prefix), k)
        ensures k in found
      {
        assert WasInStock(ToMap(rows), k);
      }
      NothingLeftToVanish(prefix, found);
    }
  }

  /** Restaging listed ids that are already stored in stock changes no row. */
  lemma RestagingChangesNothing(rows: seq<Row>, products: seq<Product>)
    requires DistinctIds(rows)
    requires forall p :: p in products ==> WasInStock(ToMap(rows), p.id)
    ensures UpsertRows(rows, FoundRows(products)) == rows
  {
    FoundRowsExactly(products);
    forall r | r in FoundRows(products)
      ensures r.itemId in ToMap(rows) && ToMap(rows)[r.itemId] == r.inStock
    {
      var p :| p in products && p.id == r.itemId;
    }
    UpsertRowsUnchanged(rows, FoundRows(products));
  }

  /** The table a writing pass leaves behind has unique ids, every id of
      the list stored in stock, and no other id stored in stock. */
  lemma WrittenTable(rows: seq<Row>, fetched: FetchResult, filter: Option<string>, seed: bool)
    requires DistinctIds(rows)
    requires Pass(rows, fetched, filter, seed, true).outcome == Written
    ensures var products := Relevant(fetched.productList, filter);
            var rows1 := UpsertRows(rows, Pass(rows, fetched, filter, seed, true).staged);
            && DistinctIds(rows1)
            && (forall p :: p in products ==> WasInStock(ToMap(rows1), p.id))
            && (forall k :: WasInStock(ToMap(rows1), k) ==> k in ProductIds(products))
  {
    UpsertRowsEffect(rows, Pass(rows, fetched, filter, seed, true).staged);
    PassEffect(rows, fetched, filter, seed);
  }

  /** Running the pass a second time on the same fetch result leaves the
      table exactly as the first pass left it and notifies about nothing. */
  lemma SecondPassChangesNothing(rows: seq<Row>, fetched: FetchResult, filter: Option<string>,
                                 seed: bool, secondWriteSucceeds: bool)
    requires DistinctIds(rows)
    ensures var first := Pass(rows, fetched, filter, seed, true);
            var rows1 := Committed(rows, first);
            var second := Pass(rows1, fetched, filter, seed, secondWriteSucceeds);
            Committed(rows1, second) == rows1 && second.notify == []
  {
    var first := Pass(rows, fetched, filter, seed, true);
    if Succeeded(fetched) && Relevant(fetched.productList, filter) != [] {
      var products := Relevant(fetched.productList, filter);
      var rows1 := UpsertRows(rows, first.staged);
      WrittenTable(rows, fetched, filter, seed);
      var second := Pass(rows1, fetched, filter, seed, secondWriteSucceeds);
      assert second.staged == Staged(rows1, products);
      assert second.notify == NotifyList(ToMap(rows1), products, seed);
      NothingLeftToNotify(ToMap(rows1), products, seed);
      NothingLeftToVanish(rows1, ProductIds(products));
      assert second.staged == FoundRows(products);
      RestagingChangesNothing(rows1, products);
    }
  }

  /** The absence rule judged against the whole fetched list rather than
      the filtered one. */
  function StagedAgainstFullList(rows: seq<Row>, productList: seq<Product>, products: seq<Product>): seq<Row>
  {
    FoundRows(products) + Vanished(rows, ProductIds(productList))
  }

  /** As written, a stored in-stock id none of whose listings matches an
      active filter is staged out of stock, even when it is still listed. */
  lemma FilteredOutItemStagedOutOfStock(rows: seq<Row>, fetched: FetchResult, f: string,
                                        seed: bool, writeSucceeds: bool, k: string)
    requires DistinctIds(rows)
    requires Succeeded(fetched) && f != ""
    requires Narrow(fetched.productList, f) != []
    requires WasInStock(ToMap(rows), k)
    requires forall p :: p in fetched.productList && p.id == k ==> !Matches(p, f)
    ensures Row(k, false) in Pass(rows, fetched, Some(f), seed, writeSucceeds).staged
  {
    var products := Narrow(fetched.productList, f);
    VanishedExactly(rows, ProductIds(products));
    assert k !in ProductIds(products);
    assert Row(k, false) in Vanished(rows, ProductIds(products));
  }

  /** Judged against the whole fetched list, no listed id is ever staged out
      of stock. */
  lemma FullListVariantKeepsListed(rows: seq<Row>, productList: seq<Product>, products: seq<Product>,
                                   k: string)
    requires k in ProductIds(productList)
    ensures Row(k, false) !in StagedAgainstFullList(rows, productList, products)
  {
    FoundRowsExactly(products);
    VanishedShape(rows, ProductIds(productList));
  }

  /** Without an active filter the two absence rules coincide. */
  lemma FullListVariantAgreesWithoutFilter(rows: seq<Row>, fetched: FetchResult, filter: Option<string>,
                                           seed: bool, writeSucceeds: bool)
    requires !FilterActive(filter)
    requires Pass(rows, fetched, filter, seed, writeSucceeds).outcome in {WriteFailed, Written}
    ensures Pass(rows, fetched, filter, seed, writeSucceeds).staged
         == StagedAgainstFullList(rows, fetched.productList, fetched.productList)
  {
  }

  /** The filter "shoe" keeps "Running Shoe" and drops "Hat". */
  lemma ShoeFilterExample()
    ensures Relevant([Product("1", "Hat"), Product("2", "Running Shoe")], Some("shoe"))
         == [Product("2", "Running Shoe")]
  {
    var list := [Product("1", "Hat"), Product("2", "Running Shoe")];
    assert !Matches(list[0], "shoe") by {
      assert Lower("shoe") == "shoe";
      assert Lower("Hat") == "hat";
      assert !Contains("hat", "shoe");
    }
    assert Matches(list[1], "shoe") by {
      assert Lower("shoe") == "shoe";
      assert Lower("Running Shoe") == "running shoe";
      assert OccursAt("running shoe", "shoe", 8);
      ContainsIsOccurrence("running shoe", "shoe");
    }
    assert list[..1] == [list[0]];
    assert Narrow([list[0]], "shoe") == [] by {
      assert [list[0]][..0] == [];
    }
  }

  /** A stored in-stock item that is still listed under a name the filter
      rejects: as written it is staged out of stock, while the absence rule
      on the whole list leaves it alone. */
  lemma FilteredOutExample()
    ensures var rows := [Row("1", true)];
            var list := [Product("1", "Hat"), Product("2", "Running Shoe")];
            var r := Pass(rows, Answered(200, list), Some("shoe"), false, true);
            && r.staged == [Row("2", true), Row("1", false)]
            && r.notify == [Product("2", "Running Shoe")]
            && StagedAgainstFullList(rows, list, [Product("2", "Running Shoe")]) == [Row("2", true)]
  {
    var rows := [Row("1", true)];
    var list := [Product("1", "Hat"), Product("2", "Running Shoe")];
    var shoe := Product("2", "Running Shoe");
    ShoeFilterExample();
    assert ProductIds([shoe]) == {"2"};
    assert ProductIds(list) == {"1", "2"};
    assert Vanished(rows, {"2"}) == [Row("1", false)];
    assert Vanished(rows, {"1", "2"}) == [];
    assert ToMap(rows) == map["1" := true];
    assert NotifyList(map["1" := true], [shoe], false) == [shoe] by {
      assert [shoe][..0] == [];
    }
  }
}
