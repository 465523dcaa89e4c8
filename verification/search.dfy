/** The search side of a pass: what a fetch of the product search can
    produce, and the optional case-insensitive name filter that narrows the
    product list. */
module Search {

  datatype Option<T> = None | Some(value: T)

  /** A listed product reduced to the two fields the pass uses: the item id
      (the join key with the stored rows) and the display name (matched by
      the filter). */
  datatype Product = Product(id: string, name: string)

  /** The outcome of one search request: it threw (network failure, the
      one-second abort, a body that is not JSON), or the server answered
      with a status code and, when decoded, the product list. */
  datatype FetchResult = Threw | Answered(status: int, productList: seq<Product>)

  /** `response.ok`: a status in the 2xx range. */
  predicate ResponseOk(status: int)
  {
    200 <= status <= 299
  }

  /** True when the fetch yields a list to work on; every other outcome is
      turned into a thrown error and caught, ending the pass. */
  predicate Succeeded(fetched: FetchResult)
  {
    fetched.Answered? && ResponseOk(fetched.status)
  }

  predicate IsUpper(c: char)
  {
    'A' <= c <= 'Z'
  }

  function LowerChar(c: char): char
  {
    if IsUpper(c) then (c as int - 'A' as int + 'a' as int) as char else c
  }

  /** `toLowerCase`, restricted to the ASCII letters. */
  function Lower(s: string): (t: string)
    ensures |t| == |s|
    ensures forall i :: 0 <= i < |s| ==> !IsUpper(t[i])
    ensures forall i :: 0 <= i < |s| && IsUpper(s[i]) ==> t[i] as int == s[i] as int + 32
    ensures forall i :: 0 <= i < |s| && !IsUpper(s[i]) ==> t[i] == s[i]
  {
    seq(|s|, i requires 0 <= i < |s| => LowerChar(s[i]))
  }

  /** `hay.includes(needle)`. */
  function Contains(hay: string, needle: string): bool
    decreases |hay|
  {
    if |needle| > |hay| then false
    else if hay[..|needle|] == needle then true
    else Contains(hay[1..], needle)
  }

  /** `needle` occurs in `hay` starting at position `i`. */
  predicate OccursAt(hay: string, needle: string, i: int)
  {
    0 <= i <= |hay| - |needle| && hay[i..i + |needle|] == needle
  }

  /** `Contains` holds exactly when `needle` occurs somewhere in `hay`. */
  lemma {:induction false} ContainsIsOccurrence(hay: string, needle: string)
    ensures Contains(hay, needle) <==> exists i :: OccursAt(hay, needle, i)
    decreases |hay|
  {
    if |needle| <= |hay| && hay[..|needle|] != needle {
      ContainsIsOccurrence(hay[1..], needle);
      if Contains(hay, needle) {
        var i :| OccursAt(hay[1..], needle, i);
        assert hay[i + 1..i + 1 + |needle|] == hay[1..][i..i + |needle|];
        assert OccursAt(hay, needle, i + 1);
      }
      if exists i :: OccursAt(hay, needle, i) {
        var i :| OccursAt(hay, needle, i);
        assert i != 0;
        assert hay[1..][i - 1..i - 1 + |needle|] == hay[i..i + |needle|];
        assert OccursAt(hay[1..], needle, i - 1);
      }
    } else if |needle| <= |hay| {
      assert OccursAt(hay, needle, 0);
    }
  }

  /** The filter predicate: the lower-cased name contains the lower-cased
      filter text. */
  predicate Matches(p: Product, filter: string)
  {
    Contains(Lower(p.name), Lower(filter))
  }

  /** A filter is applied only when it is given and not empty. */
  predicate FilterActive(filter: Option<string>)
  {
    filter.Some? && filter.value != ""
  }

  /** `products.filter(...)`: the matching products, in list order. */
  function Narrow(products: seq<Product>, filter: string): (r: seq<Product>)
    ensures |r| <= |products|
    ensures forall p :: p in r <==> p in products && Matches(p, filter)
  {
    if products == [] then []
    else
      var n := |products| - 1;
      assert products == products[..n] + [products[n]];
      Narrow(products[..n], filter) + (if Matches(products[n], filter) then [products[n]] else [])
  }

  /** Filtering a concatenation filters each part: together with
      `NarrowSingle` this says `Narrow` keeps every matching product, as
      often as it occurs and in list order. */
  lemma {:induction false} NarrowConcat(a: seq<Product>, b: seq<Product>, filter: string)
    ensures Narrow(a + b, filter) == Narrow(a, filter) + Narrow(b, filter)
    decreases |b|
  {
    if b == [] {
      assert a + b == a;
    } else {
      var n := |b| - 1;
      assert (a + b)[..|a + b| - 1] == a + b[..n];
      assert (a + b)[|a + b| - 1] == b[n];
      NarrowConcat(a, b[..n], filter);
    }
  }

  /** A one-product list is kept exactly when the product matches. */
  lemma NarrowSingle(p: Product, filter: string)
    ensures Narrow([p], filter) == if Matches(p, filter) then [p] else []
  {
  }

  /** The list the pass works on: the fetched list, narrowed when a filter
      is active. */
  function Relevant(productList: seq<Product>, filter: Option<string>): seq<Product>
  {
    if FilterActive(filter) then Narrow(productList, filter.value) else productList
  }

  /** The ids occurring in a product list. */
  function ProductIds(products: seq<Product>): set<string>
  {
    set p | p in products :: p.id
  }

  predicate DistinctProductIds(products: seq<Product>)
  {
    forall i, j :: 0 <= i < j < |products| ==> products[i].id != products[j].id
  }

  /** Narrowing keeps distinct ids distinct. */
  lemma {:induction false} NarrowKeepsDistinct(products: seq<Product>, filter: string)
    requires DistinctProductIds(products)
    ensures DistinctProductIds(Narrow(products, filter))
  {
    if products != [] {
      var n := |products| - 1;
      var prefix := products[..n];
      NarrowKeepsDistinct(prefix, filter);
      var r := Narrow(prefix, filter);
      if Matches(products[n], filter) {
        forall i | 0 <= i < |r|
          ensures r[i].id != products[n].id
        {
          assert r[i] in prefix;
          var k :| 0 <= k < n && prefix[k] == r[i];
        }
        var r' := r + [products[n]];
        forall a, b | 0 <= a < b < |r'|
          ensures r'[a].id != r'[b].id
        {
          if b == |r| {
            assert r'[a] == r[a];
          } else {
            assert r'[a] == r[a] && r'[b] == r[b];
          }
        }
      }
    }
  }
}
