/** The static product catalog and the two read-only queries the storefront
    runs over it: the category list shown in the drop-down and the product
    list filtered by category and search text. */
module Catalog {
  import Seqs
  import Text

  /** A product; `price` is an integer price, shown in rupees. */
  datatype Product = Product(id: int, name: string, price: int, category: string)

  datatype Option<T> = None | Some(value: T)

  /** The category that selects every product. */
  const All: string := "All"

  /** The storefront's fixed catalog, in display order. */
  const Products: seq<Product> := [
    Product(1, "Wireless Headphones", 1999, "Electronics"),
    Product(2, "Smart Watch", 2499, "Electronics"),
    Product(3, "Running Shoes", 1799, "Fashion"),
    Product(4, "Backpack", 1299, "Fashion"),
    Product(5, "Coffee Mug", 299, "Home"),
    Product(6, "Notebook", 149, "Stationery")
  ]

  /** No two products share an id. */
  predicate UniqueIds(catalog: seq<Product>) {
    forall i, j :: 0 <= i < j < |catalog| ==> catalog[i].id != catalog[j].id
  }

  /** Some product of the catalog has this id. */
  predicate HasId(catalog: seq<Product>, id: int) {
    exists i :: 0 <= i < |catalog| && catalog[i].id == id
  }

  /** The catalog's own data: distinct positive ids, non-empty names and
      prices that are not negative. */
  predicate WellFormed(catalog: seq<Product>) {
    && UniqueIds(catalog)
    && forall i :: 0 <= i < |catalog| ==> catalog[i].id > 0 && |catalog[i].name| > 0 && catalog[i].price >= 0
  }

  lemma ProductsWellFormed()
    ensures WellFormed(Products)
  {
  }

  /** `catalog.find(p => p.id === id)`: the first product with that id. */
  function Find(catalog: seq<Product>, id: int): (r: Option<Product>)
    ensures r.Some? <==> HasId(catalog, id)
    ensures r.Some? ==> r.value in catalog && r.value.id == id
  {
    if |catalog| == 0 then None
    else if catalog[0].id == id then Some(catalog[0])
    else
      var r := Find(catalog[1..], id);
      assert HasId(catalog, id) ==> HasId(catalog[1..], id) by {
        if HasId(catalog, id) {
          var i :| 0 <= i < |catalog| && catalog[i].id == id;
          assert catalog[1..][i - 1] == catalog[i];
        }
      }
      assert HasId(catalog[1..], id) ==> HasId(catalog, id) by {
        if HasId(catalog[1..], id) {
          var i :| 0 <= i < |catalog[1..]| && catalog[1..][i].id == id;
          assert catalog[i + 1] == catalog[1..][i];
        }
      }
      r
  }

  /** With unique ids, looking up a product's id finds that very product. */
  lemma {:induction false} FindById(catalog: seq<Product>, k: int)
    requires UniqueIds(catalog)
    requires 0 <= k < |catalog|
    ensures Find(catalog, catalog[k].id) == Some(catalog[k])
    decreases k
  {
    if k > 0 {
      assert catalog[0].id != catalog[k].id;
      assert catalog[1..][k - 1] == catalog[k];
      FindById(catalog[1..], k - 1);
    }
  }

  /** `catalog.map(p => p.category)`. */
  function CategoryColumn(catalog: seq<Product>): (r: seq<string>)
    ensures |r| == |catalog|
    ensures forall i :: 0 <= i < |r| ==> r[i] == catalog[i].category
  {
    seq(|catalog|, i requires 0 <= i < |catalog| => catalog[i].category)
  }

  /** `["All", ...Array.from(new Set(catalog.map(p => p.category)))]`: the
      entry "All" followed by every category of the catalog exactly once, in
      the order in which the categories first occur. */
  function Categories(catalog: seq<Product>): (r: seq<string>)
    ensures |r| >= 1 && r[0] == All
    ensures Seqs.NoDups(r[1..])
    ensures forall i :: 0 <= i < |catalog| ==> catalog[i].category in r[1..]
    ensures forall k :: 1 <= k < |r| ==> exists i :: 0 <= i < |catalog| && catalog[i].category == r[k]
    ensures forall k, m :: 1 <= k < m < |r| ==>
              Seqs.FirstIndex(CategoryColumn(catalog), r[k]) < Seqs.FirstIndex(CategoryColumn(catalog), r[m])
  {
    var names := CategoryColumn(catalog);
    var d := Seqs.Distinct(names);
    var r := [All] + d;
    assert r[1..] == d;
    assert forall k :: 1 <= k < |r| ==> r[k] == d[k - 1];
    assert forall k :: 1 <= k < |r| ==> exists i :: 0 <= i < |catalog| && catalog[i].category == r[k] by {
      forall k | 1 <= k < |r|
        ensures exists i :: 0 <= i < |catalog| && catalog[i].category == r[k]
      {
        assert d[k - 1] in names;
        var i :| 0 <= i < |names| && names[i] == d[k - 1];
        assert catalog[i].category == r[k];
      }
    }
    r
  }

  /** The category list is the only one that starts with "All" and then
      lists every category of the catalog once, in first-occurrence order. */
  lemma CategoriesUnique(catalog: seq<Product>, r: seq<string>)
    requires |r| >= 1 && r[0] == All
    requires forall i :: 0 <= i < |catalog| ==> catalog[i].category in r[1..]
    requires Seqs.FirstOccurrenceOrdered(CategoryColumn(catalog), r[1..])
    ensures Categories(catalog) == r
  {
    var names := CategoryColumn(catalog);
    var tail := r[1..];
    assert forall i :: 0 <= i < |names| ==> names[i] in tail;
    Seqs.DistinctUnique(names, tail);
    assert Categories(catalog) == [All] + Seqs.Distinct(names);
    assert r == [All] + tail;
  }

  /** The text a product name is searched for: `search.toLowerCase().trim()`.
      It holds no upper-case letter, has no whitespace at either end, and is
      the lower-cased search text with only whitespace removed around it. */
  function SearchKey(search: string): (key: string)
    ensures Text.Trimmed(key)
    ensures forall i :: 0 <= i < |key| ==> !Text.IsUpper(key[i])
    ensures Text.PaddedAt(Text.Lower(search), key, Text.LeadingSpaces(Text.Lower(search)))
  {
    Text.TrimKeepsLower(Text.Lower(search));
    Text.Trim(Text.Lower(search))
  }

  /** Whether the storefront lists `p` for the selected category and search
      text: the category is "All" or is the product's, and the search key
      occurs somewhere in the lower-cased name. A blank search matches every
      product of the selected category. */
  predicate Matches(p: Product, search: string, category: string)
  {
    && (category == All || p.category == category)
    && Text.Contains(Text.Lower(p.name), SearchKey(search))
  }

  /** A product matches exactly when its category is selected and the
      search key occurs at some position of its lower-cased name; a search
      key longer than the name never matches, and the blank search key
      matches every product of the selected category. */
  lemma MatchesAt(p: Product, search: string, category: string)
    ensures Matches(p, search, category) <==>
              && (category == All || p.category == category)
              && exists i :: Text.OccursAt(Text.Lower(p.name), SearchKey(search), i)
    ensures |SearchKey(search)| > |p.name| ==> !Matches(p, search, category)
    ensures SearchKey(search) == [] ==> (Matches(p, search, category) <==> category == All || p.category == category)
  {
    var name := Text.Lower(p.name);
    var key := SearchKey(search);
    if key == [] {
      assert Text.OccursAt(name, key, 0);
    }
  }

  /** `PRODUCTS.filter(...)`: the matching products, in catalog order. */
  function Filter(catalog: seq<Product>, search: string, category: string): (r: seq<Product>)
    ensures Seqs.IsSubseq(r, catalog)
    ensures forall i :: 0 <= i < |r| ==> Matches(r[i], search, category)
    ensures forall i :: 0 <= i < |catalog| && Matches(catalog[i], search, category) ==> catalog[i] in r
  {
    if |catalog| == 0 then []
    else
      var rest := Filter(catalog[1..], search, category);
      assert catalog == [catalog[0]] + catalog[1..];
      if Matches(catalog[0], search, category) then
        var r := [catalog[0]] + rest;
        assert r[1..] == rest;
        r
      else
        rest
  }

  /** The filter keeps every matching product as often as the catalog holds
      it and drops every other product. */
  lemma {:induction false} FilterCounts(catalog: seq<Product>, search: string, category: string)
    ensures forall p :: multiset(Filter(catalog, search, category))[p] ==
              if Matches(p, search, category) then multiset(catalog)[p] else 0
  {
    if |catalog| > 0 {
      FilterCounts(catalog[1..], search, category);
      assert catalog == [catalog[0]] + catalog[1..];
    }
  }

  /** With the empty search text and the category "All" every product is
      listed, in catalog order. */
  lemma {:induction false} FilterShowsAll(catalog: seq<Product>)
    ensures Filter(catalog, "", All) == catalog
  {
    assert SearchKey("") == "" by {
      assert Text.Lower("") == "";
    }
    if |catalog| > 0 {
      assert Text.OccursAt(Text.Lower(catalog[0].name), "", 0);
      FilterShowsAll(catalog[1..]);
      assert catalog == [catalog[0]] + catalog[1..];
    }
  }

  /** Two search texts with the same search key list the same products. */
  lemma {:induction false} FilterBySearchKey(catalog: seq<Product>, s1: string, s2: string, category: string)
    requires SearchKey(s1) == SearchKey(s2)
    ensures Filter(catalog, s1, category) == Filter(catalog, s2, category)
  {
    if |catalog| > 0 {
      FilterBySearchKey(catalog[1..], s1, s2, category);
    }
  }

  /** The search ignores the case of the search text. */
  lemma FilterIgnoresCase(catalog: seq<Product>, search: string, category: string)
    ensures Filter(catalog, Text.Lower(search), category) == Filter(catalog, search, category)
  {
    Text.LowerIdempotent(search);
    FilterBySearchKey(catalog, Text.Lower(search), search, category);
  }

  /** The search ignores whitespace around the search text. */
  lemma FilterIgnoresPadding(catalog: seq<Product>, pre: string, search: string, post: string, category: string)
    requires Text.AllSpace(pre) && Text.AllSpace(post)
    ensures Filter(catalog, pre + search + post, category) == Filter(catalog, search, category)
  {
    Text.LowerConcat(pre + search, post);
    Text.LowerConcat(pre, search);
    forall c | c in [pre, post]
      ensures Text.AllSpace(Text.Lower(c))
    {
      forall i | 0 <= i < |c|
        ensures Text.IsSpace(Text.Lower(c)[i])
      {
        Text.LowerKeepsSpace(c[i]);
      }
    }
    Text.TrimPadding(Text.Lower(pre), Text.Lower(search), Text.Lower(post));
    FilterBySearchKey(catalog, pre + search + post, search, category);
  }

  /** When nothing matches, nothing is listed. */
  lemma FilterNone(catalog: seq<Product>, search: string, category: string)
    requires forall k :: 0 <= k < |catalog| ==> !Matches(catalog[k], search, category)
    ensures Filter(catalog, search, category) == []
  {
    var r := Filter(catalog, search, category);
    if |r| > 0 {
      Seqs.SubseqMembers(r, catalog, r[0]);
    }
  }

  /** A matching first product heads the listing. */
  lemma FilterCons(catalog: seq<Product>, search: string, category: string)
    requires |catalog| > 0 && Matches(catalog[0], search, category)
    ensures Filter(catalog, search, category) == [catalog[0]] + Filter(catalog[1..], search, category)
  {
  }
}
