/** Example queries and a cart session on the fixed catalog. */
module Scenarios {
  import opened Catalog
  import opened CartStore
  import Text
  import Seqs

  /** Where each category of the catalog first occurs. */
  lemma CategoryFirstIndices()
    ensures CategoryColumn(Products) == ["Electronics", "Electronics", "Fashion", "Fashion", "Home", "Stationery"]
    ensures Seqs.FirstIndex(CategoryColumn(Products), "Electronics") == 0
    ensures Seqs.FirstIndex(CategoryColumn(Products), "Fashion") == 2
    ensures Seqs.FirstIndex(CategoryColumn(Products), "Home") == 4
    ensures Seqs.FirstIndex(CategoryColumn(Products), "Stationery") == 5
  {
    var names := CategoryColumn(Products);
    assert names == ["Electronics", "Electronics", "Fashion", "Fashion", "Home", "Stationery"];
    Seqs.FirstIndexUnique(names, "Electronics", 0);
    Seqs.FirstIndexUnique(names, "Fashion", 2);
    Seqs.FirstIndexUnique(names, "Home", 4);
    Seqs.FirstIndexUnique(names, "Stationery", 5);
  }

  /** The category drop-down of the storefront. */
  lemma CategoriesScenario()
    ensures Categories(Products) == ["All", "Electronics", "Fashion", "Home", "Stationery"]
  {
    var r := ["All", "Electronics", "Fashion", "Home", "Stationery"];
    CategoryFirstIndices();
    assert r[1..] == ["Electronics", "Fashion", "Home", "Stationery"];
    CategoriesUnique(Products, r);
  }

  /** The empty search text has the empty search key. */
  lemma EmptySearchKey()
    ensures SearchKey("") == ""
  {
    assert Text.Lower("") == "";
  }

  /** The products that are not electronics. */
  lemma NotElectronics()
    ensures forall k :: 0 <= k < |Products[2..]| ==> !Matches(Products[2..][k], "", "Electronics")
  {
  }

  /** The two electronics products match the empty search. */
  lemma Electronics()
    ensures Matches(Products[0], "", "Electronics")
    ensures Matches(Products[1..][0], "", "Electronics")
  {
    EmptySearchKey();
    assert Text.OccursAt(Text.Lower(Products[0].name), "", 0);
    assert Text.OccursAt(Text.Lower(Products[1].name), "", 0);
  }

  /** Choosing the category "Electronics" with no search text lists the
      products with ids 1 and 2, in catalog order. */
  lemma ElectronicsScenario()
    ensures Filter(Products, "", "Electronics") == Products[..2]
    ensures Products[..2][0].id == 1 && Products[..2][1].id == 2
  {
    Electronics();
    NotElectronics();
    FilterNone(Products[2..], "", "Electronics");
    FilterCons(Products[1..], "", "Electronics");
    assert Products[1..][1..] == Products[2..];
    FilterCons(Products, "", "Electronics");
  }

  /** " SHOES " has the search key "shoes". */
  lemma ShoesSearchKey()
    ensures SearchKey(" SHOES ") == "shoes"
  {
    assert Text.Lower(" SHOES ") == " shoes ";
    assert Text.PaddedAt(" shoes ", "shoes", 1);
    Text.TrimUnique(" shoes ", "shoes", 1);
  }

  /** "Running Shoes" lower-cased contains "shoes". */
  lemma RunningShoesName()
    ensures Text.Contains(Text.Lower("Running Shoes"), "shoes")
  {
    assert Text.Lower("Running Shoes") == "running shoes";
    assert Text.OccursAt("running shoes", "shoes", 8);
  }

  /** The search " SHOES " in every category lists "Running Shoes": the
      search ignores case and surrounding whitespace. */
  lemma ShoesScenario()
    ensures Matches(Products[2], " SHOES ", All)
    ensures Products[2] in Filter(Products, " SHOES ", All)
  {
    ShoesSearchKey();
    RunningShoesName();
  }

  /** From the empty cart: add product 1 twice, decrease it, remove it. */
  lemma CartScenario()
    ensures Add(Empty, Products[0]) == map[1 := 1]
    ensures Add(Add(Empty, Products[0]), Products[0]) == map[1 := 2]
    ensures Decrease(map[1 := 2], 1) == map[1 := 1]
    ensures Remove(map[1 := 1], 1) == Empty
  {
  }
}
