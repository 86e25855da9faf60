/**
 * The product page's client-side query engine (the filter-and-sort effect of
 * `frontend/src/Pages/Products.jsx`): from the loaded products and the three criteria
 * it derives the list the page shows.
 */
module Query {
  import opened Catalog
  import opened Text
  import Seqs
  import PriceSort

  /** The normal form of the sentinel filter choice "All Categories". */
  const AllCategoriesKey := "all categories"

  /** The sort order under which prices ascend; every other value sorts descending. */
  const Ascending := "asc"

  /** The category criterion is active: its normal form is neither empty nor the sentinel. */
  predicate FiltersByCategory(categoryFilter: string) {
    var key := Normalize(categoryFilter);
    key != "" && key != AllCategoriesKey
  }

  /** The lowercase category contains the normalised filter. */
  predicate InCategory(p: Product, key: string) {
    Contains(Lower(p.category), key)
  }

  /** The lowercase name or the lowercase category contains the normalised search term. */
  predicate MatchesSearch(p: Product, key: string) {
    Contains(Lower(p.name), key) || Contains(Lower(p.category), key)
  }

  function CategoryTest(key: string): Product -> bool {
    (p: Product) => InCategory(p, key)
  }

  function SearchTest(key: string): Product -> bool {
    (p: Product) => MatchesSearch(p, key)
  }

  function ByCategory(s: seq<Product>, categoryFilter: string): seq<Product> {
    if FiltersByCategory(categoryFilter) then Seqs.Filter(s, CategoryTest(Normalize(categoryFilter)))
    else s
  }

  function BySearch(s: seq<Product>, searchTerm: string): seq<Product> {
    var key := Normalize(searchTerm);
    if key != "" then Seqs.Filter(s, SearchTest(key)) else s
  }

  /** The products that pass the category filter and then the search filter, in source order. */
  function Matching(s: seq<Product>, searchTerm: string, categoryFilter: string): seq<Product> {
    BySearch(ByCategory(s, categoryFilter), searchTerm)
  }

  /** The displayed list: the matching products, stably sorted by price. */
  function Visible(allProducts: seq<Product>, searchTerm: string, categoryFilter: string, sortOrder: string): seq<Product> {
    PriceSort.SortByPrice(Matching(allProducts, searchTerm, categoryFilter), sortOrder == Ascending)
  }

  /** Whether one product passes both criteria. */
  predicate Selected(p: Product, searchTerm: string, categoryFilter: string) {
    && (FiltersByCategory(categoryFilter) ==> InCategory(p, Normalize(categoryFilter)))
    && (Normalize(searchTerm) != "" ==> MatchesSearch(p, Normalize(searchTerm)))
  }

  /** Lines 40-53: normalise the criteria, then filter by category and then by search. */
  method FilterProducts(allProducts: seq<Product>, searchTerm: string, categoryFilter: string)
    returns (filtered: seq<Product>)
    ensures filtered == Matching(allProducts, searchTerm, categoryFilter)
  {
    filtered := allProducts;
    var lowerSearch := Normalize(searchTerm);
    var lowerCategoryFilter := Normalize(categoryFilter);
    if lowerCategoryFilter != "" && lowerCategoryFilter != AllCategoriesKey {
      filtered := Seqs.Filter(filtered, CategoryTest(lowerCategoryFilter));
    }
    if lowerSearch != "" {
      filtered := Seqs.Filter(filtered, SearchTest(lowerSearch));
    }
  }

  /**
   * The whole effect (lines 39-57): filter, then sort a fresh array in place. The input
   * sequence is a value, so nothing here can change it.
   */
  method FilterAndSort(allProducts: seq<Product>, searchTerm: string, categoryFilter: string, sortOrder: string)
    returns (products: seq<Product>)
    ensures products == Visible(allProducts, searchTerm, categoryFilter, sortOrder)
  {
    var filtered := FilterProducts(allProducts, searchTerm, categoryFilter);
    var a := new Product[|filtered|](i requires 0 <= i < |filtered| => filtered[i]);
    assert a[..] == filtered;
    PriceSort.SortInPlace(a, sortOrder == Ascending);
    products := a[..];
  }

  // ---------------------------------------------------------------------
  // Properties of the displayed list

  /**
   * Exactly the selected products are shown, each as often as in the source: nothing
   * outside the source appears, and nothing that passes both criteria is lost.
   */
  lemma VisibleCount(allProducts: seq<Product>, searchTerm: string, categoryFilter: string, sortOrder: string, p: Product)
    ensures multiset(Visible(allProducts, searchTerm, categoryFilter, sortOrder))[p]
         == if Selected(p, searchTerm, categoryFilter) then multiset(allProducts)[p] else 0
  {
    var byCategory := ByCategory(allProducts, categoryFilter);
    PriceSort.SortByPricePermutes(Matching(allProducts, searchTerm, categoryFilter), sortOrder == Ascending);
    if FiltersByCategory(categoryFilter) {
      Seqs.FilterCount(allProducts, CategoryTest(Normalize(categoryFilter)), p);
    }
    if Normalize(searchTerm) != "" {
      Seqs.FilterCount(byCategory, SearchTest(Normalize(searchTerm)), p);
    }
  }

  /** Every shown product is one of the loaded products. */
  lemma VisibleFromSource(allProducts: seq<Product>, searchTerm: string, categoryFilter: string, sortOrder: string)
    ensures multiset(Visible(allProducts, searchTerm, categoryFilter, sortOrder)) <= multiset(allProducts)
    ensures forall p :: p in Visible(allProducts, searchTerm, categoryFilter, sortOrder) ==> p in allProducts
  {
    var v := Visible(allProducts, searchTerm, categoryFilter, sortOrder);
    forall p ensures multiset(v)[p] <= multiset(allProducts)[p] {
      VisibleCount(allProducts, searchTerm, categoryFilter, sortOrder, p);
    }
    forall p | p in v ensures p in allProducts {
      assert multiset(v)[p] > 0;
    }
  }

  /**
   * The category rule: an inactive criterion (blank or "all categories" in any case and
   * spacing) drops nothing; an active one keeps only categories containing it.
   */
  lemma CategoryRule(allProducts: seq<Product>, searchTerm: string, categoryFilter: string, sortOrder: string)
    ensures !FiltersByCategory(categoryFilter) ==>
      Matching(allProducts, searchTerm, categoryFilter) == BySearch(allProducts, searchTerm)
    ensures FiltersByCategory(categoryFilter) ==>
      forall p :: p in Visible(allProducts, searchTerm, categoryFilter, sortOrder) ==>
        Contains(Lower(p.category), Normalize(categoryFilter))
  {
    var v := Visible(allProducts, searchTerm, categoryFilter, sortOrder);
    forall p | p in v ensures Selected(p, searchTerm, categoryFilter) {
      VisibleCount(allProducts, searchTerm, categoryFilter, sortOrder, p);
      assert multiset(v)[p] > 0;
    }
  }

  /**
   * The search rule: a blank or whitespace-only term drops nothing; any other term keeps only
   * products whose lowercase name or category contains the trimmed, lowercase term.
   */
  lemma SearchRule(allProducts: seq<Product>, searchTerm: string, categoryFilter: string, sortOrder: string)
    ensures IsBlank(searchTerm) ==>
      Matching(allProducts, searchTerm, categoryFilter) == ByCategory(allProducts, categoryFilter)
    ensures !IsBlank(searchTerm) ==>
      forall p :: p in Visible(allProducts, searchTerm, categoryFilter, sortOrder) ==>
        MatchesSearch(p, Normalize(searchTerm))
  {
    NormalizeEmptyIffBlank(searchTerm);
    var v := Visible(allProducts, searchTerm, categoryFilter, sortOrder);
    forall p | p in v ensures Selected(p, searchTerm, categoryFilter) {
      VisibleCount(allProducts, searchTerm, categoryFilter, sortOrder, p);
      assert multiset(v)[p] > 0;
    }
  }

  /** Non-decreasing prices for "asc", non-increasing for any other sort order. */
  lemma VisibleOrdered(allProducts: seq<Product>, searchTerm: string, categoryFilter: string, sortOrder: string)
    ensures var v := Visible(allProducts, searchTerm, categoryFilter, sortOrder);
      forall i, j :: 0 <= i < j < |v| ==>
        if sortOrder == Ascending then v[i].price <= v[j].price else v[i].price >= v[j].price
  {
    var v := Visible(allProducts, searchTerm, categoryFilter, sortOrder);
    PriceSort.SortByPriceSorted(Matching(allProducts, searchTerm, categoryFilter), sortOrder == Ascending);
    forall i, j | 0 <= i < j < |v|
      ensures if sortOrder == Ascending then v[i].price <= v[j].price else v[i].price >= v[j].price
    {
      assert PriceSort.InOrder(v[i], v[j], sortOrder == Ascending);
    }
  }

  /**
   * Stability: the shown products of any one price are exactly the matching products of
   * that price, in their order in the source list.
   */
  lemma VisibleStable(allProducts: seq<Product>, searchTerm: string, categoryFilter: string, sortOrder: string, k: real)
    ensures PriceSort.PriceClass(Visible(allProducts, searchTerm, categoryFilter, sortOrder), k)
         == Matching(PriceSort.PriceClass(allProducts, k), searchTerm, categoryFilter)
  {
    var m := Matching(allProducts, searchTerm, categoryFilter);
    PriceSort.SortByPriceStableAt(m, sortOrder == Ascending, k);
    var byCategory := ByCategory(allProducts, categoryFilter);
    if FiltersByCategory(categoryFilter) {
      Seqs.FilterCommute(allProducts, CategoryTest(Normalize(categoryFilter)), PriceSort.AtPrice(k));
    }
    if Normalize(searchTerm) != "" {
      Seqs.FilterCommute(byCategory, SearchTest(Normalize(searchTerm)), PriceSort.AtPrice(k));
    }
  }
}
