/**
 * A worked example of the page's query engine on a two-product catalog: a 50-priced book
 * and a 20-priced desk, first with no criteria, then filtered to one category, then searched.
 */
module Scenario {
  import opened Catalog
  import opened Text
  import Query
  import PriceSort
  import SearchAndSort
  import Seqs
  import ProductForm

  const Atlas := Product("1", "Atlas", 50.0, "Books", "")
  const ZenDesk := Product("2", "Zen Desk", 20.0, "Furniture", "")
  const Shelf := [Atlas, ZenDesk]

  /** Of two products, the cheaper goes first in ascending order. */
  lemma SortedPair(a: Product, b: Product)
    requires b.price < a.price
    ensures PriceSort.SortByPrice([a, b], true) == [b, a]
  {
    assert [a, b][..1] == [a];
    assert [a][..0] == [];
    assert PriceSort.SortByPrice([a], true) == [a];
    assert PriceSort.Insert([a][..0], b, true) == [b];
  }

  /** A filter keeping the first of two products and dropping the second. */
  lemma FilterFirst(a: Product, b: Product, keep: Product -> bool)
    requires keep(a) && !keep(b)
    ensures Seqs.Filter([a, b], keep) == [a]
  {
    assert [a, b][1..] == [b];
    assert [b][1..] == [];
  }

  /** A filter keeping the second of two products and dropping the first. */
  lemma FilterSecond(a: Product, b: Product, keep: Product -> bool)
    requires !keep(a) && keep(b)
    ensures Seqs.Filter([a, b], keep) == [b]
  {
    assert [a, b][1..] == [b];
    assert [b][1..] == [];
  }

  /** One product sorts to itself. */
  lemma SortedSingle(a: Product, ascending: bool)
    ensures PriceSort.SortByPrice([a], ascending) == [a]
  {
    assert [a][..0] == [];
  }

  /** "All Categories" and no search term: every product, cheapest first. */
  lemma AllCategoriesAscending()
    ensures Query.Visible(Shelf, "", "All Categories", "asc") == [ZenDesk, Atlas]
  {
    SearchAndSort.ChoiceNormalForm("All Categories");
    NormalizeEmptyIffBlank("");
    SortedPair(Atlas, ZenDesk);
  }

  /** An empty search and a category only the first of two products is in: the first alone. */
  lemma CategoryPicksFirst(a: Product, b: Product, categoryFilter: string)
    requires Query.FiltersByCategory(categoryFilter)
    requires Query.InCategory(a, Normalize(categoryFilter)) && !Query.InCategory(b, Normalize(categoryFilter))
    ensures Query.Visible([a, b], "", categoryFilter, "asc") == [a]
  {
    NormalizeEmptyIffBlank("");
    FilterFirst(a, b, Query.CategoryTest(Normalize(categoryFilter)));
    SortedSingle(a, true);
  }

  /** Every category and a term only the second of two products matches: the second alone. */
  lemma SearchPicksSecond(a: Product, b: Product, searchTerm: string)
    requires Normalize(searchTerm) != ""
    requires !Query.MatchesSearch(a, Normalize(searchTerm)) && Query.MatchesSearch(b, Normalize(searchTerm))
    ensures Query.Visible([a, b], searchTerm, "All Categories", "asc") == [b]
  {
    SearchAndSort.ChoiceNormalForm("All Categories");
    FilterSecond(a, b, Query.SearchTest(Normalize(searchTerm)));
    SortedSingle(b, true);
  }

  /** A filter choice keeps the product of exactly that category and drops one of another. */
  lemma ChoicePicksFirst(a: Product, b: Product, choice: string)
    requires choice in SearchAndSort.FilterCategories && choice != SearchAndSort.AllCategories
    requires a.category == choice
    requires b.category in ProductForm.Categories && b.category != choice
    ensures Query.Visible([a, b], "", choice, "asc") == [a]
  {
    SearchAndSort.ChoiceNormalForm(choice);
    SearchAndSort.ChoiceMatchesExactly(choice, a);
    SearchAndSort.ChoiceMatchesExactly(choice, b);
    CategoryPicksFirst(a, b, choice);
  }

  /** The category "Books": only the book remains. */
  lemma BooksOnly()
    ensures Query.Visible(Shelf, "", "Books", "asc") == [Atlas]
  {
    ChoicePicksFirst(Atlas, ZenDesk, "Books");
  }

  /** The search "desk" with every category: only the desk remains. */
  lemma SearchDesk()
    ensures Query.Visible(Shelf, "desk", "All Categories", "asc") == [ZenDesk]
  {
    DeskKey();
    DeskInName();
    LowerMissing(Atlas.name, "desk", 0);
    LowerMissing(Atlas.category, "desk", 0);
    SearchPicksSecond(Atlas, ZenDesk, "desk");
  }

  /** The desk's lowercase name contains "desk". */
  lemma DeskInName()
    ensures Contains(Lower(ZenDesk.name), "desk")
  {
    var low := Lower(ZenDesk.name);
    assert low[4..8] == "desk";
    assert OccursAt(low, "desk", 4);
  }

  /** The search term "desk" is its own normal form. */
  lemma DeskKey()
    ensures Normalize("desk") == "desk"
  {
    var low := Lower("desk");
    assert low == "desk";
    assert low[0] == 'd' && low[|low| - 1] == 'k';
    TrimOfTrimmed(low);
  }
}
