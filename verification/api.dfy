/**
 * The query-parameter builder `productAPI.search` of `frontend/src/services/api.js`: the
 * dictionary of request parameters built from the search term, the category and the sort
 * criteria. The request itself is left out; only the parameters are modelled.
 */
module Api {
  import opened Text
  import Query
  import SearchAndSort

  /** The four keys the builder can produce. */
  const ParamKeys: set<string> := {"search", "category", "sort", "order"}

  /**
   * The builder sends a category when it is non-empty and not exactly the sentinel: the
   * comparison is case-sensitive and nothing is trimmed.
   */
  predicate SendsCategory(category: string) {
    category != "" && category != SearchAndSort.AllCategories
  }

  /**
   * `search`: each argument that is a non-empty string is stored under its own key, the
   * category only when it is not the sentinel. The values are stored as given.
   */
  method Search(searchTerm: string, category: string := "", sort: string := "price", order: string := "asc")
    returns (params: map<string, string>)
    ensures params.Keys <= ParamKeys
    ensures "search" in params <==> searchTerm != ""
    ensures "category" in params <==> SendsCategory(category)
    ensures "sort" in params <==> sort != ""
    ensures "order" in params <==> order != ""
    ensures "search" in params ==> params["search"] == searchTerm
    ensures "category" in params ==> params["category"] == category
    ensures "sort" in params ==> params["sort"] == sort
    ensures "order" in params ==> params["order"] == order
  {
    params := map[];
    if searchTerm != "" {
      params := params["search" := searchTerm];
    }
    if category != "" && category != SearchAndSort.AllCategories {
      params := params["category" := category];
    }
    if sort != "" {
      params := params["sort" := sort];
    }
    if order != "" {
      params := params["order" := order];
    }
  }

  /** With every argument but the term left to its default, the request sorts by ascending price. */
  method SearchTermOnly(searchTerm: string) returns (params: map<string, string>)
    ensures params == (if searchTerm == "" then map[] else map["search" := searchTerm])
                      ["sort" := "price"]["order" := "asc"]
  {
    params := Search(searchTerm);
  }

  /**
   * Whenever the page filters by category, the builder would send that category too: the
   * page's test (trimmed, lowercase) is the stricter of the two.
   */
  lemma PageFilterImpliesSent(category: string)
    ensures Query.FiltersByCategory(category) ==> SendsCategory(category)
  {
    if category == SearchAndSort.AllCategories {
      SearchAndSort.ChoiceNormalForm(category);
    } else if category == "" {
      NormalizeEmptyIffBlank(category);
    }
  }

  /** On the choices the criteria bar offers, the two tests agree. */
  lemma ChecksAgreeOnChoices(choice: string)
    requires choice in SearchAndSort.FilterCategories
    ensures SendsCategory(choice) <==> Query.FiltersByCategory(choice)
  {
    SearchAndSort.ChoiceNormalForm(choice);
  }

  /** Off those choices they differ: a category of blanks is sent but does not filter on the page. */
  lemma BlankCategoryDiffers(category: string)
    requires category != "" && IsBlank(category)
    ensures SendsCategory(category) && !Query.FiltersByCategory(category)
  {
    NormalizeEmptyIffBlank(category);
    assert !IsWhitespace(SearchAndSort.AllCategories[0]);
  }

  /**
   * Neither does the sentinel written in another case: the builder's comparison is exact,
   * the page's ignores case.
   */
  lemma SentinelInOtherCaseDiffers(category: string)
    requires Lower(category) == Query.AllCategoriesKey && category != SearchAndSort.AllCategories
    ensures SendsCategory(category) && !Query.FiltersByCategory(category)
  {
    assert |category| == |Lower(category)|;
    KeyIsTrimmed();
  }

  /** The page's sentinel key `all categories` is its own trim. */
  lemma KeyIsTrimmed()
    ensures Trim(Query.AllCategoriesKey) == Query.AllCategoriesKey
  {
    var low := Query.AllCategoriesKey;
    assert low[0] == 'a' && low[|low| - 1] == 's';
    TrimOfTrimmed(low);
  }
}
