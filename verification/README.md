# Product inventory front end: a verified model

This project models the client-side core of a small product-inventory web application.

- **Product page (`Products.jsx`)**
  - It loads the whole catalog once.
  - It derives the displayed list from three criteria:
    - a search term, matched against the product's name or category;
    - a category filter, matched as a substring of the category;
    - a price sort order.
  - It keeps the list, the add/edit dialog and an error banner up to date as products are saved and deleted.
- **Add/edit form (`ProductForm.jsx`)**: it validates the three required fields and hands a payload to the page.
- **Criteria bar (`SearchAndSort.jsx`)**: it offers a fixed list of category choices and a button that toggles the sort order.
- **API layer (`api.js`)**: it has a parameter builder for a server-side search.

## Modules

- **`Text`**: the three string primitives the page relies on.
  - `trim`, with the ECMAScript whitespace set.
  - `toLowerCase`, restricted to ASCII letters.
  - `includes`.
- **`Seqs`**: `Array.prototype.filter` on sequences, with its counting, concatenation and commutation facts.
- **`Catalog`**: the `Product` record and an `Option` wrapper.
- **`PriceSort`**: the price sort.
  - `SortByPrice` is a specification function. It is a stable insertion sort, proved to be:
    - ordered;
    - a permutation;
    - stable;
    - the only list with those properties.
  - `SortInPlace` sorts an array in place and is proved to produce `SortByPrice`.
- **`Query`**: the page's filter-and-sort effect.
  - `FilterAndSort` filters, copies into an array and sorts in place.
  - `Visible` is the function it is proved against.
  - The lemmas state the category rule, the search rule, completeness with multiplicities, ordering and stability.
- **`ProductForm`**: the form as a class `Form`.
  - It holds the fields, the error map and the submit flag.
  - Its methods are the reset effect, `validateForm`, `handleSubmit` and `handleInputChange`.
- **`SearchAndSort`**: the sort toggle and the filter vocabulary. A lemma shows that, with the two category lists as written, the page's case-insensitive substring test picks exactly the products whose category equals the chosen filter.
- **`Api`**: `productAPI.search`'s parameter dictionary.
  - It is built by conditional insertions.
  - Lemmas compare its exact `'All Categories'` test with the page's trimmed, lowercase one.
- **`ProductsPage`**: the page as a class `Page`.
  - It holds the loaded list, the displayed list, the criteria, the dialog state and the banner.
  - Every handler takes the outcome of its repository request as a parameter.
  - The invariant `Synced` says that the displayed list is `Query.Visible` of the loaded list and the criteria. Every method that changes one of those inputs re-establishes it.
- **`Scenario`**: a two-product catalog run through the query engine under three sets of criteria.

Three facts about the program shape the model:
- the category criterion is a case-insensitive substring test, not equality (`frontend/src/Pages/Products.jsx` line 45);
- validation lives in the form (`frontend/src/components/ProductForm.jsx` lines 36-43);
- the displayed list is filtered and sorted on the client (`frontend/src/Pages/Products.jsx` lines 39-57).

## Model

| member | source | states |
|---|---|---|
| Text.TrimStartSpec | frontend/src/Pages/Products.jsx:41-42 | the result is a suffix of the input whose first character is not whitespace, and everything removed is whitespace |
| Text.TrimEndSpec | frontend/src/Pages/Products.jsx:41-42 | the result is a prefix whose last character is not whitespace, and everything removed is whitespace |
| Text.LowerChar | frontend/src/Pages/Products.jsx:41-42 | an upper-case ASCII letter maps to the same letter in lower case (same offset from `a` as from `A`), and every other character is unchanged |
| Text.Lower | frontend/src/Pages/Products.jsx:41-42 | same length, each character lowercased in place |
| Text.Trim | frontend/src/Pages/Products.jsx:41-42 | definition: `trim()` as `TrimEnd(TrimStart(s))`; its meaning is stated by `TrimStartSpec`, `TrimEndSpec` and `TrimEmptyIffBlank` |
| Text.Normalize | frontend/src/Pages/Products.jsx:41-42 | definition: `toLowerCase().trim()`, the criteria's normal form; empty exactly for blank input by `NormalizeEmptyIffBlank` |
| Text.Contains | frontend/src/Pages/Products.jsx:45 | definition: `includes`, some position where the substring occurs; properties in `ContainsSelf`, `ContainsHasChars`, `LowerMissing` |
| Text.TrimEmptyIffBlank | frontend/src/Pages/Products.jsx:41-48 | trimming yields the empty string exactly when the string is all whitespace |
| Text.LowerKeepsBlank | frontend/src/Pages/Products.jsx:41-42 | lowercasing neither creates nor removes whitespace |
| Text.NormalizeEmptyIffBlank | frontend/src/Pages/Products.jsx:41-48 | the lowercased, trimmed criterion is empty exactly for blank input |
| Text.TrimOfTrimmed | frontend/src/Pages/Products.jsx:41-42 | a string with no whitespace at either end is its own trim |
| Text.ContainsSelf | frontend/src/Pages/Products.jsx:45 | every string includes itself |
| Text.ContainsHasChars | frontend/src/Pages/Products.jsx:45 | every character of an included string occurs in the including one |
| Text.SameLowerSameLetter | frontend/src/Pages/Products.jsx:45 | two characters with the same lowercase form are equal or are the two cases of one letter |
| Text.LowerMissing | frontend/src/Pages/Products.jsx:45 | when neither case of one of the filter's characters occurs in the category, the lowercase substring test fails |
| Seqs.Filter | frontend/src/Pages/Products.jsx:45-52 | the result is no longer than the input and holds only input elements that pass the test |
| Seqs.FilterAppend | frontend/src/Pages/Products.jsx:44-53 | filtering distributes over concatenation, so kept elements keep their order |
| Seqs.FilterCount | frontend/src/Pages/Products.jsx:44-53 | a kept element occurs as often as in the input, a rejected one never |
| Seqs.FilterKeepsAll | frontend/src/Pages/Products.jsx:44-53 | nothing is dropped when every element passes |
| Seqs.FilterCommute | frontend/src/Pages/Products.jsx:44-53 | the two filters can be applied in either order |
| PriceSort.ClassAppend | frontend/src/Pages/Products.jsx:55 | the products of one price in a concatenation are those of the two parts, in order |
| PriceSort.ClassOfCons | frontend/src/Pages/Products.jsx:55 | the products of one price in a non-empty list are its head (if of that price) followed by those of its tail |
| PriceSort.Insert | frontend/src/Pages/Products.jsx:55 | definition: a product placed after every element that does not strictly follow it under the comparator; properties in `InsertPermutes`, `InsertSorted`, `InsertClasses` |
| PriceSort.SortByPrice | frontend/src/Pages/Products.jsx:55 | definition: the stable insertion sort; ordered, a permutation and stable by the lemmas below, and equal to any such sort by `StableSortIsSortByPrice` |
| PriceSort.InsertPermutes | frontend/src/Pages/Products.jsx:55 | insertion adds exactly the inserted product |
| PriceSort.InsertSorted | frontend/src/Pages/Products.jsx:55 | insertion into an ordered list keeps it ordered |
| PriceSort.InsertClasses | frontend/src/Pages/Products.jsx:55 | insertion puts the new product after every product of its price |
| PriceSort.SortByPriceSorted | frontend/src/Pages/Products.jsx:55 | the sorted list is ordered by the comparator: ascending for `asc`, descending otherwise |
| PriceSort.SortByPricePermutes | frontend/src/Pages/Products.jsx:55 | the sorted list is a permutation of the input |
| PriceSort.SortByPriceStable | frontend/src/Pages/Products.jsx:55 | for every price, the products of that price keep their input order |
| PriceSort.SortByPriceStableAt | frontend/src/Pages/Products.jsx:55 | the same for one given price |
| PriceSort.SameClassesBothEmpty | frontend/src/Pages/Products.jsx:55 | lists with the same products per price are both empty or both non-empty |
| PriceSort.SameHead | frontend/src/Pages/Products.jsx:55 | two ordered lists with the same products per price start with the same product |
| PriceSort.SameClassesTail | frontend/src/Pages/Products.jsx:55 | after dropping a common head, the same products per price remain |
| PriceSort.SortedStableUnique | frontend/src/Pages/Products.jsx:55 | ordered and stable determine the list: two such lists are equal |
| PriceSort.StableSortIsSortByPrice | frontend/src/Pages/Products.jsx:55 | any ordered, stable rearrangement, the engine's own sort included, equals the model's sort |
| PriceSort.InsertShift | frontend/src/Pages/Products.jsx:55 | one step of the in-place insertion moves the new product past a larger neighbour |
| PriceSort.InsertStop | frontend/src/Pages/Products.jsx:55 | the in-place insertion stops where the specification inserts |
| PriceSort.InsertAt | frontend/src/Pages/Products.jsx:55 | after the shifting loop, the array prefix is the specification's insertion and the rest is unchanged |
| PriceSort.SortInPlace | frontend/src/Pages/Products.jsx:55 | the array ends up holding the stable price sort of its old contents |
| Query.Selected | frontend/src/Pages/Products.jsx:44-53 | definition: a product passes the active category criterion and the active search criterion |
| Query.Matching | frontend/src/Pages/Products.jsx:40-53 | definition: the category filter and then the search filter, in source order; its contents are fixed by `VisibleCount` |
| Query.Visible | frontend/src/Pages/Products.jsx:40-56 | definition: `Matching` stably sorted by price; its contents, order and stability are stated by the lemmas below |
| Query.FilterProducts | frontend/src/Pages/Products.jsx:40-53 | the category filter and then the search filter on the normalised criteria give `Matching` |
| Query.FilterAndSort | frontend/src/Pages/Products.jsx:39-57 | the effect's result is `Visible`: the matching products, stably sorted by price |
| Query.VisibleCount | frontend/src/Pages/Products.jsx:44-55 | each product is shown as often as it is loaded when it passes both criteria, and never otherwise |
| Query.VisibleFromSource | frontend/src/Pages/Products.jsx:40-56 | the shown list is a sub-multiset of the loaded one |
| Query.CategoryRule | frontend/src/Pages/Products.jsx:41-46 | a blank or `all categories` filter, in any case and spacing, drops nothing; otherwise every shown category contains the filter |
| Query.SearchRule | frontend/src/Pages/Products.jsx:41-53 | a blank search drops nothing; otherwise every shown product's name or category contains the term |
| Query.VisibleOrdered | frontend/src/Pages/Products.jsx:55 | prices are non-decreasing for `asc` and non-increasing for any other order |
| Query.VisibleStable | frontend/src/Pages/Products.jsx:55 | the shown products of one price are the matching ones of that price, in source order |
| ProductForm.Categories | frontend/src/components/ProductForm.jsx:7-10 | the thirteen categories the form offers, in order |
| ProductForm.Loaded | frontend/src/components/ProductForm.jsx:24-29 | definition: the form filled from a product, a falsy price 0 loading as the empty input; validity by `LoadedValidIff` |
| ProductForm.IsValid | frontend/src/components/ProductForm.jsx:38-42 | definition: the three checks pass; spelled out by `ValidIff` |
| ProductForm.Apply | frontend/src/components/ProductForm.jsx:58-59 | the targeted field takes the new value and every other field is unchanged |
| ProductForm.ValidIff | frontend/src/components/ProductForm.jsx:36-43 | valid exactly when the name has a non-whitespace character, the price is present and positive, and a category is chosen |
| ProductForm.LoadedValidIff | frontend/src/components/ProductForm.jsx:22-43 | a product loads into a valid form exactly when its name is not blank, its price is positive and its category is set |
| ProductForm.CollectErrors | frontend/src/components/ProductForm.jsx:37-40 | one entry per failing check with its message, no entry for the description, and an empty map exactly when the form is valid |
| ProductForm.EmptyErrors | frontend/src/components/ProductForm.jsx:42 | an error map has no keys exactly when it has no entry for any of the four fields |
| ProductForm.Form.constructor | frontend/src/components/ProductForm.jsx:13-20 | empty fields, no errors, not submitting |
| ProductForm.Form.Reset | frontend/src/components/ProductForm.jsx:22-34 | the fields are loaded from the product (a zero price loads as empty) or blanked, and the errors are cleared |
| ProductForm.Form.ValidateForm | frontend/src/components/ProductForm.jsx:36-43 | one error per failing check with its message and no other entry; the result is true exactly when the form is valid and the error map is empty |
| ProductForm.Form.HandleSubmit | frontend/src/components/ProductForm.jsx:45-56 | a payload is sent exactly when the form is valid; it carries the product's id or none, the fields and the numeric price; the error map holds each failed field with its message and nothing else; the submit flag is down afterwards |
| ProductForm.Form.HandleInputChange | frontend/src/components/ProductForm.jsx:58-61 | only the edited field changes and only its error is cleared |
| SearchAndSort.FilterCategories | frontend/src/components/SearchAndSort.jsx:14-17 | the ten filter choices: the sentinel `All Categories`, then nine form categories |
| SearchAndSort.ToggleSortOrder | frontend/src/components/SearchAndSort.jsx:52 | the result is `asc` or `desc`, and it is `asc` exactly when the input is not |
| SearchAndSort.ToggleTwice | frontend/src/components/SearchAndSort.jsx:52 | toggling twice restores `asc` and `desc` |
| SearchAndSort.ChoiceNormalForm | frontend/src/components/SearchAndSort.jsx:14-17 | each choice is its own trim; only the sentinel switches the page's category criterion off; every other choice is also a form category |
| SearchAndSort.Separates | frontend/src/components/SearchAndSort.jsx:14-17 | a choice with a letter missing, in both cases, from a category is not contained in it |
| SearchAndSort.DistinctCategoriesSeparate | frontend/src/components/SearchAndSort.jsx:14-17 | no filter choice is contained, ignoring case, in a different form category |
| SearchAndSort.SeparateFromElectronics | frontend/src/components/SearchAndSort.jsx:15 | `Electronics` is contained in no other form category |
| SearchAndSort.SeparateFromClothing | frontend/src/components/SearchAndSort.jsx:15 | `Clothing` is contained in no other form category |
| SearchAndSort.SeparateFromBooks | frontend/src/components/SearchAndSort.jsx:15 | `Books` is contained in no other form category |
| SearchAndSort.SeparateFromHomeGarden | frontend/src/components/SearchAndSort.jsx:16 | `Home & Garden` is contained in no other form category |
| SearchAndSort.SeparateFromSports | frontend/src/components/SearchAndSort.jsx:16 | `Sports` is contained in no other form category |
| SearchAndSort.SeparateFromBeauty | frontend/src/components/SearchAndSort.jsx:16 | `Beauty` is contained in no other form category |
| SearchAndSort.SeparateFromToys | frontend/src/components/SearchAndSort.jsx:16 | `Toys` is contained in no other form category |
| SearchAndSort.SeparateFromAutomotive | frontend/src/components/SearchAndSort.jsx:16 | `Automotive` is contained in no other form category |
| SearchAndSort.SeparateFromOther | frontend/src/components/SearchAndSort.jsx:16 | `Other` is contained in no other form category |
| SearchAndSort.ChoiceMatchesExactly | frontend/src/components/SearchAndSort.jsx:14-17 | for a product with a form category, the page's substring test with a filter choice holds exactly when the category equals the choice |
| Api.SendsCategory | frontend/src/services/api.js:70 | definition: the category is non-empty and not exactly `All Categories`; compared with the page's test by the lemmas below |
| Api.Search | frontend/src/services/api.js:67-76 | only the four keys occur; each is present exactly when its argument is non-empty (the category also not exactly `All Categories`); values pass through unchanged |
| Api.SearchTermOnly | frontend/src/services/api.js:67 | with the defaults, the request sorts by ascending price and carries the term when non-empty |
| Api.PageFilterImpliesSent | frontend/src/services/api.js:70 | whenever the page filters by a category, the builder would send it |
| Api.ChecksAgreeOnChoices | frontend/src/services/api.js:70 | on the criteria bar's choices, the builder's exact test and the page's normalised test agree |
| Api.BlankCategoryDiffers | frontend/src/services/api.js:70 | a non-empty blank category is sent although the page does not filter by it |
| Api.SentinelInOtherCaseDiffers | frontend/src/services/api.js:70 | the sentinel in another case is sent although the page does not filter by it |
| Api.KeyIsTrimmed | frontend/src/Pages/Products.jsx:44 | the lowercase sentinel `all categories` is its own trim, stated on the constant |
| ProductsPage.Without | frontend/src/Pages/Products.jsx:79 | definition: the list without the products whose id is the deleted one, in their order; properties in `WithoutCount`, `WithoutAppend`, `WithoutUnknownId` |
| ProductsPage.WithoutCount | frontend/src/Pages/Products.jsx:79 | a delete removes every product with the id and keeps every other product as often as before |
| ProductsPage.WithoutAppend | frontend/src/Pages/Products.jsx:79 | a delete keeps the remaining products in order |
| ProductsPage.WithoutUnknownId | frontend/src/Pages/Products.jsx:79 | deleting an id no product carries changes nothing |
| ProductsPage.DeletedNeverVisible | frontend/src/Pages/Products.jsx:76-84 | after a delete, no shown product carries the id, whatever the criteria |
| ProductsPage.DeleteKeepsOthersVisible | frontend/src/Pages/Products.jsx:76-84 | a delete leaves every product with another id shown exactly as often as before |
| ProductsPage.Page.constructor | frontend/src/Pages/Products.jsx:11-19 | the initial state: empty lists, loading, dialog closed, no banner, `All Categories`, `asc` |
| ProductsPage.Page.Refresh | frontend/src/Pages/Products.jsx:39-57 | the shown list becomes `Visible` of the loaded list and criteria; nothing else changes |
| ProductsPage.Page.LoadProducts | frontend/src/Pages/Products.jsx:22-36 | the list is the answer's data or empty, or unchanged with the load banner on failure; loading ends; the view is in sync |
| ProductsPage.Page.SetSearchTerm | frontend/src/Pages/Products.jsx:162 | the term changes and the view is recomputed |
| ProductsPage.Page.SetSortOrder | frontend/src/Pages/Products.jsx:164 | the order changes and the view is recomputed |
| ProductsPage.Page.SetCategoryFilter | frontend/src/Pages/Products.jsx:166 | the filter changes and the view is recomputed |
| ProductsPage.Page.HandleSaveProduct | frontend/src/Pages/Products.jsx:59-74 | update exactly when a product is being edited; a failed write only raises the banner; a successful one closes the dialog and installs the refetched list (or empty), or raises the banner if the refetch fails |
| ProductsPage.Page.HandleDeleteProduct | frontend/src/Pages/Products.jsx:76-84 | on success the id is filtered out and the view recomputed; on failure the list is unchanged and the banner is raised |
| ProductsPage.Page.HandleEditProduct | frontend/src/Pages/Products.jsx:86-89 | the dialog opens on the product; the data is unchanged |
| ProductsPage.Page.HandleAddProduct | frontend/src/Pages/Products.jsx:91-94 | the dialog opens on no product; the data is unchanged |
| ProductsPage.Page.CancelForm | frontend/src/Pages/Products.jsx:223-226 | the dialog closes and the edited product is forgotten |
| ProductsPage.Page.DismissError | frontend/src/Pages/Products.jsx:151 | the banner is cleared and nothing else changes |
| Scenario.SortedPair | frontend/src/Pages/Products.jsx:55 | of two products, the cheaper comes first in ascending order |
| Scenario.FilterFirst | frontend/src/Pages/Products.jsx:45 | a filter that keeps only the first of two products yields it alone |
| Scenario.FilterSecond | frontend/src/Pages/Products.jsx:49-52 | a filter that keeps only the second of two products yields it alone |
| Scenario.SortedSingle | frontend/src/Pages/Products.jsx:55 | one product sorts to itself |
| Scenario.AllCategoriesAscending | frontend/src/Pages/Products.jsx:39-57 | book (50) and desk (20) under `All Categories`, no term, `asc`: desk then book |
| Scenario.CategoryPicksFirst | frontend/src/Pages/Products.jsx:44-46 | an active category that only the first product is in shows that product alone |
| Scenario.SearchPicksSecond | frontend/src/Pages/Products.jsx:48-53 | a term only the second product matches shows that product alone |
| Scenario.ChoicePicksFirst | frontend/src/Pages/Products.jsx:44-46 | a filter choice shows the product of exactly that category and drops one of another form category |
| Scenario.BooksOnly | frontend/src/Pages/Products.jsx:39-57 | the same catalog filtered to `Books`: the book alone |
| Scenario.SearchDesk | frontend/src/Pages/Products.jsx:39-57 | the same catalog searched for `desk`: the desk alone |
| Scenario.DeskInName | frontend/src/Pages/Products.jsx:50 | `zen desk` contains `desk` |
| Scenario.DeskKey | frontend/src/Pages/Products.jsx:41 | `desk` is its own normal form |

## Left out

- Network I/O is not modelled:
  - the axios instance and its interceptors;
  - `getAll`, `getById`, `create`, `update` and `delete`;
  - the request `productAPI.search` issues.
  Each handler receives its request's outcome as a parameter instead.
- The backend server and its routes. The routes are not part of this model.
- React effect scheduling and the ordering of overlapping asynchronous requests. Each handler runs to completion as one step.
- `console.log` and `console.error` calls.
- Rendering:
  - the loading screen and the product count;
  - the empty-state messages;
  - the animations;
  - `ProductCard` and the `ui` components.
- `login.jsx`, `Home.jsx`, `Layout.jsx` and `App.js`.
- Text.Lower: only ASCII letters are lowercased. JavaScript's `toLowerCase` also maps other Unicode letters.
- ProductForm.Form.HandleSubmit:
  - `parseFloat` and JavaScript's string-to-number coercion are not modelled.
  - The price field is an already parsed optional number, so a non-numeric entry (which `parseFloat` turns into `NaN`) is not represented.
  - An exception thrown by `onSave` is assumed to leave no trace other than the submit flag going down. The page's save handler catches all its own errors.
- ProductForm.Form.HandleInputChange: the source sets a cleared error to `null`. The model removes the key. Every reader of the error map tests truthiness, so the two are indistinguishable.
- ProductForm.Form.Reset: the form turns a missing product field into the empty string. Product records here always carry every field, so that default is not exercised.
- ProductsPage.Page: products here always carry every field, so three failures of the page are not represented:
  - a product without a `category` makes the category filter throw (`Products.jsx` line 45);
  - a product without a `name` makes the search filter throw whenever the term is not blank (line 50);
  - a product without a `price` makes the comparator return `NaN` (line 55).
- Prices are exact reals. Floating-point rounding of the comparator's subtraction is not modelled.
