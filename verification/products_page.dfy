/**
 * The product page of `frontend/src/Pages/Products.jsx` as a state machine: the loaded
 * list, the displayed list, the criteria, the dialog state and the error banner, with the
 * handlers that change them. The repository is not modelled: each handler receives the
 * outcome of its request (success with the answer, or failure) as a parameter.
 */
module ProductsPage {
  import opened Catalog
  import Seqs
  import Query
  import ProductForm
  import SearchAndSort

  const LoadFailed := "Failed to load products. Please try again."
  const SaveFailed := "Failed to save product. Please try again."
  const DeleteFailed := "Failed to delete product. Please try again."

  /** The outcome of `getAll`: an answer whose `data` may be missing, or a failure. */
  datatype Fetch = Fetched(data: Option<seq<Product>>) | FetchFailed

  /** The write a save issues: an update of the edited product, or a creation. */
  datatype Write = Update(id: string, data: ProductForm.Payload) | Create(data: ProductForm.Payload)

  function OtherId(id: string): Product -> bool {
    (p: Product) => p.id != id
  }

  /** The delete's list update (line 79): keep the products whose id differs from the deleted one. */
  function Without(s: seq<Product>, id: string): seq<Product> {
    Seqs.Filter(s, OtherId(id))
  }

  /** Deleting an id removes every product with it and keeps every other product as often as before. */
  lemma WithoutCount(s: seq<Product>, id: string, p: Product)
    ensures multiset(Without(s, id))[p] == if p.id == id then 0 else multiset(s)[p]
  {
    Seqs.FilterCount(s, OtherId(id), p);
  }

  /** Deleting keeps the remaining products in their order: it distributes over concatenation. */
  lemma WithoutAppend(a: seq<Product>, b: seq<Product>, id: string)
    ensures Without(a + b, id) == Without(a, id) + Without(b, id)
  {
    Seqs.FilterAppend(a, b, OtherId(id));
  }

  /** Deleting an id no product carries changes nothing. */
  lemma WithoutUnknownId(s: seq<Product>, id: string)
    requires forall i :: 0 <= i < |s| ==> s[i].id != id
    ensures Without(s, id) == s
  {
    Seqs.FilterKeepsAll(s, OtherId(id));
  }

  /** After a delete, no displayed product carries the deleted id, whatever the criteria. */
  lemma DeletedNeverVisible(s: seq<Product>, id: string, searchTerm: string, categoryFilter: string, sortOrder: string)
    ensures forall p :: p in Query.Visible(Without(s, id), searchTerm, categoryFilter, sortOrder) ==> p.id != id
  {
    Query.VisibleFromSource(Without(s, id), searchTerm, categoryFilter, sortOrder);
  }

  /** A delete leaves every product with another id displayed exactly as often as before. */
  lemma DeleteKeepsOthersVisible(s: seq<Product>, id: string, searchTerm: string, categoryFilter: string, sortOrder: string, p: Product)
    requires p.id != id
    ensures multiset(Query.Visible(Without(s, id), searchTerm, categoryFilter, sortOrder))[p]
         == multiset(Query.Visible(s, searchTerm, categoryFilter, sortOrder))[p]
  {
    Query.VisibleCount(Without(s, id), searchTerm, categoryFilter, sortOrder, p);
    Query.VisibleCount(s, searchTerm, categoryFilter, sortOrder, p);
    WithoutCount(s, id, p);
  }

  class Page {
    var allProducts: seq<Product>
    var products: seq<Product>
    var loading: bool
    var showForm: bool
    var editingProduct: Option<Product>
    var searchTerm: string
    var sortOrder: string
    var categoryFilter: string
    var error: Option<string>

    /** The displayed list is the query engine's answer for the loaded list and the criteria. */
    ghost predicate Synced()
      reads this
    {
      products == Query.Visible(allProducts, searchTerm, categoryFilter, sortOrder)
    }

    /** The page's initial state, before the first load has answered. */
    constructor ()
      ensures allProducts == [] && products == []
      ensures loading && !showForm && editingProduct.None? && error.None?
      ensures searchTerm == "" && sortOrder == Query.Ascending && categoryFilter == SearchAndSort.AllCategories
      ensures Synced()
    {
      allProducts := [];
      products := [];
      loading := true;
      showForm := false;
      editingProduct := None;
      searchTerm := "";
      sortOrder := Query.Ascending;
      categoryFilter := SearchAndSort.AllCategories;
      error := None;
      new;
      assert Query.Matching([], searchTerm, categoryFilter) == [];
    }

    /** The filter-and-sort effect, run whenever the loaded list or a criterion changes. */
    method Refresh()
      modifies this
      ensures Synced()
      ensures allProducts == old(allProducts) && loading == old(loading)
      ensures showForm == old(showForm) && editingProduct == old(editingProduct)
      ensures searchTerm == old(searchTerm) && sortOrder == old(sortOrder)
      ensures categoryFilter == old(categoryFilter) && error == old(error)
    {
      products := Query.FilterAndSort(allProducts, searchTerm, categoryFilter, sortOrder);
    }

    /** The load effect: the answer's list, or an empty one when it has none; a failure sets the banner. */
    method LoadProducts(answer: Fetch)
      modifies this
      ensures allProducts == (if answer.Fetched? then answer.data.GetOr([]) else old(allProducts))
      ensures error == (if answer.Fetched? then None else Some(LoadFailed))
      ensures !loading && Synced()
      ensures showForm == old(showForm) && editingProduct == old(editingProduct)
      ensures searchTerm == old(searchTerm) && sortOrder == old(sortOrder) && categoryFilter == old(categoryFilter)
    {
      loading := true;
      error := None;
      match answer {
        case Fetched(data) =>
          allProducts := data.GetOr([]);
        case FetchFailed =>
          error := Some(LoadFailed);
      }
      loading := false;
      Refresh();
    }

    /** `onSearchChange`. */
    method SetSearchTerm(term: string)
      modifies this
      ensures searchTerm == term && Synced()
      ensures allProducts == old(allProducts) && loading == old(loading) && error == old(error)
      ensures showForm == old(showForm) && editingProduct == old(editingProduct)
      ensures sortOrder == old(sortOrder) && categoryFilter == old(categoryFilter)
    {
      searchTerm := term;
      Refresh();
    }

    /** `onCategoryFilterChange`. */
    method SetCategoryFilter(category: string)
      modifies this
      ensures categoryFilter == category && Synced()
      ensures allProducts == old(allProducts) && loading == old(loading) && error == old(error)
      ensures showForm == old(showForm) && editingProduct == old(editingProduct)
      ensures searchTerm == old(searchTerm) && sortOrder == old(sortOrder)
    {
      categoryFilter := category;
      Refresh();
    }

    /** `onSortChange`. */
    method SetSortOrder(order: string)
      modifies this
      ensures sortOrder == order && Synced()
      ensures allProducts == old(allProducts) && loading == old(loading) && error == old(error)
      ensures showForm == old(showForm) && editingProduct == old(editingProduct)
      ensures searchTerm == old(searchTerm) && categoryFilter == old(categoryFilter)
    {
      sortOrder := order;
      Refresh();
    }

    /**
     * `handleSaveProduct`: an update of the edited product when there is one, a creation
     * otherwise. `written` is the outcome of that request and `refetch` the outcome of the
     * reload that follows it. A failed write only raises the banner; a successful one closes
     * the dialog, and then the reload replaces the list or, when it fails, raises the banner
     * with the dialog already closed.
     */
    method HandleSaveProduct(productData: ProductForm.Payload, written: bool, refetch: Fetch)
      returns (request: Write)
      modifies this
      ensures request == if old(editingProduct).Some? then Update(old(editingProduct).value.id, productData)
                         else Create(productData)
      ensures !written ==> allProducts == old(allProducts) && products == old(products)
                           && showForm == old(showForm) && editingProduct == old(editingProduct)
      ensures written ==> !showForm && editingProduct.None?
      ensures written && refetch.Fetched? ==> allProducts == refetch.data.GetOr([]) && Synced()
      ensures written && refetch.FetchFailed? ==> allProducts == old(allProducts) && products == old(products)
      ensures error == if !written || refetch.FetchFailed? then Some(SaveFailed) else old(error)
      ensures loading == old(loading)
      ensures searchTerm == old(searchTerm) && sortOrder == old(sortOrder) && categoryFilter == old(categoryFilter)
    {
      if editingProduct.Some? {
        request := Update(editingProduct.value.id, productData);
      } else {
        request := Create(productData);
      }
      if !written {
        error := Some(SaveFailed);
        return;
      }
      showForm := false;
      editingProduct := None;
      match refetch {
        case Fetched(data) =>
          allProducts := data.GetOr([]);
          Refresh();
        case FetchFailed =>
          error := Some(SaveFailed);
      }
    }

    /**
     * `handleDeleteProduct`: after a successful delete every product with that id is gone
     * and the others keep their order; a failed one leaves the list and raises the banner.
     */
    method HandleDeleteProduct(productId: string, deleted: bool)
      modifies this
      ensures allProducts == if deleted then Without(old(allProducts), productId) else old(allProducts)
      ensures deleted ==> Synced() && error == old(error)
      ensures !deleted ==> products == old(products) && error == Some(DeleteFailed)
      ensures loading == old(loading) && showForm == old(showForm) && editingProduct == old(editingProduct)
      ensures searchTerm == old(searchTerm) && sortOrder == old(sortOrder) && categoryFilter == old(categoryFilter)
    {
      if deleted {
        allProducts := Without(allProducts, productId);
        Refresh();
      } else {
        error := Some(DeleteFailed);
      }
    }

    /** `handleEditProduct`: open the dialog on the given product. */
    method HandleEditProduct(product: Product)
      modifies this
      ensures editingProduct == Some(product) && showForm
      ensures allProducts == old(allProducts) && products == old(products)
      ensures loading == old(loading) && error == old(error)
      ensures searchTerm == old(searchTerm) && sortOrder == old(sortOrder) && categoryFilter == old(categoryFilter)
    {
      editingProduct := Some(product);
      showForm := true;
    }

    /** `handleAddProduct`: open the dialog on no product. */
    method HandleAddProduct()
      modifies this
      ensures editingProduct.None? && showForm
      ensures allProducts == old(allProducts) && products == old(products)
      ensures loading == old(loading) && error == old(error)
      ensures searchTerm == old(searchTerm) && sortOrder == old(sortOrder) && categoryFilter == old(categoryFilter)
    {
      editingProduct := None;
      showForm := true;
    }

    /** The dialog's `onCancel`: close it and forget the edited product. */
    method CancelForm()
      modifies this
      ensures editingProduct.None? && !showForm
      ensures allProducts == old(allProducts) && products == old(products)
      ensures loading == old(loading) && error == old(error)
      ensures searchTerm == old(searchTerm) && sortOrder == old(sortOrder) && categoryFilter == old(categoryFilter)
    {
      showForm := false;
      editingProduct := None;
    }

    /** The banner's close button. */
    method DismissError()
      modifies this
      ensures error.None?
      ensures allProducts == old(allProducts) && products == old(products)
      ensures loading == old(loading) && showForm == old(showForm) && editingProduct == old(editingProduct)
      ensures searchTerm == old(searchTerm) && sortOrder == old(sortOrder) && categoryFilter == old(categoryFilter)
    {
      error := None;
    }
  }
}
