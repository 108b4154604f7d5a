/** The state of the `App` component and the handlers that update it.
    Network replies and the stored token are inputs; rendering is reduced
    to the two values a render computes: the listed items and the number
    of page buttons. */
module Component {
  import opened Catalog
  import opened Paging
  import opened CatalogView

  datatype Option<T> = None | Some(value: T)

  /** `response.data` of the login call: an object whose `token` field may be
      missing, or `null`/`undefined`, on which reading `.token` throws. */
  datatype LoginData = LoginObject(token: Option<string>) | NoLoginData

  /** Outcome of `axios.post(".../auth/login")`: a reply, or a rejection
      (non-2xx status or transport failure). */
  datatype AuthResponse = AuthReplied(data: LoginData) | AuthRejected

  /** `response.data` of the product listing: a bare array, an object whose
      `products` field is an array or is missing/falsy, or anything else. */
  datatype CatalogData = ArrayData(items: seq<Product>)
                       | ObjectData(products: Option<seq<Product>>)
                       | OtherData

  /** Outcome of `axios.get(".../products")`. */
  datatype FetchResponse = FetchReplied(data: CatalogData) | FetchRejected

  /** The message shown after any failed login. */
  const InvalidLogin: string := "Invalid email or password"

  /** The `toggleSortOrder` updater: "asc" becomes "desc", anything else "asc". */
  function ToggledOrder(order: string): (r: string)
    ensures r == "asc" || r == "desc"
    ensures r == "desc" <==> order == "asc"
  {
    if order == "asc" then "desc" else "asc"
  }

  /** Toggling twice restores either of the two orders the component uses. */
  lemma ToggleTwice(order: string)
    requires order == "asc" || order == "desc"
    ensures ToggledOrder(ToggledOrder(order)) == order
  {
  }

  /** The fetch-shape rule of lines 27-33: the list the reply supplies, if any.
      An array is taken as it is, else a truthy `products` field; any other
      shape and any rejection supply nothing. */
  function FetchedProducts(response: FetchResponse): (r: Option<seq<Product>>)
    ensures r.Some? <==> (response.FetchReplied? && (response.data.ArrayData? ||
                          (response.data.ObjectData? && response.data.products.Some?)))
    ensures response.FetchReplied? && response.data.ArrayData? ==> r == Some(response.data.items)
    ensures response.FetchReplied? && response.data.ObjectData? && response.data.products.Some?
            ==> r == response.data.products
  {
    match response
    case FetchRejected => None
    case FetchReplied(ArrayData(items)) => Some(items)
    case FetchReplied(ObjectData(Some(items))) => Some(items)
    case FetchReplied(ObjectData(None)) => None
    case FetchReplied(OtherData) => None
  }

  /** What `localStorage.setItem("token", token)` stores: the string form of
      the value, so a reply without a token field stores "undefined". */
  function StoredForm(token: Option<string>): string
  {
    match token
    case Some(t) => t
    case None => "undefined"
  }

  /** `if (token)` on the result of `localStorage.getItem("token")`: a
      missing entry and the empty string are both false. */
  predicate Truthy(stored: Option<string>)
  {
    stored.Some? && stored.value != ""
  }

  class App {
    var loggedIn: bool
    var error: string
    var products: seq<Product>
    var currentPage: int
    var searchQuery: string
    var sortOrder: string
    /** The `"token"` entry of `localStorage`. */
    var storedToken: Option<string>

    /** Pages are numbered from 1; the order is one of the two the updater
        produces; a logged-in session has a stored token; a logged-out one
        holds no products. */
    ghost predicate Valid()
      reads this
    {
      && currentPage >= 1
      && (sortOrder == "asc" || sortOrder == "desc")
      && (loggedIn ==> storedToken.Some?)
      && (!loggedIn ==> products == [])
    }

    /** The initial `useState` values (lines 7-13); `stored` is whatever
        `localStorage` holds when the page loads. */
    constructor(stored: Option<string>)
      ensures Valid()
      ensures !loggedIn && error == "" && products == [] && currentPage == 1
      ensures searchQuery == "" && sortOrder == "asc" && storedToken == stored
    {
      loggedIn := false;
      error := "";
      products := [];
      currentPage := 1;
      searchQuery := "";
      sortOrder := "asc";
      storedToken := stored;
    }

    /** `fetchProducts`: an accepted reply replaces the whole product list;
        any other reply leaves it as it was. */
    method FetchProducts(response: FetchResponse)
      requires Valid() && loggedIn
      modifies this`products
      ensures Valid()
      ensures FetchedProducts(response).Some? ==> products == FetchedProducts(response).value
      ensures FetchedProducts(response).None? ==> products == old(products)
    {
      match response {
        case FetchRejected =>
        case FetchReplied(data) =>
          if data.ArrayData? {
            products := data.items;
          } else if data.ObjectData? && data.products.Some? {
            products := data.products.value;
          }
      }
    }

    /** The mount effect (lines 15-21): a truthy stored token logs the user
        in, without checking it, and fetches the products. */
    method Restore(catalog: FetchResponse)
      requires Valid()
      modifies this`loggedIn, this`products
      ensures Valid()
      ensures Truthy(storedToken) ==> loggedIn
      ensures Truthy(storedToken) && FetchedProducts(catalog).Some? ==> products == FetchedProducts(catalog).value
      ensures Truthy(storedToken) && FetchedProducts(catalog).None? ==> products == old(products)
      ensures !Truthy(storedToken) ==> loggedIn == old(loggedIn) && products == old(products)
    {
      if Truthy(storedToken) {
        loggedIn := true;
        FetchProducts(catalog);
      }
    }

    /** `handleLogin`: a reply whose data is an object stores its token, logs
        the user in and fetches the products (`catalog` is that fetch's
        reply). A rejection, or a reply without data (reading `.token`
        throws), only sets the error message. A success leaves an earlier
        error message in place. */
    method HandleLogin(auth: AuthResponse, catalog: FetchResponse)
      requires Valid()
      modifies this`storedToken, this`loggedIn, this`error, this`products
      ensures Valid()
      ensures auth.AuthReplied? && auth.data.LoginObject? ==>
                && storedToken == Some(StoredForm(auth.data.token))
                && loggedIn
                && error == old(error)
                && (FetchedProducts(catalog).Some? ==> products == FetchedProducts(catalog).value)
                && (FetchedProducts(catalog).None? ==> products == old(products))
      ensures !(auth.AuthReplied? && auth.data.LoginObject?) ==>
                && error == InvalidLogin
                && storedToken == old(storedToken)
                && loggedIn == old(loggedIn)
                && products == old(products)
    {
      if auth.AuthReplied? && auth.data.LoginObject? {
        var token := auth.data.token;
        storedToken := Some(StoredForm(token));
        loggedIn := true;
        FetchProducts(catalog);
      } else {
        error := InvalidLogin;
      }
    }

    /** `handleLogout`: forgets the token, logs out and empties the list. */
    method HandleLogout()
      requires Valid()
      modifies this`storedToken, this`loggedIn, this`products
      ensures Valid()
      ensures storedToken == None && !loggedIn && products == []
    {
      storedToken := None;
      loggedIn := false;
      products := [];
    }

    /** `toggleSortOrder`. */
    method ToggleSortOrder()
      requires Valid()
      modifies this`sortOrder
      ensures Valid()
      ensures sortOrder == ToggledOrder(old(sortOrder))
      ensures sortOrder != old(sortOrder)
    {
      sortOrder := ToggledOrder(sortOrder);
    }

    /** Typing in the search box (line 112): the query changes, the page does not. */
    method SetSearchQuery(text: string)
      requires Valid()
      modifies this`searchQuery
      ensures Valid()
      ensures searchQuery == text
    {
      searchQuery := text;
    }

    /** The Search button (line 116): back to the first page. */
    method Search()
      requires Valid()
      modifies this`currentPage
      ensures Valid()
      ensures currentPage == 1
    {
      currentPage := 1;
    }

    /** The page button at position `index` (line 143). */
    method SelectPage(index: nat)
      requires Valid()
      modifies this`currentPage
      ensures Valid()
      ensures currentPage == index + 1
    {
      currentPage := index + 1;
    }

    /** `filterAndSortProducts`. With an empty query the list being sorted is
        the `products` state array itself, so the stored list ends up sorted
        too; otherwise the sort works on the filtered copy. */
    method FilterAndSortProducts() returns (r: seq<Product>)
      requires Valid()
      modifies this`products
      ensures Valid()
      ensures r == FilterAndSort(old(products), searchQuery, sortOrder)
      ensures products == if searchQuery == "" then r else old(products)
    {
      var filtered := products;
      if searchQuery != "" {
        filtered := KeepMatching(filtered, searchQuery);
      }
      var a := new Product[|filtered|](i requires 0 <= i < |filtered| => filtered[i]);
      assert a[..] == filtered;
      SortInPlace(a, sortOrder);
      r := a[..];
      if searchQuery == "" {
        products := r;
      }
    }

    /** `sliceProducts`: the current page of the filtered, sorted list. */
    method SliceProducts() returns (r: seq<Product>)
      requires Valid()
      modifies this`products
      ensures Valid()
      ensures r == View(old(products), searchQuery, sortOrder, currentPage)
      ensures products == if searchQuery == "" then FilterAndSort(old(products), searchQuery, sortOrder)
                          else old(products)
    {
      var indexOfLastItem := currentPage * ItemsPerPage;
      var indexOfFirstItem := indexOfLastItem - ItemsPerPage;
      var all := FilterAndSortProducts();
      r := JsSlice(all, indexOfFirstItem, indexOfLastItem);
      assert r == PageOf(all, currentPage);
    }

    /** One render of the logged-in view: the listed items (line 130), then
        the number of page buttons (line 137), each computed by its own call
        to `filterAndSortProducts`. Logged out, neither is rendered. */
    method Render() returns (items: seq<Product>, buttons: nat)
      requires Valid()
      modifies this`products
      ensures Valid()
      ensures loggedIn ==> items == View(old(products), searchQuery, sortOrder, currentPage)
      ensures loggedIn ==> buttons == PageCount(|FilterAndSort(old(products), searchQuery, sortOrder)|)
      ensures loggedIn ==> forall page :: 1 <= page <= buttons ==>
                PageOf(FilterAndSort(old(products), searchQuery, sortOrder), page) != []
      ensures loggedIn ==> products == if searchQuery == "" then FilterAndSort(old(products), searchQuery, sortOrder)
                                       else old(products)
      ensures !loggedIn ==> items == [] && buttons == 0 && products == old(products)
    {
      if loggedIn {
        items := SliceProducts();
        var all := FilterAndSortProducts();
        buttons := PageCount(|all|);
        StoredSortUnobservable(old(products), sortOrder, searchQuery, sortOrder);
        assert all == FilterAndSort(old(products), searchQuery, sortOrder);
        forall page | 1 <= page <= buttons
          ensures PageOf(FilterAndSort(old(products), searchQuery, sortOrder), page) != []
        {
          PageNonEmptyIffButton(all, page);
        }
      } else {
        items, buttons := [], 0;
      }
    }
  }
}
