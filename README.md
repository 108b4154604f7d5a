# Product catalog view — a Dafny model

This project models the logic of the single React component `App` in
`src/App.js`: a user logs in against a remote authentication endpoint, the
component fetches a product list, and the logged-in view lists that list
filtered by a search query, sorted by price and cut into pages of five.

The model has five modules:

- `Text` (`text.dfy`): ASCII lower-casing (`toLowerCase`) and substring search
  (`includes`). The search is specified by "there is an index where the
  pattern occurs".
- `Catalog` (`catalog.dfy`): the `Product` record and the filter
  callback. It also holds the stable sort by price. That sort is specified by
  "sorted", "a permutation" and "each price's products keep their relative
  order", and is proved to be the only list with those properties. An
  in-place insertion sort on an `array` mirrors `Array.prototype.sort`; it is
  proved equal to the sort function.
- `Paging` (`paging.dfy`): `Array.prototype.slice` with its index
  resolution, the five-item page window of `sliceProducts`, and the
  `Math.ceil` page-button count.
- `CatalogView` (`view.dfy`): `filterAndSortProducts` and `sliceProducts` as
  pure functions of the product list, query, sort order and page. It proves
  that the in-place sort of the stored list (done when the query is empty)
  never changes what a later render shows. It also holds concrete scenarios.
- `Component` (`app.dfy`): the class `App`, whose fields are the component's
  state (`loggedIn`, `error`, `products`, `currentPage`, `searchQuery`,
  `sortOrder`) plus the `"token"` entry of `localStorage`. Its methods are the
  handlers. Network replies are input values. `Valid()` is the invariant every
  handler keeps: the page is at least 1, the order is "asc" or "desc", a
  logged-in session has a stored token, and a logged-out one holds no products.

Where the code and the design description of the system differ, the model
follows the code:

- Registration only shows an alert. It does not call the registration
  endpoint.
- The mount effect restores the session only for a *truthy* stored token, so
  a stored empty string does not log the user in.
- A login reply whose data lacks a `token` field still logs the user in, and
  stores the string "undefined".
- A login reply whose data is `null` or `undefined` fails like a rejected
  request, because reading `.token` on it throws.
- A successful login does not clear an earlier error message.
- The sort order is a string. Any value other than "asc" sorts descending, and
  toggling maps anything other than "asc" to "asc".
- Typing in the search box does not reset the page; only the Search button
  does.

## Model

| member | source | states |
|---|---|---|
| `Text.Lower` | src/App.js:74-78 | the lower-cased string has the same length and each character is the ASCII fold of the original one |
| `Text.LowerIdempotent` | src/App.js:74-78 | lower-casing an already lower-cased string changes nothing |
| `Text.Contains` | src/App.js:77-78 | `includes` holds exactly when the pattern occurs at some index of the text |
| `Catalog.KeepMatching` | src/App.js:75-79 | the filter keeps exactly the products whose lower-cased title or description contains the lower-cased query, and keeps them in their original relative order (a subsequence) |
| `Catalog.FilterProducts` | src/App.js:71-80 | an empty query returns the product list itself; a non-empty one keeps a product iff it matches, so a dropped product matches in neither title nor description; the result is always an order-preserving subsequence |
| `Catalog.KeepMatchingCounts` | src/App.js:75-79 | each matching product is kept as many times as it occurs; a non-matching one is not kept at all |
| `Catalog.KeepMatchingEmptyQuery` | src/App.js:73 | filtering with the empty query would keep every product, so the `if (searchQuery)` guard only decides whether the stored array itself is sorted |
| `Catalog.MatchesIgnoresQueryCase` | src/App.js:74-78 | a query and its lower-cased form select the same products |
| `Catalog.Compare` | src/App.js:82-85 | the comparator `orderFactor * (a.price - b.price)` is the difference of the price keys: price for "asc", negated price otherwise |
| `Catalog.SortedPrices` | src/App.js:82-85 | a sorted list has non-decreasing prices for "asc" and non-increasing prices for any other order |
| `Catalog.SortSorts` | src/App.js:82-85 | the sort's result is sorted by price in the requested direction |
| `Catalog.SortPermutes` | src/App.js:82-85 | the sort's result is a permutation of its input |
| `Catalog.SortStable` | src/App.js:82-85 | the sort is stable: for every price, the products of that price appear in the same relative order as in the input |
| `Catalog.StableSortUnique` | src/App.js:82-85 | two lists sorted the same way with the same per-price subsequences are equal, so a stable sort has exactly one result |
| `Catalog.SortForgetsEarlierSort` | src/App.js:82-85 | sorting a list that an earlier sort already reordered, in either direction, gives the same result as sorting the original |
| `Catalog.DescendingReversesAscending` | src/App.js:83-84 | when no two different products share a price, the descending sort is the ascending sort reversed |
| `Catalog.SortInPlace` | src/App.js:82-85 | sorting the array in place leaves in it exactly the stable sort of its old contents |
| `Paging.JsSlice` | src/App.js:93 | `slice` has length `end - start` after index resolution (0 when the end does not lie past the start) and element k is element `start + k` of the input |
| `Paging.PageOf` | src/App.js:90-94 | a page (page ≥ 1) holds at most 5 items: item k is item `(page-1)*5 + k` of the list; it is full when the list reaches `page*5`, holds the remainder when the list ends inside the window, and is empty exactly when `(page-1)*5 >= length` |
| `Paging.PageCount` | src/App.js:137 | the button count is the least n with `n*5 >= length`, which is 0 exactly for an empty list |
| `Paging.PageNonEmptyIffButton` | src/App.js:137-145 | a page has items exactly when a button for it is rendered |
| `Paging.PagesArePrefix` | src/App.js:90-94 | pages 1..k concatenated are the first `5k` items (or the whole list) |
| `Paging.PagesCoverAll` | src/App.js:137 | concatenating the pages of all rendered buttons gives back the whole list |
| `CatalogView.FilterAndSort` | src/App.js:70-88 | the result is sorted by price, is a permutation of the filtered list, keeps the relative order of equal-price products, is a permutation of all products for an empty query, and holds exactly the matching products otherwise |
| `CatalogView.View` | src/App.js:90-94 | the listed page (page ≥ 1) has at most 5 items, all taken from the products, in sorted order |
| `CatalogView.StoredSortUnobservable` | src/App.js:70-88 | after the stored products were sorted in place by an earlier render, every filter-and-sort gives the same result as on the original list |
| `CatalogView.AnyStableSortAgrees` | src/App.js:82-85 | any list that is sorted by price and keeps each price's filtered products in order equals `FilterAndSort`, whatever stable algorithm produced it |
| `CatalogView.EmptyCatalog` | src/App.js:70-94 | with no products the sorted list, the button count and every page are empty |
| `CatalogView.ButtonsCoverView` | src/App.js:129-147 | the pages behind the rendered buttons list every filtered, sorted product once, in order |
| `CatalogView.ScenarioAscending` | src/App.js:70-94 | the phone (500), case (10) and charger (20) are listed case, charger, phone on page 1; page 2 is empty; one button |
| `CatalogView.ScenarioDescending` | src/App.js:70-94 | the same catalog in descending order is listed phone, charger, case |
| `CatalogView.ScenarioSearch` | src/App.js:70-94 | the query "phone" keeps only the product titled "Phone"; one button; page 2 is empty |
| `Component.ToggledOrder` | src/App.js:66-68 | the updater always yields "asc" or "desc", and yields "desc" exactly when the order was "asc" |
| `Component.ToggleTwice` | src/App.js:66-68 | toggling twice from "asc" or "desc" restores the order |
| `Component.FetchedProducts` | src/App.js:27-33 | a reply supplies a product list iff its data is an array or an object with a truthy `products` field; the array wins; rejections and other shapes supply nothing |
| `Component.App.constructor` | src/App.js:5-13 | the initial state: logged out, no error, no products, page 1, empty query, order "asc" |
| `Component.App.FetchProducts` | src/App.js:23-37 | an accepted reply replaces the whole product list; any other reply leaves it unchanged; nothing else changes |
| `Component.App.Restore` | src/App.js:15-21 | a truthy stored token logs the user in without validation and applies the fetch; otherwise nothing changes |
| `Component.App.HandleLogin` | src/App.js:43-58 | success stores the token (or "undefined"), logs in and applies the fetch, keeping the error text; failure sets the error to "Invalid email or password" and leaves the login flag, token and products unchanged |
| `Component.App.HandleLogout` | src/App.js:60-64 | the token is removed, the user is logged out and the products are emptied; query, order, page and error are untouched |
| `Component.App.ToggleSortOrder` | src/App.js:66-68 | the order becomes the toggled order, which differs from the old one |
| `Component.App.SetSearchQuery` | src/App.js:111-112 | typing sets the query and nothing else, not even the page |
| `Component.App.Search` | src/App.js:114-117 | the Search button sets the page to 1 and nothing else |
| `Component.App.SelectPage` | src/App.js:137-145 | the button at position i selects page i+1 |
| `Component.App.FilterAndSortProducts` | src/App.js:70-88 | returns the filter-and-sort of the stored products; with an empty query the stored list itself becomes that sorted list, otherwise it is unchanged |
| `Component.App.SliceProducts` | src/App.js:90-94 | returns the current page of the filtered, sorted products, with the same side effect on the stored list |
| `Component.App.Render` | src/App.js:129-147 | logged in, a render lists the current page and shows `ceil(n/5)` buttons, each for a non-empty page, computed as if from the products held before the render; with an empty query the stored list becomes the sorted list, otherwise it is unchanged; logged out it lists nothing and changes nothing |

## Left out

- The HTTP calls to the login and product endpoints are not modelled. Their
  outcome is an input value (`AuthResponse`, `FetchResponse`).
- `localStorage` is modelled as the field `storedToken`.
- The async interleaving of login and the fetch it starts is not modelled. The
  fetch's reply is applied right after the login, so a fetch that completes
  after a logout is not covered. That sequencing is also why
  `Component.App.FetchProducts` requires a logged-in session.
- React's re-render scheduling and the once-only run of the mount effect are
  not modelled. `Restore` and `Render` are plain method calls.
- JSX markup, CSS classes, `alert` and `console.error` are left out. They are
  presentation and logging only.
- `handleRegistration` is left out. It only shows an alert.
- The email and password inputs are left out. They only feed the login
  request body, which is not modelled.
- Prices are integers. Floating-point prices and the `NaN` a non-numeric price
  gives the comparator are not modelled.
- `toLowerCase` is modelled for ASCII only. Unicode case mapping is not
  modelled.
- Products whose title or description is not a string are not modelled. The
  source throws on those.
- An envelope whose `products` field is truthy but not an array is not
  modelled; the source would store it as is.
- The engine's concrete sort algorithm is not modelled. It is replaced by a
  stable insertion sort. `CatalogView.AnyStableSortAgrees` shows every stable
  sort gives the same result.
- Page numbers below 1 never occur in the component. Their results follow
  `slice`'s negative-index rule, and no property is stated about them.
