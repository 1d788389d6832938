# Storefront model

A Dafny model of the single-page storefront in `src/App.js`. Customers sign up and log in. They browse a catalog by category, by name search and by price order. They add products to a per-user cart and check out with cash on delivery. Administrators add and delete products and mark orders delivered or cancelled. Their dashboard shows order counts, revenue, products per category and units sold per product, and they can export the orders as CSV.

The source keeps everything in the browser's local storage under five keys: `users`, `products`, `orders`, `cart_<username>` and `sessionUser`. A key that was never written reads as the empty list, or as no session. Here that state is the `Store` class (`storefront.dfy`). It has one field per key; the carts are a map from username to cart. The event handlers that rewrite a key are methods of `Store`. Each method states its whole new state and that it keeps `Store.Valid()`:

- no username twice;
- at most one line per product in every cart;
- every order's total equal to the sum over its own price snapshot.

What the handlers compute is defined by pure functions in the other modules:

| module | file | contents |
|---|---|---|
| `Domain` | `domain.dfy` | records and shared predicates |
| `Catalog` | `catalog.dfy` | lookup, deletion, category list, filter, stable sort |
| `Accounts` | `accounts.dfy` | signup and login decisions |
| `Carts` | `carts.dfy` | merge on add, remove, cart total |
| `Ledger` | `ledger.dfy` | order snapshot, status overwrite, "my orders" |
| `Dashboard` | `dashboard.dfy` | admin figures; the two dictionaries the page fills in loops are methods with loops |
| `Csv` | `csv.dfy` | export writer; a row reader, the writer's inverse on non-empty rows; a reader for the whole text |

Ids and timestamps come from `Date.now()` and `new Date()` in the source; here they are parameters. So is the answer to the delete-confirmation dialog.

Some behaviours of the code that the model keeps:

- Add-to-cart performs no quantity check, so the model accepts any integer quantity, 0 and negatives included. `min={1}` on the quantity field is only an input hint (src/App.js:379), and the handler adds whatever number the field parsed to (src/App.js:381, 346).
- Add-product checks only that the name and the price text are non-empty (src/App.js:748). A negative price is stored as given.
- Update-status maps over the ledger and overwrites every order with the id (src/App.js:800). An id that no order carries changes nothing, and no message is shown. The handler takes any status, `Placed` included; the page's two buttons send only `Delivered` and `Cancelled` (src/App.js:848-849).
- Login compares the role only when the "login as admin" box is ticked (src/App.js:143). Without the box, any account whose name and password match logs in, the administrator included (`Accounts.SeedAdminLogin`).
- The browse page's category list drops the empty category (src/App.js:290). The dashboard's category dictionary counts products with an empty category under the key `""` (src/App.js:603-606).

## Model

| member | source | states |
|---|---|---|
| Storefront.Store.constructor | src/App.js:14-27 | a fresh profile reads as no users, products, orders, carts or session, and satisfies the store invariant |
| Storefront.Store.Seed | src/App.js:34-74 | an empty catalog becomes the four demo products and an empty directory the single admin account; non-empty ones are left alone; nothing else changes |
| Storefront.Store.Signup | src/App.js:199-209 | succeeds exactly when the username is not taken; the directory is then extended by the new account, otherwise unchanged; usernames stay unique |
| Storefront.Store.Login | src/App.js:136-150 | the result is the login decision on the stored directory; only a successful login replaces the session, with the matched account |
| Storefront.Store.Logout | src/App.js:919-925 | the session is cleared and nothing else changes |
| Storefront.Store.AddToCart | src/App.js:343-348 | a search loop finds the first line for the product; the user's cart becomes the merged cart (that line grown by qty, or a new line appended); other users' carts and all other state unchanged; one line per product is kept |
| Storefront.Store.RemoveFromCart | src/App.js:402-405 | the user's cart loses every line of the product and nothing else; one line per product is kept |
| Storefront.Store.PlaceOrder | src/App.js:466-488 | an empty cart changes nothing and places nothing; otherwise the new order (status Placed, total equal to the cart total at checkout) is put at the head of the ledger and the cart becomes empty; the ledger invariant is kept |
| Storefront.Store.UpdateStatus | src/App.js:799-803 | the ledger becomes the status overwrite of the old one; products, carts and users are unchanged; totals stay consistent |
| Storefront.Store.AddProduct | src/App.js:747-758 | refused exactly when the name or the price text is empty; otherwise the new product is put at the head of the catalog |
| Storefront.Store.DeleteProduct | src/App.js:622-628 | when confirmed, the catalog loses the products with that id, and the reload's `seed()` (src/App.js:907-908, 34-35) refills a catalog left empty with the demo products and an empty directory with the admin; orders, carts and the session are unchanged; unconfirmed, nothing changes |
| Storefront.SnapshotSurvivesDeletion | src/App.js:466-488 | checkout followed by a product deletion: exactly one new order, earlier orders untouched, its total still the checkout cart total, the cart empty |
| Carts.CartOfUpdate | src/App.js:27-28 | CartOf: storing a cart under a user's key makes that key read as the cart and leaves every other user's cart as it was |
| Accounts.Register | src/App.js:199-209 | a taken username leaves the directory as it was; otherwise the account is appended; unique usernames are preserved |
| Accounts.FindUser | src/App.js:138-141 | none exactly when no account matches both name and password; otherwise the first account that does |
| Accounts.CheckLogin | src/App.js:136-150 | invalid credentials exactly when nothing matches; a login returns the first matching account, an admin one when the box is ticked; the not-an-admin refusal happens exactly when the box is ticked and the first match is not an admin |
| Accounts.LoginIdentifiesAccount | src/App.js:138-141 | with unique usernames, a successful login returns the one account carrying the username |
| Accounts.SignupThenLogin | src/App.js:199-209 | right after a signup, the same name and password log in as the new account, unless the admin box is ticked for a customer account |
| Accounts.Customers | src/App.js:872 | the customer list is the directory's accounts with the customer role, each as often as stored, in directory order |
| Accounts.SeedAdminLogin | src/App.js:71-73 | the seeded admin logs in with the admin box ticked or not, and a wrong password is invalid credentials |
| Catalog.FindProduct | src/App.js:409 | none exactly when no product carries the id; otherwise the first that does |
| Catalog.PriceOf | src/App.js:409-410 | a missing product prices at 0; otherwise the price of the first product with that id |
| Catalog.RemoveProduct | src/App.js:624 | the result keeps catalog order, holds no product with the id, and holds every other product as often as before |
| Catalog.RemoveProductIdempotent | src/App.js:622-625 | deleting the same id twice is deleting it once |
| Catalog.RemoveAbsentProduct | src/App.js:622-625 | deleting an id no product carries leaves the catalog unchanged |
| Catalog.FindAfterRemoveProduct | src/App.js:622-625 | after a deletion the deleted id is not found and every other id finds what it found before |
| Catalog.PriceAfterRemoveProduct | src/App.js:622-625 | after a deletion the deleted id prices at 0 and every other id keeps its price |
| Catalog.Distinct | src/App.js:290 | the set-based de-duplication keeps exactly the values present, each once |
| Catalog.CategoryListSpec | src/App.js:290 | CategoryList: the category list holds each non-empty category of the catalog exactly once, in first-seen order |
| Catalog.IncludesAt | src/App.js:294 | the substring test holds exactly when the search occurs in the name at some offset |
| Catalog.MatchesSpec | src/App.js:293-296 | Matches: with category "all" and an empty search every product passes; a chosen category must equal the product's; a non-empty search must occur in the lower-cased name at some offset, whatever its own case |
| Catalog.FilterProducts | src/App.js:292-297 | the filtered list keeps catalog order, every product in it matches category and search, and every matching product appears as often as in the catalog |
| Catalog.InsertionSortSpec | src/App.js:298-302 | InsertionSort: the sort is a permutation, is ordered by the comparator's key, and keeps products of equal price in their input order |
| Catalog.SortProducts | src/App.js:298-302 | the sorted grid is a permutation of its input that keeps equal prices in input order; the price options order by price, the default option keeps the input order |
| Catalog.BrowseSpec | src/App.js:292-302 | Browse: the grid shows exactly the matching products; default order is catalog order; price sorts are ascending or descending by price; equal prices keep catalog order |
| Carts.MergeAtFirstMatch | src/App.js:343-348 | MergeLine, first case: with a line for the product, only the first such line changes, by qty, in place |
| Carts.MergeWithoutMatch | src/App.js:343-348 | MergeLine, second case: without a line for the product, a new line is appended at the end |
| Carts.MergeQty | src/App.js:343-348 | adding raises the quantity held of that product by qty and of no other product |
| Carts.MergeLineIds | src/App.js:343-348 | adding introduces no line except one for the added product |
| Carts.MergeKeepsUnique | src/App.js:343-348 | adding never creates a second line for a product |
| Carts.RepeatedAdds | src/App.js:343-348 | repeated adds of one product to an empty cart give one line holding the sum of the quantities |
| Carts.RemoveLines | src/App.js:403 | the result keeps cart order, has no line of the product, and keeps every other line as often as before |
| Carts.RemoveLinesIdempotent | src/App.js:402-405 | removing twice is removing once |
| Carts.RemoveLinesQty | src/App.js:402-405 | removing drops every unit of that product and no unit of any other |
| Carts.RemoveLinesKeepsUnique | src/App.js:402-405 | removing keeps one line per product |
| Carts.CartTotalAppend | src/App.js:408-411 | CartTotal: one line is worth the product's current price (0 when missing) times its quantity, and the total of two parts of a cart is the sum of their totals |
| Carts.CartTotalAfterMerge | src/App.js:408-411 | adding qty raises the cart total by the product's current price (0 when missing) times qty |
| Carts.CartTotalAfterRemove | src/App.js:408-411 | removing a product lowers the total by its current price times the quantity that was held |
| Carts.MissingProductAddsNothing | src/App.js:408-411 | lines for a product absent from the catalog contribute 0 to the total |
| Carts.CartTotalAfterProductDeleted | src/App.js:408-411 | after a catalog deletion, the total drops by exactly the deleted product's contribution |
| Ledger.Snapshot | src/App.js:470-473 | one item per cart line, with the same product and quantity and the product's current price (0 when missing) |
| Ledger.SnapshotTotal | src/App.js:470-474 | the order total computed from the snapshot equals the cart total shown at checkout |
| Ledger.ItemsTotalAppend | src/App.js:474 | ItemsTotal: one item is worth its quantity times its recorded price, and the item sum of two parts of an order is the sum of their sums |
| Ledger.NewOrder | src/App.js:470-485 | a new order carries the given id, address, phone and timestamp, is Placed, cash on delivery, for the user; its items are the cart's price snapshot and its total equals both its item sum and the cart total |
| Ledger.SetStatus | src/App.js:800 | same length; orders with the id get the new status with all other fields kept; all other orders unchanged |
| Ledger.SetStatusUnknownId | src/App.js:800 | an id no order carries leaves the ledger unchanged |
| Ledger.SetStatusLastWins | src/App.js:800 | of two overwrites of one id, the later wins |
| Ledger.SetStatusIdempotent | src/App.js:800 | repeating an overwrite changes nothing |
| Ledger.SetStatusKeepsTotals | src/App.js:799-803 | a status overwrite preserves the ledger invariant |
| Ledger.OrdersOf | src/App.js:530 | "my orders" keeps ledger order, contains only the user's orders and all of them |
| Ledger.OrdersOfAfterPlace | src/App.js:486-487 | a new order appears at the head of its owner's list and in nobody else's |
| Dashboard.StatusCountsCoverLedger | src/App.js:582-584 | CountStatus: the placed, delivered and cancelled counts add up to the number of orders |
| Dashboard.RevenueExcludesCancelled | src/App.js:585-587 | Revenue: revenue is the sum of the totals of placed and delivered orders |
| Dashboard.NewOrderFigures | src/App.js:581-596 | a new order adds its total to revenue and one to the placed count, and leaves the delivered count alone |
| Dashboard.RevenueExample | src/App.js:581-596 | a delivered order of 120 and a cancelled one of 50 give revenue 120, a delivered count of 1 and a cancelled count of 1 |
| Dashboard.CountStatus | src/App.js:582-584 | a status count is at most the number of orders; it is 0 exactly when no order has the status and the ledger size exactly when every order has it |
| Dashboard.CountStatusAppend | src/App.js:582-584 | CountStatus: one order counts 1 when it has the status and 0 otherwise, and the count over two parts of a ledger is the sum of their counts, which fixes the count of every ledger |
| Dashboard.CategoryCounts | src/App.js:603-606 | the dictionary has a key exactly for each category present, the empty one included, mapped to the number of products in it |
| Dashboard.CategoryCountsTotal | src/App.js:600-606 | the per-category counts over the distinct categories add up to the catalog size |
| Dashboard.SalesPerProduct | src/App.js:609-616 | the dictionary has a key exactly for each product some delivered order holds, mapped to the units over delivered orders |
| Dashboard.NewOrderSellsNothing | src/App.js:610-616 | an order that is not delivered adds nothing to units sold |
| Csv.ProcessRows | src/App.js:89 | one line per data row, each the row writer's output |
| Csv.ParseEscaped | src/App.js:84 | Escape: an escaped text followed by a closing quote reads back as the text, whatever quotes it holds |
| Csv.ParseQuotedCell | src/App.js:82-85 | QuoteCell: a written cell, null or not, reads back as the same cell, whatever follows it that does not start with a quote |
| Csv.RowRoundTrip | src/App.js:80-87 | ProcessRow: every non-empty row read back from its CSV line gives the same cells, null cells and embedded quotes, commas and line breaks included, and the reader stops where the line ends |
| Csv.HeaderRoundTrip | src/App.js:89 | JoinHeader: a header with a cell reads back cell for cell when no cell holds a comma or a line break |
| Csv.RowsRoundTrip | src/App.js:89 | data rows joined by line breaks read back row for row when none is empty |
| Csv.CsvRoundTrip | src/App.js:88-89 | CsvText: the whole export reads back as its header and data rows, when the header has a cell, no header cell holds a comma or a line break, and no data row is empty |
| Csv.EmptyRowAmbiguous | src/App.js:80-87 | the empty row and the row of one null cell write the same line, so the round trip needs a cell |

## Left out

- Rendering, routing and navigation (`go`, the route switch, the navbar counts), and the alerts and form state around each handler. The handlers' effects on storage are modelled; their messages are not.
- JSON serialisation of the storage keys. Each key is modelled as the value it holds. A record with missing fields is not modelled. In particular the `|| 0` fallback for an order without a total is not modelled, because every order the model creates has a total.
- `parseFloat` and `parseInt`: prices and quantities are integers. `AddProduct` receives the parsed price next to the price text it checks, and NaN is not modelled.
- Floating-point money: totals are exact integer sums. The export's `toFixed(2)` is not modelled.
- `toLowerCase` is modelled for ASCII letters only. Unicode case mapping is not modelled.
- The CSV export's construction of its rows (the item text with "Unknown" for deleted products) is not modelled. Its cells are taken as given strings. `String(val)` of numbers is not modelled. The Blob and download link are I/O.
- The image upload (`FileReader`) is I/O. The image is a plain string parameter.
- The reload after a deletion is modelled by its only effect on storage, the re-run of `seed()`. The Refresh button (src/App.js:828) only re-reads storage. Some pages work on a copy of storage taken when they were shown: the cart page, and the admin order list with its status updates. The model applies every handler to the current store, so a page acting on a stale copy is not modelled.
- Several browser tabs writing the same storage concurrently are not modelled.
- Storefront.Store.Login: the session is stored, but the route chosen from the role after login is not modelled.
- Dashboard.CategoryCounts: the source's dictionary is a plain JavaScript object (src/App.js:603-606), and the model treats it as a map from any string. A category named `__proto__` never becomes a key of such an object. A category named after an inherited member, such as `constructor` or `toString`, starts from that member instead of from 0, so its entry is a string rather than a count. These names are not modelled.
- Storefront.Store.DeleteProduct: the reload also returns the page to the route chosen from the session (src/App.js:909-916); routing is not modelled.
