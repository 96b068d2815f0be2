# Urban Plant Life storefront: a Dafny model

This project models the decision logic of a small plant shop ("Urban Plant
Life"). The shop has:

- an Express back end: order placement with a stock ledger, a per-user cart,
  registration and login, and role-based route guards;
- a Next.js front end: a cart context, a catalog, a customer orders page and
  two admin pages;
- a static admin page.

Each request handler is a pure function. It takes the state (stock map, order
table, cart table, user table) and the request, and returns the response
envelope and the new state. Each browser-side helper is a pure function on
lists and strings.

Modelling choices:

- Prices are integer cents.
- Tables are sequences in insertion order. A query's `rows[0]` is the first
  matching row in that order, and "newest first" is reverse insertion order.
- The plant catalog is an abstract map from plant id to (name, price, stock).
  The back end's order code calls a `Plant.getPlantById` and a
  `Plant.updatePlantStock` that its own plant model does not define, so those
  two become a map lookup and an add-delta on that map.
- Password hashing and comparison, token signing and token verification are
  function parameters (oracles).
- Request values that the source parses with `parseInt` or reads from the
  body are `Option` values. `None` stands for missing or non-numeric.

Modules, one per source file:

| module | source file |
|---|---|
| `Wrappers`, `Text`, `Seqs` | shared helpers: Option/Result, lower-casing, substring search, split/join, replace-all, decimal rendering, filter/count/reverse |
| `Helpers` | backend/utils/helpers.js |
| `AuthMiddleware` | backend/middleware/authMiddleware.js |
| `PlantStock` | the plant lookups used by backend/controllers/orderController.js |
| `OrderStore` | backend/models/Order.js |
| `OrderController` | backend/controllers/orderController.js |
| `OrderRoutes` | backend/routes/orderRoutes.js |
| `CartStore` | backend/models/Cart.js |
| `CartController` | backend/controllers/cartController.js |
| `UserStore` | backend/models/User.js |
| `AuthController` | backend/controllers/authController.js |
| `CartContext` | frontend/src/context/CartContext.js |
| `PublicApp` | public/app.js |
| `InventoryPage` | frontend/src/app/admin/inventory/page.js |
| `AdminOrdersPage` | frontend/src/app/admin/orders/page.js |
| `CatalogPage` | frontend/src/app/catalog/page.js |
| `OrdersPage` | frontend/src/app/orders/page.js |

An order line naming a plant that is not in the catalog is rejected with
400, not 404 (backend/controllers/orderController.js:27-29), and the model
answers the same.

## Model

| member | source | states |
|---|---|---|
| Helpers.SendResponse | backend/utils/helpers.js:51-58 | The envelope's status is "error" exactly when the code is at least 400. The message is present exactly when the given message is truthy. Code and data pass through. |
| Helpers.Reply | backend/utils/helpers.js:51-58 | A reply carrying a non-empty message has no data, and its status is "error" exactly for codes of at least 400. |
| Helpers.IsValidEmail | backend/utils/helpers.js:63-66 | The address is valid exactly when it has no whitespace, a non-empty part before a single '@', and a domain with a '.' that is neither its first nor its last character. |
| Helpers.EmailCut | backend/utils/helpers.js:63-66 | Cutting at the first '@', the regular expression holds exactly when the three parts have the required shape. |
| Helpers.IsValidPassword | backend/utils/helpers.js:71-73 | The password is valid exactly when it is present and at least 6 long as JavaScript counts length, in UTF-16 code units. So 6 characters always suffice and fewer than 3 never do. A valid password is truthy. |
| Helpers.BmpPassword | backend/utils/helpers.js:71-73 | For characters inside the Basic Multilingual Plane, the password is valid exactly when it has at least 6 characters. |
| Helpers.AstralPassword | backend/utils/helpers.js:71-73 | Three emoji pass the rule, because each counts as two code units. |
| Helpers.VerifyToken | backend/utils/helpers.js:40-46 | Fails closed: no claims exactly when verification throws, otherwise the decoded claims. |
| AuthMiddleware.BearerToken | backend/middleware/authMiddleware.js:7-8 | A token is found only in a truthy header, and it is non-empty and contains no space. |
| AuthMiddleware.BearerTokenOfScheme | backend/middleware/authMiddleware.js:7-8 | "scheme token" yields exactly that token: the token is the second space-separated part. |
| AuthMiddleware.NoSpaceNoToken | backend/middleware/authMiddleware.js:7-12 | A header without a space carries no token. |
| AuthMiddleware.AuthenticateToken | backend/middleware/authMiddleware.js:6-21 | The request proceeds exactly when a token is present and verifies, and then the user is the verified claims. Otherwise the answer is 401 with status "error". |
| AuthMiddleware.RequireAdmin | backend/middleware/authMiddleware.js:26-31 | Passes exactly when there is a user whose role is admin. Otherwise 403. |
| AuthMiddleware.RequireStaffOrAdmin | backend/middleware/authMiddleware.js:37-42 | Passes exactly when the role is admin or staff. Otherwise 403. |
| AuthMiddleware.RequireOwnerOrAdmin | backend/middleware/authMiddleware.js:47-63 | No user gives 401. An admin or the owner of the parsed user id passes. Anyone else gets 403. |
| AuthMiddleware.AdminGateNarrower | backend/middleware/authMiddleware.js:26-42 | Whoever passes the admin gate passes the staff-or-admin gate. Staff pass the latter and fail the former. |
| PlantStock.GetPlantById | backend/controllers/orderController.js:26 | Finds a plant exactly when its id is in the catalog, and returns that record. |
| PlantStock.UpdatePlantStock | backend/controllers/orderController.js:55 | Adds the delta to that plant's stock. No other plant and no key changes. |
| PlantStock.UpdatePlantStockUndo | backend/controllers/orderController.js:217-220 | Adding a delta and then its negation restores the catalog. |
| OrderStore.ParseStatus | backend/controllers/orderController.js:169-174 | Accepts exactly the names of the five statuses and returns the status with that name. |
| OrderStore.ParseStatusName | backend/controllers/orderController.js:169-174 | Parsing a status's name gives that status back. |
| OrderStore.FindOrderUnique | backend/models/Order.js:21-26 | With increasing ids, looking up an order's id finds that order. |
| OrderStore.GetOrderById | backend/models/Order.js:21-30 | Null exactly when no order has the id. Otherwise an order of the table with that id. |
| OrderStore.GetOrdersByUserId | backend/models/Order.js:35-45 | Exactly that user's orders, in strictly decreasing id order (newest first). |
| OrderStore.GetAllOrders | backend/models/Order.js:50-68 | Exactly the orders that have the given status (all orders when none is given) and whose user still has a row in the users table, newest first. With every user present and no status, every order is listed. |
| OrderStore.NewestFirst | backend/models/Order.js:35-45 | Reversing any filtered table gives decreasing ids. |
| OrderStore.CreateOrder | backend/models/Order.js:6-16 | Appends one order with the given user, total and status and no items. Its id is fresh and then found, and the table invariant is kept. |
| OrderStore.UpdateOrderStatus | backend/models/Order.js:73-83 | Null exactly when the order is missing. Otherwise only that order's status and update time change, and other rows stay as they were. |
| OrderStore.UpdateOrderStatusOthers | backend/models/Order.js:75-78 | A status update leaves every other order id's lookup unchanged. |
| OrderStore.DeleteOrder | backend/models/Order.js:88-98 | Null exactly when the order is missing. Otherwise the id is no longer found, every other order remains, and the invariant is kept. |
| OrderStore.DeleteOrderOthers | backend/models/Order.js:88-95 | Deleting leaves every other order id's lookup unchanged. |
| OrderStore.RemoveIdLast | backend/models/Order.js:88-95 | Removing the order just appended gives the table before it. |
| OrderStore.RemoveIdMembers | backend/models/Order.js:88-95 | `DELETE ... WHERE order_id` leaves exactly the rows with another id: nothing with that id stays, and every other row does. |
| OrderStore.RemoveIdAbsent | backend/models/Order.js:88-95 | Deleting an id no row has changes nothing. |
| OrderStore.AddOrderItem | backend/models/Order.js:103-113 | Null when the order is missing. Otherwise appends exactly that line to that order only. |
| OrderStore.GetOrderItems | backend/models/Order.js:118-128 | Exactly the lines of that order whose plant exists, as the inner join with plants returns them. Every such line is listed, so all of the order's lines come back when all their plants exist. Empty when the order is missing. |
| OrderStore.AddedItemListed | backend/models/Order.js:103-128 | A line added with `addOrderItem` is listed by `getOrderItems` for that order while its plant exists. |
| OrderStore.GetOrderStats | backend/models/Order.js:163-177 | Counts all orders. The revenue is the sum over all orders, cancelled included, and null on an empty table. The delivered and pending counts equal the reference tallies of those statuses, and together never exceed the total. |
| OrderStore.CountIsTally | backend/models/Order.js:169-170 | Counting the orders that pass a status test equals the one-order-at-a-time reference tally. |
| OrderStore.TalliesCover | backend/models/Order.js:163-172 | The five status tallies add up to the number of orders. |
| OrderStore.SetStatusTally | backend/models/Order.js:73-83 | Overwriting the status of the single row with an id moves that row from its old status's tally to its new one's. |
| OrderStore.UpdateMovesTally | backend/models/Order.js:73-83 | After updateOrderStatus on an existing order, each status tally loses the order if it had the old status and gains it if it has the new one. |
| OrderStore.RevenueIgnoresStatus | backend/models/Order.js:163-173 | Changing an order's status, even to cancelled, does not change the revenue. |
| OrderController.CheckItem | backend/controllers/orderController.js:21-45 | An item is accepted exactly when its plant id and a positive quantity are present, the plant exists and its stock covers the quantity. An accepted item becomes a line with the catalog's price. A rejection carries a message. |
| OrderController.ValidateItems | backend/controllers/orderController.js:21-46 | Passes exactly when every item is acceptable on its own, and snapshots each one. |
| OrderController.ValidateItemsStopsAtFirst | backend/controllers/orderController.js:21-38 | A failed validation reports the error of the first rejected item. |
| OrderController.Deduct | backend/controllers/orderController.js:52-56 | Each plant's stock drops by the total quantity the lines ask of it. |
| OrderController.Place | backend/controllers/orderController.js:49-62 | Answers 201 with one new "pending" order of the user. Its lines are the given ones, its total is their price-times-quantity sum, and stock drops by each line's quantity. |
| OrderController.CreateOrder | backend/controllers/orderController.js:8-67 | 201 exactly when the items are present, non-empty and each acceptable; otherwise 400 with no state change. |
| OrderController.CreateOrderPlaces | backend/controllers/orderController.js:40-62 | An accepted request appends exactly one pending order. It has one snapshot line per item and the summed total, and each plant's stock drops by what was asked of it. |
| OrderController.ClientPriceIgnored | backend/controllers/orderController.js:40-45 | Two requests that differ only in client-sent prices give identical results. |
| OrderController.DuplicateLinesOversell | backend/controllers/orderController.js:21-55 | Two lines of 5 for a plant with stock 5 are both accepted, and the stock becomes -5. |
| OrderController.ValidateRunning | backend/controllers/orderController.js:21-46 | The corrected validation passes exactly when the items fit the stock as it is used up line by line. |
| OrderController.CreateOrderChecked | backend/controllers/orderController.js:8-67 | The corrected handler accepts only requests that fit the running stock, and never makes a non-negative stock negative. |
| OrderController.CheckedRefusesOversell | backend/controllers/orderController.js:21-46 | The corrected handler refuses the two-lines-of-5 request with 400 and no change. |
| OrderController.GetOrderById | backend/controllers/orderController.js:72-98 | 400 for a non-numeric id, 404 for a missing order, 200 exactly for the owner or an admin (staff included in the refusal). Otherwise 403. |
| OrderController.GetMyOrders | backend/controllers/orderController.js:103-127 | 200 with exactly the caller's orders, newest first when order ids increase with insertion. |
| OrderController.GetAllOrders | backend/controllers/orderController.js:132-156 | 200 with the orders of the requested status, or of any status when no status is truthy. Only orders whose user has a row in the users table are listed, and every such order is listed. The list is newest first. |
| OrderController.GetOrderStats | backend/controllers/orderController.js:234-243 | 200 with the store's statistics: the total order count, revenue null exactly on an empty table, and the delivered and pending tallies. |
| OrderController.UpdateOrderStatus | backend/controllers/orderController.js:161-198 | 400 exactly when the id is not numeric or the status is not one of the five. 200 exactly when the id is numeric, the status is one of the five and the order exists, so 404 when it does not. Any error leaves the state alone. On success the status is overwritten with no transition check. |
| OrderController.Restock | backend/controllers/orderController.js:217-220 | Each plant's stock rises by the quantity the lines held of it. |
| OrderController.DeleteOrder | backend/controllers/orderController.js:203-229 | 400 exactly for a non-numeric id, and 404 for a missing order. Otherwise every line's quantity goes back to its plant, whatever the status, the order disappears, and other orders are untouched. |
| OrderController.CreateThenDeleteRestores | backend/controllers/orderController.js:211-222 | Placing an order and then deleting it restores both the stock map and the order table. |
| OrderRoutes.Dispatch | backend/routes/orderRoutes.js:11-29 | The route chosen is the first registered one matching the verb and path, with literal segments compared ignoring letter case. No route is chosen exactly when none matches. |
| OrderRoutes.Serve | backend/routes/orderRoutes.js:11-29 | A matched route without a valid token is refused with 401. With one, the handler runs exactly when the route's guard permits the role, and otherwise the answer is 403. |
| OrderRoutes.MyOrdersRoute | backend/routes/orderRoutes.js:14-23 | GET /my-orders reaches getMyOrders and is not captured by /:id. |
| OrderRoutes.StatsRoute | backend/routes/orderRoutes.js:20-23 | GET /stats reaches getOrderStats and is not captured by /:id. |
| OrderRoutes.OrderIdRoute | backend/routes/orderRoutes.js:14-23 | Any non-empty single segment that is not "my-orders" or "stats" in any letter case reaches getOrderById. |
| OrderRoutes.CaseInsensitiveRoutes | backend/routes/orderRoutes.js:20-23 | A segment that lower-cases to "stats", such as "Stats", reaches getOrderStats and not getOrderById. |
| OrderRoutes.OpenRoutes | backend/routes/orderRoutes.js:11-23 | Any authenticated caller may create orders, list their own and fetch by id. |
| OrderRoutes.StaffRoutes | backend/routes/orderRoutes.js:17-26 | Listing all orders and changing a status are allowed exactly to non-customers. |
| OrderRoutes.AdminRoutes | backend/routes/orderRoutes.js:20-29 | Statistics and deletion are allowed exactly to admins. |
| OrderRoutes.AllRoutesAuthenticate | backend/routes/orderRoutes.js:11-29 | Without an Authorization header every route answers 401. |
| CartStore.Find | backend/models/Cart.js:117-141 | Finds a line exactly when one with that user and plant exists. |
| CartStore.AddToCart | backend/models/Cart.js:39-65 | The (user, plant) line's quantity becomes the old quantity (0 if none) plus the amount. No other key changes, and there stays at most one line per key. |
| CartStore.AddAccumulates | backend/models/Cart.js:47-53 | Adding a then b gives the same quantity as adding a + b. |
| CartStore.RemoveFromCart | backend/models/Cart.js:90-100 | Returns the removed line, or null when absent (then nothing changes). Afterwards the key is gone and other keys are untouched. |
| CartStore.RemoveIdempotent | backend/models/Cart.js:90-96 | Removing twice removes nothing the second time. |
| CartStore.UpdateCartItemQuantity | backend/models/Cart.js:70-85 | Null when the line is missing. A quantity of 0 or less deletes the line. A positive one overwrites it. Other keys are untouched. |
| CartStore.UpdateNonPositiveRemoves | backend/models/Cart.js:72-81 | An update to 0 or less is exactly a removal. |
| CartStore.ClearCart | backend/models/Cart.js:105-112 | Leaves the user with no lines and keeps every other user's lines. |
| CartStore.ClearCartOthers | backend/models/Cart.js:105-108 | Clearing one user's cart leaves every other user's lookups unchanged. |
| CartStore.GetCartByUserId | backend/models/Cart.js:6-34 | Lists exactly the user's lines whose plant exists, joined with the plant's name and price. When rows were inserted in `added_at` order the list is most recently added first, and with one row per key each plant appears once. |
| CartStore.JoinUserMembers | backend/models/Cart.js:24-26 | The join of carts with plants for one user holds a line for every row of that user whose plant exists, and nothing else. |
| CartStore.JoinUserChronological | backend/models/Cart.js:24-27 | Before the sort, the join keeps the table's order, so `added_at` ascends along it. |
| CartStore.JoinUserDistinct | backend/models/Cart.js:24-26 | With one row per (user, plant) key, the join lists each plant at most once. |
| CartStore.ReversedJoinOrdered | backend/models/Cart.js:24-27 | Reversing the join gives `ORDER BY c.added_at DESC`, and plants stay distinct. |
| CartStore.AddKeepsChronological | backend/models/Cart.js:47-59 | `addToCart` keeps `added_at` ascending along the table: an update leaves `added_at` alone, and an insert is stamped with the current time. |
| CartStore.GetCartItem | backend/models/Cart.js:117-144 | Null when the line or the plant is missing. Otherwise the line's quantity with the plant's price. |
| CartController.GetCart | backend/controllers/cartController.js:7-18 | 200 with every listed line of the caller and no other line, newest first, each plant once. |
| CartController.AddToCart | backend/controllers/cartController.js:23-49 | 400 exactly when the plant id or quantity is missing or zero, or the quantity is not a positive number; then nothing changes. 201 adds the quantity to the caller's line. |
| CartController.UpdateCartItem | backend/controllers/cartController.js:54-84 | A quantity of 0 or a non-number gives 400, checked before the model is called. Otherwise a non-numeric plant id gives 500, exactly then. A missing line gives 404. A positive quantity is set, and a negative one deletes the line. |
| CartController.NegativeUpdateDeletes | backend/controllers/cartController.js:61-67 | A negative quantity on an existing line answers 200 and has exactly the effect of removing it. |
| CartController.RemoveFromCart | backend/controllers/cartController.js:89-105 | 500 exactly for a non-numeric plant id. 404 when the line is missing, otherwise 200 with the removed line. |
| CartController.ClearCart | backend/controllers/cartController.js:110-121 | Always 200, and the caller's cart view is then empty. |
| CartController.GetCartItem | backend/controllers/cartController.js:126-142 | 404 when the line or plant is missing, otherwise 200 with the line's quantity. |
| CartController.CartsAreIsolated | backend/controllers/cartController.js:23-121 | No cart request of one user changes another user's lines. |
| CartController.AddThenGet | backend/controllers/cartController.js:23-49 | Adding q then fetching the line returns the old quantity plus q. |
| UserStore.FindUserByUsernameOrEmail | backend/models/User.js:7-17 | No user exactly when none matches the username or the e-mail (a null value matches nothing). Otherwise a matching row. |
| UserStore.FindByEmail | backend/models/User.js:7-17 | With distinct e-mails, looking up a user's e-mail finds that user. |
| UserStore.FindUserById | backend/models/User.js:22-31 | No user exactly when no row has the id, otherwise the row with it. |
| UserStore.CreateUser | backend/models/User.js:36-47 | Appends one row holding the hash of the password, never returns the hash, and uses a fresh id. With no clash the table invariant holds and the new id finds the row. |
| AuthController.RegistrationError | backend/controllers/authController.js:12-36 | Reports the first failing check in the order: all four fields, e-mail format, password length, confirmation. None exactly when all pass. |
| AuthController.Register | backend/controllers/authController.js:7-57 | 400 exactly on a failed check, with that check's message. 409 exactly when the username or e-mail is taken. Otherwise 201, appending one customer with the hashed password. Failures change nothing, and the table invariant is kept. |
| AuthController.Login | backend/controllers/authController.js:62-104 | 400 when e-mail or password is missing. All 401 answers are identical. 200 only for a user with that e-mail whose password compares true, returning id, name, e-mail, role and token and no hash; with distinct e-mails, 200 exactly then. |
| AuthController.GetProfile | backend/controllers/authController.js:117-135 | 200 with the caller's public row exactly when the caller's id exists, otherwise 404 "User not found.". |
| AuthController.UpdateProfile | backend/controllers/authController.js:140-167 | 409 when the e-mail, then the username, belongs to a different user; otherwise 200 with no change. With distinct keys these are exact. |
| AuthController.RegisterThenLogin | backend/controllers/authController.js:7-104 | After registering, logging in with the same e-mail and password succeeds as a customer. |
| AuthController.RegisterTwiceConflicts | backend/controllers/authController.js:39-47 | Registering the same username again gives 409. |
| AuthController.RegisterThenProfile | backend/controllers/authController.js:117-135 | The new user's profile is the row that registration returned. |
| AuthController.LoginFailuresAlike | backend/controllers/authController.js:72-81 | An unknown e-mail and a wrong password give the same answer. |
| AuthController.LoginTokenAuthenticates | backend/controllers/authController.js:84-97 | The login token, sent as "Bearer token", authenticates as the logged-in user. |
| AuthController.UpdateOwnDetails | backend/controllers/authController.js:146-162 | A user resubmitting their own name and e-mail gets 200. |
| CartContext.AddToCart | frontend/src/context/CartContext.js:40-64 | A failed call keeps the list and records the error. On success the plant's quantity rises by one, other plants are unchanged, at most one line per plant is kept, the item count rises by one and the price total by that plant's price. |
| CartContext.RemoveFromCart | frontend/src/context/CartContext.js:66-76 | On success exactly that plant's line is gone and the item count falls by its quantity. A failed call changes nothing but the error. |
| CartContext.UpdateQuantity | frontend/src/context/CartContext.js:78-101 | A quantity of 0 or less is a removal. Otherwise only that line's quantity becomes q, and the item count moves by the difference. |
| CartContext.ClearCart | frontend/src/context/CartContext.js:103-113 | On success the list is empty, with zero items and zero price. |
| CartContext.TotalsDrop | frontend/src/context/CartContext.js:115-121 | Dropping a line lowers the totals by its quantity and by its price times quantity. |
| CartContext.DropUnique | frontend/src/context/CartContext.js:70 | Removal keeps at most one line per plant. |
| CartContext.AddMirrors | frontend/src/context/CartContext.js:43-56 | When the local list mirrors the server cart, a successful add keeps it mirroring the server's upsert of 1. |
| CartContext.RemoveMirrors | frontend/src/context/CartContext.js:66-76 | A successful removal keeps the local list mirroring the server cart. |
| CartContext.UpdateMirrors | frontend/src/context/CartContext.js:78-101 | A successful positive update keeps the local list mirroring the server cart. |
| CartContext.ClearMirrors | frontend/src/context/CartContext.js:103-113 | A successful clear keeps the local list mirroring the server cart. |
| PublicApp.GetStockClass | public/app.js:203-207 | "stock-out" exactly at 0, "stock-low" exactly for other values below 5, and no class from 5 up. |
| PublicApp.EscapeHtml | public/app.js:209-218 | A falsy input gives "". Otherwise the result is the one-pass entity encoding, and it contains no '<', '>', '"' or "'". |
| PublicApp.ChainIsEachPass | public/app.js:213-217 | Because '&' is replaced first, the five chained replaces equal replacing each character by its entity in one pass. |
| PublicApp.EscapeEachClean | public/app.js:213-217 | The encoding contains none of the four markup characters. |
| PublicApp.UnescapeEscape | public/app.js:213-217 | Decoding the five entities recovers the input, so escaping loses nothing. |
| PublicApp.EscapeNotIdempotent | public/app.js:213 | Escaping "&" twice gives "&amp;amp;". |
| InventoryPage.GetStockStatus | frontend/src/app/admin/inventory/page.js:186-190 | Out of Stock exactly at 0, In Stock exactly above 5, Low Stock otherwise. |
| InventoryPage.CountTiles | frontend/src/app/admin/inventory/page.js:210-227 | The three tiles plus the negative-stock plants add up to the list length; with no negative stock the tiles partition the list. |
| InventoryPage.TilesCover | frontend/src/app/admin/inventory/page.js:210-227 | Every plant is in exactly one tile or has negative stock. |
| InventoryPage.BadgeMatchesTile | frontend/src/app/admin/inventory/page.js:186-227 | The badge names the tile a plant is counted in. A negative stock shows "Low Stock". |
| InventoryPage.StockScalesDiffer | public/app.js:203-207 | The static page's stock class and this badge agree everywhere except at exactly 5. |
| InventoryPage.FilteredPlants | frontend/src/app/admin/inventory/page.js:99-103 | Keeps exactly the plants whose name contains the term, ignoring case, and, with the box ticked, whose stock is at most 5. |
| InventoryPage.LowFilterIncludesOutOfStock | frontend/src/app/admin/inventory/page.js:99-103 | The low-stock box lets a plant with stock 0 through, though its badge and tile say out of stock. |
| InventoryPage.HandleUpdateStock | frontend/src/app/admin/inventory/page.js:130-136 | Only the matching plants change: their stock becomes the parsed entry (0 when not a number) and their date today. |
| InventoryPage.HandleDeletePlant | frontend/src/app/admin/inventory/page.js:138-142 | Unconfirmed does nothing. Confirmed removes exactly the plants with that id. |
| InventoryPage.NegativeStockUncounted | frontend/src/app/admin/inventory/page.js:130-136 | Typing -3 for a plant with stock 3 leaves it on the list with a Low Stock badge but in no tile. |
| InventoryPage.HandleUpdateStockClamped | frontend/src/app/admin/inventory/page.js:130-136 | The corrected update reads a negative entry as 0. It keeps all stock non-negative and the tiles complete. |
| InventoryPage.DeleteKeepsTilesComplete | frontend/src/app/admin/inventory/page.js:138-142 | Deleting keeps the tiles complete. |
| AdminOrdersPage.FilterOrders | frontend/src/app/admin/orders/page.js:122-138 | Shows exactly the orders whose status matches (unless "all") and whose id, customer name or e-mail contains the term, ignoring case. |
| AdminOrdersPage.FilterOrdersIsConjunction | frontend/src/app/admin/orders/page.js:122-138 | The two filters in turn equal one filter by both conditions, in list order. An empty search box filters nothing. |
| AdminOrdersPage.UpdateOrderStatus | frontend/src/app/admin/orders/page.js:140-146 | Only the status of orders with the id changes, to the new value unchecked. Nothing else in any order changes. |
| AdminOrdersPage.UpdateThenFilter | frontend/src/app/admin/orders/page.js:122-146 | After the change the order is listed under its new status. |
| AdminOrdersPage.GetStatusColor | frontend/src/app/admin/orders/page.js:148-157 | Grey exactly for statuses outside the five. |
| AdminOrdersPage.StatusColorsDistinct | frontend/src/app/admin/orders/page.js:148-157 | The five statuses get five different badges. |
| AdminOrdersPage.GetOrderStats | frontend/src/app/admin/orders/page.js:159-171 | Each of the pending, processing, shipped and delivered counts equals the reference tally of that status. The four counts, the cancelled orders and the unknown statuses add up to the total. The revenue sums exactly the paid, non-cancelled orders and is non-negative for non-negative totals. |
| AdminOrdersPage.CountIsTally | frontend/src/app/admin/orders/page.js:162-165 | Filtering by a status and taking the length equals the one-order-at-a-time reference tally. |
| AdminOrdersPage.StatusesCover | frontend/src/app/admin/orders/page.js:159-166 | Every order has one of the five statuses or none of them. |
| AdminOrdersPage.RevenueIsEarned | frontend/src/app/admin/orders/page.js:167-169 | Filtering and then summing equals summing each order's earning contribution. |
| AdminOrdersPage.NonEarningAddsNothing | frontend/src/app/admin/orders/page.js:167-169 | Adding an unpaid or cancelled order raises the total count but not the revenue. |
| AdminOrdersPage.CancelDropsRevenue | frontend/src/app/admin/orders/page.js:159-171 | Cancelling the single order with an id takes its total out of the revenue if it was earning, and nothing else. |
| CatalogPage.FilterPlants | frontend/src/app/catalog/page.js:52-66 | Keeps exactly the plants whose lower-cased category equals the selection (unless "all") and whose name or description contains the term, ignoring case. |
| CatalogPage.FilterPlantsIsConjunction | frontend/src/app/catalog/page.js:52-66 | The two filters in turn equal one filter by both conditions, in list order. |
| CatalogPage.SortBy | frontend/src/app/catalog/page.js:69-80 | The stable sort returns a permutation of its input, ordered by the comparator whenever that comparator is total. |
| CatalogPage.SortByAllEqual | frontend/src/app/catalog/page.js:77-78 | A comparator that calls everything equal keeps the order. |
| CatalogPage.FilterAndSort | frontend/src/app/catalog/page.js:52-83 | The shown list is a permutation of exactly the passing plants, ordered by the page's comparator. |
| CatalogPage.UnknownOptionKeepsOrder | frontend/src/app/catalog/page.js:77-78 | An unknown sort value leaves the filtered list in order. |
| CatalogPage.SortOptionsReversed | frontend/src/app/catalog/page.js:73-76 | As written, "price-low" orders prices from high to low and "price-high" from low to high. |
| CatalogPage.PriceLowSortsDescending | frontend/src/app/catalog/page.js:73-74 | A 10.00 plant and a 20.00 plant under "Price (Low to High)" come out 20.00 first. |
| CatalogPage.FilterAndSortAsLabelled | frontend/src/app/catalog/page.js:52-83 | The corrected sort is a permutation of the filtered list. "price-low" gives prices rising across the whole list, and "price-high" falling. |
| CatalogPage.HandleAddToCart | frontend/src/app/catalog/page.js:85-103 | No user, or a stock of exactly 0, gives the matching alert and leaves the cart alone. Otherwise one unit is added through the cart context, or the failure is alerted. The cart's lines change only on a successful call. |
| CatalogPage.NegativeStockReachesCart | frontend/src/app/catalog/page.js:91 | Only an exact 0 is refused, so a negative stock figure still adds to the cart. |
| OrdersPage.FetchOrders | frontend/src/app/orders/page.js:17-50 | No stored user goes to /login and an admin to /admin/orders. Otherwise the orders are the answer when it is a list and empty when it is not. A throw leaves the list empty and shows its message, or "Failed to load orders". A null or undefined answer fails the same way, with the TypeError that reading its `data` raises. |
| OrdersPage.PayloadShapes | frontend/src/app/orders/page.js:37-44 | A bare list and a list inside `data` load the same orders. Any other answer that has properties loads none, with no error. A null or undefined answer behaves exactly as a throw of the TypeError, and a null `data` falls back to the envelope, which is not a list. |
| OrdersPage.GetStatusColor | frontend/src/app/orders/page.js:60-75 | Grey exactly for statuses outside the five. |
| OrdersPage.BadgesAgreeButShipped | frontend/src/app/orders/page.js:60-75 | The customer's badge equals the admin's for every status except shipped (cyan against purple). |
| OrdersPage.GetStatusIcon | frontend/src/app/orders/page.js:77-92 | The question mark exactly for statuses outside the five. |
| OrdersPage.IconsDistinct | frontend/src/app/orders/page.js:77-92 | The five statuses get five different icons. |
| OrdersPage.Timeline | frontend/src/app/orders/page.js:190-202 | The four highlights are monotone: a later step lit implies every earlier step lit. "Order Placed" is lit exactly when the status is not pending, and "Delivered" exactly when delivered. |

## Left out

- Argon2 hashing, bcrypt-style comparison and JWT signing and verification: these are oracles passed as parameters.
- SQL, connection pools and MongoDB. Tables are sequences and the plant catalog is an abstract map.
- Timestamps are opaque numbers passed in by the caller.
- Concurrency. The check-then-act race between simultaneous orders, and the non-transactional multi-row writes in order placement and deletion, are not modelled. Only the sequential oversell is.
- Floating-point prices, `toFixed` and `parseFloat`: prices are integer cents.
- JavaScript coercion details of `isNaN` and `parseInt` on strings. A parsed value is present or absent. The "500 on a non-numeric path id" branches appear only as that absent case.
- `logout` (backend/controllers/authController.js:110-112) always answers 200 with a fixed message and has no state to model.
- `fetchCart` in the cart context and the `fetchPlants` effect of the catalog page are network reads, and are not modelled. The customer orders page's fetch is modelled through the shape of its answer.
- The cart context's stale-closure behaviour, where two quick updates both start from the same list, is not modelled. Each operation starts from the current list.
- React rendering, routing, localStorage, the success-message timer and `alert` are not modelled. A corrupt stored user, whose `JSON.parse` would throw, is not modelled.
- The catalog page sorts its `plants` state array in place when no filter applies. The model sorts a copy. The shown list is the same, but later sorts start from a differently ordered list, which only affects ties.
- Text.ToLower: folds only the ASCII letters A-Z. JavaScript's `toLowerCase` folds every Unicode letter (É to é, Σ to σ), so the searches below can differ on non-ASCII text.
- InventoryPage.FilteredPlants: the name search ignores case for ASCII letters only, because it is built on Text.ToLower.
- AdminOrdersPage.FilterOrders: the search over id, name and e-mail ignores case for ASCII letters only, because it is built on Text.ToLower.
- CatalogPage.FilterPlants: the category comparison and the name and description search ignore case for ASCII letters only, because they are built on Text.ToLower.
- OrderRoutes.Dispatch: path segments are compared as given. Percent-encoded segments are not decoded before literal matching, and a trailing slash is assumed already dropped.
- OrderStore.GetAllOrders: the joined `username` and `email` columns are not carried in the result. Only the join's effect, dropping orders whose user row is gone, is modelled.
- OrdersPage.FetchOrders: the TypeError message for a null or undefined answer is a parameter, since its wording belongs to the JavaScript engine.
- CartStore.GetCartByUserId: the newest-first order is promised only for a table whose `added_at` ascends in insertion order, which `addToCart` keeps while the clock does not run backwards. Lines with equal `added_at` come in reverse insertion order, a choice PostgreSQL leaves open.
- CatalogPage.NameLe: `localeCompare` is modelled as code-point order on names, not locale collation.
- CatalogPage.SortBy: only ordering and permutation are stated; stability itself is shown only for a comparator that calls everything equal.
- The Mongoose plant controller, its routes and the server bootstrap are outside the modelled core.

## Findings

| source | as written | input that shows it | evidently intended | confidence | as-written member | corrected member |
|---|---|---|---|---|---|---|
| backend/controllers/orderController.js:21-46,55 | Each order line's stock check reads the stock before the order, and the stock is only decremented after all checks pass. | A plant with stock 5 and two lines of quantity 5 for it: both pass, the order is placed and the stock becomes -5. | Check each line against the stock left after the earlier lines, so no order can drive stock below zero. | not executed | OrderController.DuplicateLinesOversell | OrderController.CreateOrderChecked |
| frontend/src/app/admin/inventory/page.js:130-136,437-439 | The stock box has `min="0"`, but the typed value goes straight into `parseInt` and the list. | Typing -3 for a plant: its badge says Low Stock, yet none of the three tiles counts it, so the tiles no longer add up to the plant total. | Read a negative entry as 0, so every plant falls in exactly one tile. | not executed | InventoryPage.NegativeStockUncounted | InventoryPage.HandleUpdateStockClamped |
| frontend/src/app/catalog/page.js:73-76,167-168 | "Price (Low to High)" sorts with `b.price - a.price`, which puts higher prices first; "Price (High to Low)" does the reverse. | Plants priced 10.00 and 20.00 under "Price (Low to High)" show 20.00 first. | Swap the two comparators so each option sorts as its label says. | not executed | CatalogPage.PriceLowSortsDescending | CatalogPage.FilterAndSortAsLabelled |
