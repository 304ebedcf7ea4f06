# eshop back end: orders, inventory and access control

This project models the core of the eshop back end, a Node.js/Express shop on
a MongoDB document store, and proves properties of that model. The modelled
parts are:

- **Checkout** (`createOrder`). It validates the request body, then screens
  each line item against the product's `stock` and the product's inventory
  record. A missing record is created on the spot from the product's stock.
  It saves the order, and then debits both counters for every item.
- **Order reads.** `getOrders` filters orders by role. `getOrderById` returns
  an order to an admin or to its owner.
- **Cancellation** (`cancelOrder`). The order is marked cancelled and its
  items are restocked.
- **Return requests** (`requestReturn`).
- **Status updates** (`updateOrderStatus`). A role-to-transition table
  decides which moves are allowed. A move to "returned" restocks the items.
- **The inventory controller.** `updateInventory` adds a delta to the
  inventory record and copies the result into the product's stock.
  `getInventoryByProduct` returns one record.
- **The `auth(allowedRoles)` gate.** It extracts the bearer token, verifies
  it, looks up the user, lets users reach their own id, and checks the role.
- **Two maintenance scripts.** `fix_images_url.js` moves image URLs under a
  per-product directory. `initializeInventory` gives every product an
  inventory record.
- **The `required` validator**, together with the JavaScript `String()` and
  `trim()` behaviour it depends on.

Module layout:

- **`Models`**: the entities as datatypes, and the document store as a
  `Store` class. The class has three map fields: products, inventory records
  and orders.
- **Controllers** (`Orders`, `InventoryControl`): each one is a method that
  takes the store and states its whole new state. Pure decisions (role
  guards, the transition table, read filters) are functions.
- **`Ledger`**: `Debit` and `Credit` are the deduction and restock loops as
  functions on a counter map. `Total` is an independent reference definition
  for them, and `CreditUndoesDebit` proves that restocking undoes a checkout.
- **`Screen`**: the checkout screening loop as a function on values.
  `FirstRejection` is a reference that judges each item alone against the
  store as the request found it. `ScreenVerdict` ties the two together: the
  loop accepts exactly when every item is acceptable on its own, and
  otherwise returns the refusal of the first unacceptable one.

Observations the proofs make explicit, each following the code:

- **An empty `products` array is accepted.** `[]` is truthy, and the item
  loops do nothing on it.
- **A product listed twice can be taken below zero.** Each item is checked
  on its own against the current counters; `RepeatedItemOverdraws` gives a
  concrete case.
- **The cancel route admits admins, but the controller refuses them**
  (`CancelDecision`, `AuthGate.CancelRouteRoles`).
- **`updateInventory` adds the quantity as a delta** rather than setting it.
- **An admin may move a returned order to "returned" again**, which
  restocks a second time (`ReturnedAgain`).
- **A delivery agent cannot return an order that is still delivered.** Its table row
  moves orders only from "processed" or "shipped", while a return can only be
  requested for a delivered order (`AgentCannotReturnDelivered`). The return
  flag is never cleared, though: an admin may move a flagged delivered order
  back to "shipped", and the agent may then return it (`AdminReopensForAgent`).
- **A warehouse manager can cancel a pending order through the status
  route**, and that puts nothing back, unlike `cancelOrder`
  (`ManagerCancelsByStatus`).

The token verifier and the user lookup are inputs of the model, passed as
maps. The store's enumeration, `Product.find()`, is the method
`Models.Store.FindProducts`: it lists every product once, in an order the model
leaves open.

## Model

| member | source | states |
|---|---|---|
| Orders.CreateOrder | backEnd/src/controllers/order.controller.js:5-55 | A missing items list or a falsy totalAmount gives 400 and leaves the store untouched. Otherwise an item refused by the screening loop gives that refusal (400 or 404), and keeps the inventory records it created so far. Otherwise the order is saved as pending for the caller, and both the inventory records and the product stocks are debited item by item; image lists are unchanged. |
| Orders.Truthy | backEnd/src/controllers/order.controller.js:10 | `!totalAmount` is the negation of JavaScript truthiness: a missing amount counts as `undefined`, so a missing amount or 0 is refused. |
| Orders.Rejection | backEnd/src/controllers/order.controller.js:16-36 | One item passes exactly when it names a product, asks a positive quantity, the product exists, and both its stock and its inventory record (or the stock a new record would start from) cover the quantity. 404 exactly when the fields are present but the product is missing; every other refusal is 400. |
| Orders.ScreenItems | backEnd/src/controllers/order.controller.js:15-37 | The imperative checking loop ends with exactly the refusal and the inventory that `Screen` computes; products and orders are unchanged. |
| Orders.Screen | backEnd/src/controllers/order.controller.js:15-37 | Records already present keep their quantity. A record the loop creates belongs to a real product that one of the items names, and starts at that product's stock. When nothing is refused, every item names an existing product that now has a record. A refusal is always 400 or 404. |
| Orders.ScreenVerdict | backEnd/src/controllers/order.controller.js:15-37 | Checkout accepts exactly when every item passes the per-item checks (fields present, product found, enough stock, enough inventory) against the store as it arrived. Otherwise the reply is the refusal of the first failing item. |
| Orders.ScreenIsFirstRejection | backEnd/src/controllers/order.controller.js:15-37 | The checking loop, which carries forward the records it creates, refuses with exactly the refusal of the first item that fails when each is judged alone against the store as it arrived. |
| Orders.FirstRejectionMeaning | backEnd/src/controllers/order.controller.js:15-37 | Judging the items one by one gives no refusal exactly when every item is acceptable. Otherwise it gives the refusal of the first unacceptable item. |
| Orders.FirstRejectionLazy | backEnd/src/controllers/order.controller.js:28-34 | Creating a missing record from the product's stock leaves the first refusal unchanged. |
| Orders.Reserve | backEnd/src/controllers/order.controller.js:44-53 | The deduction loop leaves inventory = `Debit` of the old inventory and stocks = `Debit` of the old stocks, over the items. Image lists and orders are unchanged. |
| Orders.Take | backEnd/src/controllers/order.controller.js:45-52 | One item lowers its inventory record and its product's stock by its quantity, and nothing else. |
| Orders.PutBack | backEnd/src/controllers/order.controller.js:118-128 | One item raises its inventory record by its quantity if the record exists, and its product's stock if the product exists. A missing record or product stays missing. |
| Orders.Restock | backEnd/src/controllers/order.controller.js:117-129 | The restock loop leaves inventory = `Credit` of the old inventory and stocks = `Credit` of the old stocks. Image lists and orders are unchanged. |
| Orders.GetOrders | backEnd/src/controllers/order.controller.js:62-78 | A user sees exactly their own orders. A warehouse manager sees exactly the pending and processed ones. A delivery agent sees exactly the processed and shipped ones. An admin sees every order. Any other role gets 403. The result is always a sub-map of the stored orders. |
| Orders.GetOrderById | backEnd/src/controllers/order.controller.js:85-92 | 404 exactly when the order is absent. Otherwise the stored order, exactly when the caller is an admin or the owner; 403 for everyone else. |
| Orders.CancelDecision | backEnd/src/controllers/order.controller.js:104-111 | Cancellation is allowed exactly when the order is pending and the caller is a warehouse manager, or is a user who owns it; every refusal is 403 (admins included). |
| Orders.CancelOrder | backEnd/src/controllers/order.controller.js:99-131 | 404 for an absent order, or 403 when `CancelDecision` refuses; both leave the store unchanged. Otherwise the order becomes cancelled and is returned, and its items are credited back to the existing inventory records and product stocks. |
| Orders.RequestReturn | backEnd/src/controllers/order.controller.js:138-147 | 404 for an absent order. Only the owner of a delivered order gets it back with the return flag set; status, products and inventory stay as they were. Everyone else gets 403, with the store unchanged. |
| Orders.StatusDecision | backEnd/src/controllers/order.controller.js:160-179 | A status move is allowed exactly when the role's table row contains both the current and the target status, and, for the target "returned", the return flag is set. Every refusal is 403. |
| Orders.TransitionRow | backEnd/src/controllers/order.controller.js:161-171 | Users and unknown roles have no row. For the other roles, a pair is in the row's from and to lists exactly when `TablePermits` lists it: manager pending -> processed/cancelled, agent processed/shipped -> delivered/returned, admin any of the six -> any of the six. |
| Orders.UpdateOrderStatus | backEnd/src/controllers/order.controller.js:154-201 | 404 or 403 leave the store unchanged. An allowed move writes the target status. Only the target "returned" credits the items back. Any other target leaves inventory and products untouched. |
| Orders.CheckoutLeavesOthers | backEnd/src/controllers/order.controller.js:15-53 | After a successful checkout, a product no item names has an inventory record exactly when it had one before, that record keeps its quantity, and the product keeps its stock. |
| Orders.CancelRestores | backEnd/src/controllers/order.controller.js:44-53 | A successful checkout followed by its cancellation restores every product exactly, and every existing inventory record. The only trace is the records checkout created, which hold the product's original stock. The hypotheses are what `CreateOrder` and `CancelOrder` ensure on success. |
| Orders.RepeatedItemOverdraws | backEnd/src/controllers/order.controller.js:15-53 | Stock 3, with two line items of 2 for the same product: the screening passes, and the inventory record ends at -1. |
| Orders.ReturnedAgain | backEnd/src/controllers/order.controller.js:166-179 | Once an order is returned with the return flag set, the admin row allows "returned" -> "returned" again, which restocks a second time. The delivery agent row refuses it. |
| Orders.AgentCannotReturnDelivered | backEnd/src/controllers/order.controller.js:142-179 | A delivered order whose return was requested cannot be moved to "returned" by a delivery agent (403); only an admin can. |
| Orders.AdminReopensForAgent | backEnd/src/controllers/order.controller.js:161-183 | For a delivered order whose return was requested, an admin may move it to "shipped", and from "shipped" a delivery agent may then move it to "returned". |
| Orders.ManagerCancelsByStatus | backEnd/src/controllers/order.controller.js:161-199 | A warehouse manager's move of a pending order to "cancelled" through `updateOrderStatus` succeeds and leaves every inventory record and product as it was. |
| Orders.LazyKeepsAvailable | backEnd/src/controllers/order.controller.js:28-34 | Creating a missing inventory record from the product's stock does not change the verdict of any item check. |
| Ledger.Total | backEnd/src/controllers/order.controller.js:44-53 | The summed quantity of the items naming a product; zero when none names it. |
| Ledger.Debit | backEnd/src/controllers/order.controller.js:44-53 | The deduction loop as a function: it keeps the set of counters. |
| Ledger.Credit | backEnd/src/controllers/order.controller.js:117-129 | The restock loop as a function: it keeps the set of counters, and skips a missing one instead of creating it. |
| Ledger.DebitAt | backEnd/src/controllers/order.controller.js:44-53 | After the deduction, each counter is its old value minus the total quantity of the items naming it. |
| Ledger.CreditAt | backEnd/src/controllers/order.controller.js:117-129 | After the restock, each existing counter is its old value plus the total quantity of the items naming it. |
| Ledger.CreditUndoesDebit | backEnd/src/controllers/order.controller.js:44-53 | Restocking a list of items after deducting the same list gives back the original counters. |
| Models.Stocks | backEnd/src/controllers/order.controller.js:50-52 | The products' `stock` counters, one per product. |
| Models.ProductsDetermined | backEnd/src/controllers/order.controller.js:124-128 | Two product maps with the same stock counters and the same image lists are equal; restocking touches nothing else of a product. |
| Models.Store.FindProducts | backEnd/src/utils/seed_inventory.js:7 | `Product.find()` lists every stored product exactly once. |
| InventoryControl.UpdateInventory | backEnd/src/controllers/inventory.controller.js:4-19 | The record becomes the old quantity plus the delta, or the quantity itself when there was no record. If the product exists, its stock becomes that value and the reply is that value. Otherwise the reply is an error (500, see Left out) and the written record stays. |
| InventoryControl.GetInventoryByProduct | backEnd/src/controllers/inventory.controller.js:27-30 | 404 exactly when the product has no record; otherwise the record's quantity. |
| InventoryControl.AdjustTwice | backEnd/src/controllers/inventory.controller.js:4-31 | Two adjustments of one product add up. Afterwards the product's stock equals its record, and `getInventoryByProduct` returns that value. Orders, every other product and this product's image list stay as they were. |
| AuthGate.Gate | backEnd/src/middleware/auth.js:4-26 | The request passes exactly when the token is present, verifies and names an existing user, and the path id is that user's own id, the role list is empty, or the user's role is in it; the caller passed on is the id the token carries. 403 exactly when an authenticated user without self access has a role outside a non-empty list. Every other failure is 401, including a role that does not resolve. |
| AuthGate.Token | backEnd/src/middleware/auth.js:5 | A missing header gives the empty, falsy token. A header starting with "Bearer " gives the rest of it. A header without "Bearer " anywhere is the token as it stands. |
| AuthGate.NoTokenNoLookup | backEnd/src/middleware/auth.js:5-6 | A missing header, or one with nothing after "Bearer ", gives 401 whatever the verifier and the user store would say. |
| AuthGate.BearerToken | backEnd/src/middleware/auth.js:5 | The header "Bearer " + t yields the token t. |
| AuthGate.CancelRouteRoles | backEnd/src/routes/order.routes.js:9 | On the cancel route, a delivery agent is turned away with 403 and an admin passes the gate (except through self access). |
| ImageUrls.FixUrl | backEnd/src/utils/fix_images_url.js:7-18 | A URL that mentions the product id, or that does not start with "/uploads/", is kept. Any other URL becomes "/uploads/<id>/<last path segment>". Every URL the rewrite touches ends up mentioning the id. |
| ImageUrls.FixUrlIdempotent | backEnd/src/utils/fix_images_url.js:7-18 | Rewriting a rewritten URL changes nothing. |
| ImageUrls.FixUrls | backEnd/src/utils/fix_images_url.js:7-18 | The mapped list has the same length, and each URL is rewritten in place. |
| ImageUrls.FixUrlsIdempotent | backEnd/src/utils/fix_images_url.js:7-18 | Rewriting a rewritten list changes nothing. |
| ImageUrls.PlannedUpdate | backEnd/src/utils/fix_images_url.js:2-29 | The script writes for a product exactly when it has a URL array and the rewritten list differs from the stored one. What it writes is the rewritten list, in which every "/uploads/" URL mentions the product id. |
| ImageUrls.FixedIsStable | backEnd/src/utils/fix_images_url.js:20-29 | A product the script has passed over needs no further write. |
| ImageUrls.FixProduct | backEnd/src/utils/fix_images_url.js:2-29 | One turn of the script replaces that one product by its fixed form. It reports a write exactly when an update was planned. |
| ImageUrls.FixImageUrls | backEnd/src/utils/fix_images_url.js:1-30 | The same products remain, each replaced by its fixed form. The written set is exactly the products with a planned update. Afterwards no product needs another write (a second run writes nothing). Inventory and orders are untouched. |
| SeedInventory.InitializeInventory | backEnd/src/utils/seed_inventory.js:5-14 | Exactly the products without a record get one, holding the product's stock. Existing records keep their quantity. Afterwards every product has a record. Products and orders are unchanged. |
| SeedInventory.SeedTwice | backEnd/src/utils/seed_inventory.js:5-14 | A second seeding creates nothing. Two runs leave the same store as one: every product has a record, old records are kept, new ones hold the stock, products and orders unchanged. |
| Validators.Required | backEnd/src/utils/validators.js:1-8 | The field is refused (status 400, naming the field) exactly when the value is undefined, null, or its string form is all white space. Otherwise the value is returned unchanged. |
| Validators.ToStr | backEnd/src/utils/validators.js:2 | `String(v)`: a string is itself. Undefined, null, booleans, numbers and objects print as something that does not start with white space, so never as a blank string. |
| Validators.TrimStart | backEnd/src/utils/validators.js:2 | What is dropped from the front is all white space, and what is left is a suffix not starting with white space. |
| Validators.TrimEnd | backEnd/src/utils/validators.js:2 | What is dropped from the back is all white space, and what is left is a prefix not ending with white space. |
| Validators.Trim | backEnd/src/utils/validators.js:2 | `trim()` yields `s` with its leading and trailing white space removed: the piece of `s` after the white space `TrimStart` drops, followed only by white space, and neither starting nor ending with white space. It is empty exactly when every character is JavaScript white space or a line terminator. |
| Validators.RequiredRefusesBlankStrings | backEnd/src/utils/validators.js:2 | The empty string and a string of spaces are refused. |
| Validators.RequiredAcceptsNumbers | backEnd/src/utils/validators.js:2 | Every integer, 0 included, is accepted. |
| Validators.RequiredRefusesEmptyArrays | backEnd/src/utils/validators.js:2 | `[]` and `[null]`, whose string form is empty, are refused. |
| Strings.ReplaceFirst | backEnd/src/middleware/auth.js:5 | `replace` with a string pattern: no occurrence leaves the text as it is. Otherwise the first occurrence, and only it, is replaced, with the text around it kept. |
| Strings.Includes | backEnd/src/utils/fix_images_url.js:9-13 | `includes` is true exactly when the pattern occurs at some position. |
| Strings.StartsWith | backEnd/src/utils/fix_images_url.js:13 | `startsWith` is true exactly when the first occurrence of the pattern is at position 0. |
| Strings.IndexOfFrom | backEnd/src/utils/fix_images_url.js:9 | The first occurrence at or after the start position, or none at all. |
| Strings.LastSegment | backEnd/src/utils/fix_images_url.js:14 | `split('/').pop()`: the longest suffix containing no '/'. |

## Left out

- Storage failures and the 500 replies of the `catch` blocks: the store always answers in the model.
- An order whose owner was deleted: `populate('user')` in `getOrderById` (order.controller.js:87) makes the owner null, so `order.user._id` throws for every caller who is not an admin, and the catch answers 500. The model has no user store behind the orders and answers such a caller 403 like any other non-owner.
- InventoryControl.UpdateInventory: the 500 reply for a missing product is an assumption about the framework. The handler has no `try`/`catch`, and the application installs no error middleware. Express 5 answers a rejected handler promise with 500. Express 4 ignores the promise, so the request gets no reply, and under Node 15 or later the unhandled rejection ends the process by default. The framework version is not part of this model; only the record written before the error is certain.
- Concurrency: the controllers are `async`, but each one runs as one uninterrupted step. Races between concurrent checkouts are not modelled.
- Timestamps (`lastUpdated`, `createdAt`) and `console` logging: clocks and output belong to the environment.
- `populate` and the response bodies' messages: a reply is reduced to its status and the model value.
- Request shapes: a missing line-item `product` is the empty id, and a missing `quantity` is 0, both falsy like the originals. Non-integer quantities, amounts and stock values, and string-typed numbers, are not modelled; all numbers are integers.
- Invalid ObjectId strings, which make the store's lookups throw a cast error, are not modelled as such. In order.controller.js the handlers catch it and answer 500. In inventory.controller.js nothing catches it: it is the unhandled rejection described for `InventoryControl.UpdateInventory`, so no reply is certain. In auth.js the throw is caught and answered 401, and the model covers that: an id with no entry in the user lookup gives 401.
- The order schema's defaults, status "pending" and return flag unset, are assumed for new orders. The order model file is not part of this model.
- Role names that are properties of `Object.prototype`, such as "constructor" or "__proto__": in `updateOrderStatus` the lookup `allowedTransitions[userRole]` then yields a function or an object, not a row. It has no `from` list, so `.from.includes` (order.controller.js:173) throws, and the catch answers 500. The model treats every unknown role alike and answers 403.
- A user whose role reference does not resolve: `user.role` is then null. Such a user still passes the gate on a route with an empty role list (order.routes.js:7-8), because auth.js:20 tests `allowedRoles.length` first. The user also passes any route through self access (auth.js:15-16). `getOrders`, `getOrderById`, `cancelOrder` and `updateOrderStatus` then read `req.user.role.name` (order.controller.js:65, 89, 104, 160), which throws, and the catch answers 500. In the model an actor always has a role, so these 500s are not modelled.
- `getInventory` (inventory.controller.js:22-25) returns every record unchanged; there is nothing to state about it beyond the store itself.
- The default field name of `required`: the field name is always passed explicitly.
- Non-string entries in an `imageUrls` array (such as null) make `url.includes` throw, which stops the whole script. The model types the list as strings, so that abort is not modelled.
- `JSON.stringify` comparison in `fix_images_url.js` is modelled as equality of the URL lists, which is what it decides for lists of strings.
- `String()` of floating-point numbers, and of objects with their own `toString`, are not modelled: numbers are integers and every object prints as "[object Object]".
- The token verifier (`verifyToken`, with the JWT secret and expiry) is given as a map from the tokens that verify to the ids they carry.
- `Orders.CancelRestores` is a lemma over the states that `CreateOrder` and `CancelOrder` ensure, not a method that runs both: the two calls are tied together by their postconditions, not by a composed call.
