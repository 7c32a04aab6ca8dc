# schoolpos sale engine in Dafny

A model of the sale path of schoolpos, a point-of-sale web application for a
school tuck shop. The model covers:

- **Role guards.** Every exported server operation except registration,
  login and logout starts with a role check. Together these checks form one
  table from operation to admitted roles (module `Access`; `Schema.Guarded`
  for the maintenance operations whose bodies are not modelled).
- **`createSale`** (module `Checkout`). It resolves the requested products
  and checks stock line by line. It totals the order and checks the payment.
  Then, as one batch, it records the sale with price snapshots and writes
  each product's new stock.
- **Read models** (module `Reports`):
  - the sales report over an optional inclusive date range, with total and
    item sums;
  - today's sales;
  - single-sale lookup.
- **The register's cart** (module `Cart`):
  - adding, removing and re-counting lines;
  - the running total and change;
  - the submit handler, which refuses an unreadable or short payment before
    calling the server, and empties the cart after a success.
- **The dashboard** (module `Dashboard`): the role it assumes, the
  navigation cards it shows, and the four metric tiles over today's sales.

The database is a value, `Db(catalog, sales)`. `createSale` and the guarded
maintenance operations are pure functions returning `Outcome(db', response)`.
The read operations (`GetSalesReport`, `GetTodaysSales`, `GetSaleDetails`)
change nothing, so they return only the response. A response is `Ok(value)`
or `Err(Failure)`. Each `Failure` carries the exact message the source
returns (`Failure.Message`).

Money, stock and quantities are `int` in minor units. Timestamps are `int`
milliseconds.

Values the database or the runtime supplies are parameters:

- the new sale's id (`saleId`);
- its timestamp (`now`);
- the start of the local day (`dayStart`).

In the register, the payment field is its parsed value: `Option<int>`, with
`None` standing for `NaN`.

In the places below, the code does not do what a sale engine evidently
intends. The model follows the code:

- `createSale` accepts an empty item list and zero or negative quantities.
  Nothing in it rejects them. `Checkout.EmptyCartAccepted` and
  `Checkout.NonPositiveQuantityAccepted` prove what happens instead.
- The "products found" check compares the number of distinct catalog rows
  matched with the number of lines. So a request naming the same product on
  two lines fails with "One or more products not found", although every
  product exists (`Checkout.MatchedCount`, `Checkout.CreateSaleDecision`).
- Stock is checked against rows read before the batch. The batch then writes
  absolute values (`stock read − quantity`); it does not decrement
  conditionally. This is not a fused check-and-decrement, which concurrent
  terminals would need. Within one call the model proves every written
  stock non-negative (`Checkout.CreateSaleCommit`). It says nothing about
  two calls interleaving.
- A storage error in `createSale` surfaces the raw exception message,
  where the other operations report a fixed "Failed to …" text. Storage
  errors are not modelled (see below).

A user whose record has no role:

- sees the POS card on the dashboard, because the dashboard defaults the
  role to WORKER;
- is refused by every role-checked server operation.

`Dashboard.Cards` and `Access.RolesNested` make both sides of this explicit.

## Model

| member | source | states |
|---|---|---|
| Access.Guard | src/app/pages/user/functions.ts:121-142 | The opening check of every operation (lines 68, 89, 107, 124, 141, 226, 287, 304, 333, 359, 395, 421, 455), written per operation. It lets the call through exactly when a user with a non-empty id is present and the role table admits that user's role. A refusal is "Not authenticated" for the product and settings listings and "Not authorized" elsewhere. |
| Access.Required | src/app/pages/user/functions.ts:121-143 | The role table. Only the product and settings listings are open to any logged-in user. Every role-checked operation admits an admin, and one that admits a worker admits all three roles. |
| Access.RolesNested | src/app/pages/user/functions.ts:121-143 | Roles are nested across all guards: a manager may do whatever a worker may, an admin whatever a manager may. A user without a role may use only the operations open to every logged-in user. |
| Schema.Guarded | src/app/pages/user/functions.ts:65-83 | A refused maintenance call (product, setting or user) leaves the database unchanged and returns the denial. An admitted one is exactly the operation's own body. |
| Checkout.IdsOf | src/app/pages/user/functions.ts:147-153 | The ids the catalog lookup is asked for: every line's id is in the set, and every id in the set comes from some line. |
| Checkout.MatchedCount | src/app/pages/user/functions.ts:146-158 | The number of rows `findMany` returns never exceeds the line count. It equals the line count exactly when every id is in the catalog and no id repeats. |
| Checkout.ShortageFrom | src/app/pages/user/functions.ts:165-171 | Returns the first line, in request order, whose product is in the catalog with less stock than requested. It returns none exactly when no line is short. |
| Checkout.OrderTotal | src/app/pages/user/functions.ts:161-173 | The running total skips lines whose product was not found, so a request naming no catalog product totals 0. With non-negative prices and quantities the total is non-negative. |
| Checkout.Snapshot | src/app/pages/user/functions.ts:173-178 | The recorded lines copy each request's id and quantity with the product's current price. Their price × quantity sum is the order total. |
| Checkout.ApplyStock | src/app/pages/user/functions.ts:181-186 | The stock batch keeps the same products. It changes no field but stock, and leaves every product that no line names untouched. |
| Checkout.StockDecrement | src/app/pages/user/functions.ts:181-186 | When no two lines name the same product, each named product's stock becomes its earlier stock minus its line's quantity. |
| Checkout.CreateSale | src/app/pages/user/functions.ts:138-221 | Any refusal leaves the database unchanged. A success records one valid sale: the caller's id, the given payment and time, the total equal to the sum of its lines, and change = paid − total ≥ 0. The sale is appended to the table, and the set of products is kept. |
| Checkout.CreateSaleDecision | src/app/pages/user/functions.ts:141-190 | Which response comes back, both directions for each. "Not authorized" exactly when the role check fails. "Not found" exactly when a product is missing or repeated. A stock error exactly when the earlier checks pass and some line is short. "Insufficient payment" exactly when those pass and paid < total. Success exactly when every check passes. |
| Checkout.ShortageFailsWholeSale | src/app/pages/user/functions.ts:165-171 | The first short line fails the whole sale with that product's name, and the database is returned unchanged. No stock write from an earlier line survives. |
| Checkout.CreateSaleCommit | src/app/pages/user/functions.ts:173-214 | After a success: the sale holds one line per request, with the price current at the call. Each requested product's stock drops by its quantity and stays non-negative. No other field changes, and products not in the request are untouched. |
| Checkout.CreateSaleKeepsConsistency | src/app/pages/user/functions.ts:138-217 | Starting from a consistent database and given a fresh sale id, a call leaves it consistent, whatever its outcome. Consistent means: keys match ids, no negative stock, every sale valid, sale ids unique. |
| Checkout.EmptyCartAccepted | src/app/pages/user/functions.ts:146-217 | An empty item list is not refused. It records a sale of total 0 with the whole payment as change, and touches no stock. |
| Checkout.NonPositiveQuantityAccepted | src/app/pages/user/functions.ts:169-184 | A line with quantity ≤ 0 passes the stock check. It lowers the total, and it raises the product's stock instead of lowering it. |
| Checkout.ExampleSale | src/app/pages/user/functions.ts:160-217 | Worked example: 3 units at 10.00 from stock 100, paid 35.00. Total 30.00, change 5.00, stock 97. |
| Checkout.ExampleShortage | src/app/pages/user/functions.ts:169-171 | Worked example: 5 units requested with 2 in stock. The error names the product, and the database is unchanged. |
| Reports.During | src/app/pages/user/functions.ts:229-241 | The date filter never lengthens the table, every sale it keeps lies in the window, and without a window it keeps the whole table. |
| Reports.DuringSelects | src/app/pages/user/functions.ts:229-241 | The filter keeps exactly the sales inside the window. Each sale inside the window is kept exactly as often as the table holds it, and every other sale is dropped. |
| Reports.DuringKeepsOrder | src/app/pages/user/functions.ts:229-241 | Filtering distributes over concatenation, so the selected sales keep their table order. |
| Reports.ReportWindow | src/app/pages/user/functions.ts:231-240 | The report's window admits a time t exactly when start ≤ t ≤ end, if both bounds are given, and every time otherwise. |
| Reports.AllInsideSelected | src/app/pages/user/functions.ts:229-241 | A window containing every sale's time selects the whole table, in order. |
| Reports.SortNewestFirst | src/app/pages/user/functions.ts:256-258 | Ordering by creation time descending yields a permutation of the input in non-increasing time order. |
| Reports.SortKeepsSums | src/app/pages/user/functions.ts:261-264 | Reordering does not change the total of sale totals or the total of item quantities. |
| Reports.GetSalesReport | src/app/pages/user/functions.ts:223-281 | Refused ("Not authorized") exactly when the caller is not an admin or manager. When both bounds are given, the report holds exactly the sales created within them inclusive; otherwise every sale. Sales are newest first, and the bounds are echoed. |
| Reports.ReportSums | src/app/pages/user/functions.ts:261-275 | The report holds each selected sale exactly once. `totalSales` and `totalItems` are the sums over the selected sales; with a bound missing, over the whole table. |
| Reports.TodayWindow | src/app/pages/user/functions.ts:460-472 | Today's window admits a time t exactly when start of day ≤ t < start of day + 86 400 000 ms. |
| Reports.GetTodaysSales | src/app/pages/user/functions.ts:452-494 | Refused exactly when the caller is not a logged-in admin, manager or worker. Otherwise it returns exactly the sales created in [start of day, start of next day), newest first, each once. |
| Reports.FindSale | src/app/pages/user/functions.ts:426-444 | Finds a sale with the given id whenever one exists, and only then. |
| Reports.GetSaleDetails | src/app/pages/user/functions.ts:418-450 | "Not authorized" exactly when the role check fails. "Sale not found" exactly when it passes and no sale has the id. Otherwise it returns a stored sale with that id, and with unique ids the only one. |
| Reports.SaleVisibleAfterCommit | src/app/pages/user/functions.ts:195-217 | A committed sale is immediately found by its id. It is among today's sales when its time falls in today's window. |
| Cart.FindLineFrom | src/app/pages/user/POS.tsx:133 | Finds the first line of the product at or after a position, and finds none exactly when no such line exists. |
| Cart.Increment | src/app/pages/user/POS.tsx:140-144 | Keeps the cart's length. Each line of the product gains one unit, and every other line is unchanged. |
| Cart.AddToCart | src/app/pages/user/POS.tsx:131-148 | A product without a line gets a new line of quantity 1 at the end. Adding keeps one line per product. |
| Cart.AddToExistingLine | src/app/pages/user/POS.tsx:134-143 | For a product that has a line: at or above its stock, the cart is unchanged and "Not enough stock available" is shown. Otherwise only that line gains one unit. |
| Cart.AddToCartKeepsInvariant | src/app/pages/user/POS.tsx:131-148 | Adding a listed product (stock not 0, as the disabled button ensures at line 306) keeps one line per product and every quantity within [0, stock]. |
| Cart.AddToCartRaisesTotal | src/app/pages/user/POS.tsx:131-167 | A successful add raises the cart total by exactly one unit price. A refused add leaves the cart as it was. |
| Cart.RemoveFromCart | src/app/pages/user/POS.tsx:151-153 | After removal no line of the product remains, and the cart does not grow. |
| Cart.RemoveFromCartKeepsOthers | src/app/pages/user/POS.tsx:151-153 | The lines kept are exactly the lines of other products, none more often than before. |
| Cart.RemoveFromCartKeepsInvariant | src/app/pages/user/POS.tsx:151-153 | Removal keeps one line per product and quantities within stock. |
| Cart.RemoveFromCartKeepsOrder | src/app/pages/user/POS.tsx:151-153 | Removal distributes over concatenation, so the kept lines stay in their order. |
| Cart.UpdateQuantity | src/app/pages/user/POS.tsx:155-163 | Only the product's line changes, and only its quantity. The new quantity is the request clamped to [0, stock]; 0 keeps the line. The cart invariant is preserved. |
| Cart.GetTotal | src/app/pages/user/POS.tsx:165-167 | With non-negative prices and quantities the cart total is non-negative. Its exact change under an add or a quantity update is stated by `Cart.AddToCartRaisesTotal` and `Cart.TotalUpdate`. |
| Cart.TotalUpdate | src/app/pages/user/POS.tsx:165-167 | Replacing one line changes the total by exactly the difference of that line's price × quantity. |
| Cart.GetChange | src/app/pages/user/POS.tsx:169-173 | The change is never negative. It is 0 exactly when the payment (0 if unreadable) does not exceed the total, and otherwise the payment minus the total. |
| Cart.Requests | src/app/pages/user/POS.tsx:236-239 | One request line per cart line, with the same product id and quantity. |
| Cart.HandleSale | src/app/pages/user/POS.tsx:223-280 | An unreadable or short payment shows "Insufficient payment" without calling the server. Otherwise: on success the cart and payment are cleared, the success banner is shown and the sale id kept; on failure the cart and database are unchanged and the server's message is shown. |
| Cart.CartTotalIsOrderTotal | src/app/pages/user/POS.tsx:229-241 | When the cart's products are the catalog's rows, the register's total equals the total the server computes for the same lines. |
| Cart.CheckedCartIsAccepted | src/app/pages/user/POS.tsx:223-275 | A cart that keeps the invariant, holds current catalog rows, and passes the payment check is accepted for any cashier. Exactly one sale at the cart's total is recorded, and the cart is emptied. |
| Dashboard.EffectiveRole | src/app/pages/Dashboard.tsx:40 | The user's role, or WORKER when there is no user or no role. |
| Dashboard.Cards | src/app/pages/Dashboard.tsx:172-225 | POS comes first. A card is shown exactly when the role table lets the role use that card's page, so the client's cards agree with the server's guards. |
| Dashboard.ComputeMetrics | src/app/pages/Dashboard.tsx:97-102 | "Total Sales" is the sum of the sale totals, and "Items Sold" the sum of all line quantities: the same sums the sales report uses. The transaction count is the number of sales. The average is 0 for no sales, and otherwise average × count = total. |
| Dashboard.Recent | src/app/pages/Dashboard.tsx:146 | The first min(5, n) sales of the list. |
| Dashboard.Load | src/app/pages/Dashboard.tsx:38-65 | No user: no sales and no error. An admitted user sees exactly today's sales. A present but refused user sees none, with "Not authorized". Every shown sale is from today, and the recent list is no older than the rest. |
| Dashboard.MetricsAgreeWithReport | src/app/pages/Dashboard.tsx:97-102 | For a manager or admin, "Total Sales Today" and "Items Sold" equal the sales report's sums over the same day, with inclusive bounds [start, start + one day − 1 ms]. |

## Left out

- Concurrency: two `createSale` calls interleaving between the stock read and the batch write. Operations are atomic steps on a database value, so the lost-update race of the absolute stock writes is not modelled.
- Storage failures: the `catch` branches of every server operation ("Failed to …" messages, and the raw exception message in `createSale`). No operation here can fail in storage.
- Floating-point money: prices and payments are integers in minor units. `toFixed(2)` formatting and `parseFloat` are not modelled beyond "a number or not".
- The local-time day window: `setHours(0,0,0,0)` and `setDate(+1)` are modelled as a 24-hour window from a given day start. Days of 23 or 25 hours are not modelled.
- Tie order: among sales with the same creation time, the database's order is unspecified. `Reports.SortNewestFirst` picks one.
- Relation includes: products inside sale items, and the cashier's username. A sale item holds the product id.
- Product, setting and user maintenance bodies (create, update, delete, list), registration, login and logout. Only their guards are modelled (`Schema.Guarded`).
- Receipt printing and the print-failure banner: printing does not affect the sale's outcome.
- The dashboard's settings fetch (currency symbol) and its catch-all "Failed to load data".
- The POS page's product and sales reloads after a sale, and the submit button disabled on an empty cart (POS.tsx line 403). `Checkout.EmptyCartAccepted` shows what the server does without that guard.
- Cart.AddToCartKeepsInvariant: assumes the cart's copy of a product equals the listed one. The product list is reloaded only after a sale, which empties the cart.
