# Hey Potu point of sale — a Dafny model of the record store, order engine and carts

Hey Potu is a small point-of-sale app. Its back end keeps products,
categories, customers, orders, pre-orders and their item rows as sheets of a
spreadsheet workbook, behind a five-operation record store:
- `getAll`, `getById`, `insert`, `update`, `deleteRow`;
- plus `query`, a filter over a sheet.

Its routes are built on that store:
- placing an order finds or creates the customer by phone, writes the order
  and one item row per cart line, and sells each line's quantity off the
  product's stock;
- deleting an order gives the stock back;
- a pre-order is booked without touching stock and converted into an order
  later ("kick to sell");
- the catalog and category routes guard creation and deletion;
- the report routes summarise sales, stock and customers.

Its two front-end pages keep a cart of lines. The sales page holds each
line within the product's remaining stock. The pre-order page has no stock
bound.

This project models that core as pure Dafny functions over immutable tables.
It proves what each route and page does and the properties that tie them
together:
- creating then deleting an order gives the stock back;
- booking then converting a pre-order sells exactly the booked lines;
- item rows stay attached to an existing order or pre-order;
- category names stay unique;
- the reports count, sum, sort and cut what they claim to;
- a sales cart kept within a fresh listing's stock can never check out into
  negative remaining stock.

Modules, one file each:

| module | models |
|---|---|
| `Wrappers` | `Option` and `Result` |
| `Store` | `backend/config/database.js`: tables of rows with ids and stamps |
| `Schema` | the records of the seven sheets, the route error answers, line totals |
| `Sorting` | the stable descending sort and `slice(0, n)` the reports use; sums over sequences |
| `Stock` | `sold_items` moved up (sale) or down (restore) by a list of lines |
| `Customers` | `backend/routes/customers.js` and the find-or-create-by-phone step of the order routes |
| `Orders` | `backend/routes/orders.js`: create and delete |
| `Preorders` | `backend/routes/preorders.js`: book, kick to sell, delete |
| `Products` | `backend/routes/products.js` |
| `Categories` | `backend/routes/categories.js`: create and delete |
| `Reports` | `backend/routes/reports.js` |
| `Cart` | the cart edits both pages share |
| `SaleCart` | the cart and checkout of `frontend/src/pages/Orders.jsx` |
| `PreorderCart` | the cart and checkout of `frontend/src/pages/PreOrders.jsx` |

**Modelling choices.**
- Clocks, `Math.random` and the email service are parameters:
  - `now` for timestamps;
  - `random` for the generated serial number;
  - a boolean saying whether an email was attempted.
- Money is an `int` in the currency's smallest unit.
- A number missing from a row reads as 0, as `|| 0` does.

**Behaviour the model keeps as the code has it:**
- `deleteRow` reports `changes: 1` even when no row matched.
- Order rows carry no status field.
- Kick-to-sell does not check the pre-order's status (see Findings).
- PUT on a product or customer whose id is absent answers 500, because
  `update` throws. The routes' `changes === 0` → 404 branch is never
  reached.
- The order route sends no email; only the pre-order routes do.

## Model

| member | source | states |
|---|---|---|
| Store.IndexOf | backend/config/database.js:71-77 | finds an index exactly when some row has the id, and then the first such row |
| Store.MaxId | backend/config/database.js:52 | an upper bound of every id that, on a non-empty table, is some row's id |
| Store.NextId | backend/config/database.js:52 | the new id is at least 1, above every id in the sheet, and so never in use |
| Store.GetAll | backend/config/database.js:35-41 | a missing sheet reads as an empty table, an existing one as its rows |
| Store.GetById | backend/config/database.js:44-47 | absent exactly when no row has the id, otherwise the first row with it |
| Store.Insert | backend/config/database.js:50-68 | appends one row with the next id and both stamps `now`, keeps every earlier row, reports one change |
| Store.Update | backend/config/database.js:71-90 | fails with "Record not found" exactly when the id is absent; otherwise patches only the first row with the id, keeping id and creation stamp |
| Store.Query | backend/config/database.js:105-108 | keeps exactly the rows the filter accepts, and no more rows than the table has |
| Store.DeleteRow | backend/config/database.js:93-102 | removes every row with the id and keeps every other row; reports one change even when nothing matched |
| Store.DeleteRowAbsent | backend/config/database.js:93-102 | deleting an absent id leaves the table unchanged |
| Store.QueryAppend | backend/config/database.js:105-108 | filtering distributes over concatenation |
| Store.DeleteAppended | backend/config/database.js:50-68 | deleting the row just inserted gives back the table before the insert |
| Store.FoundAppended | backend/config/database.js:44-47 | `getById` of the id just inserted finds the inserted row |
| Store.FoundSameIds | backend/config/database.js:71-90 | an update that keeps every id keeps which row `getById` reaches |
| Store.DeleteEach | backend/routes/orders.js:183-186 | deleting a list of rows one by one keeps exactly the rows whose ids are not in the list |
| Store.DeleteEachFresh | backend/routes/orders.js:183-186 | deleting rows appended with fresh ids gives back the table before them |
| Store.QueryCounts | backend/config/database.js:105-108 | the number of rows a filter keeps is the count of rows that satisfy it |
| Store.CountWherePositive | backend/config/database.js:105-108 | that count is positive exactly when some row satisfies the filter |
| Store.CountWhereSplit | backend/routes/reports.js:17-20 | a count over a disjoint union of filters is the sum of the counts |
| Store.MissingSheetStartsAtOne | backend/config/database.js:52 | the first row inserted into a missing sheet gets id 1 |
| Schema.TotalAppend | backend/routes/orders.js:98 | the summed subtotals of two line lists add up |
| Schema.Total | backend/routes/orders.js:98 | the summed subtotals: 0 for no lines, never negative when no subtotal is |
| Schema.ItemsOf | backend/routes/orders.js:183 | keeps exactly the item rows of the given order |
| Sorting.SortDesc | backend/routes/reports.js:37 | sorted by descending key and a permutation of the input |
| Sorting.SortDescStable | backend/routes/customers.js:18 | the sort is stable: the elements with the same key come out in the order they went in |
| Sorting.Take | backend/routes/reports.js:38 | the first `min(n, length)` elements |
| Sorting.TopOfSorted | backend/routes/reports.js:37-38 | the top n after sorting come from the input, each no more often than it occurs there, and stay sorted; anything left out is no bigger than every one kept (and then n were kept); ties keep input order |
| Sorting.SumByPermutation | backend/routes/reports.js:132 | a sum over a permutation is the same sum |
| Stock.Bump | backend/routes/orders.js:118-126 | changes only `sold_items`, and only of the first row with the product id, by the signed quantity |
| Stock.AdjustSold | backend/routes/orders.js:112-128 | only `sold_items` changes, each product's first row moving by the signed total quantity its lines name |
| Stock.SellThenRestore | backend/routes/orders.js:170-180 | selling lines then restoring the same lines gives back every `sold_items` |
| Stock.AdjustSoldPerProduct | backend/routes/orders.js:118-126 | per product, the move equals the summed quantity of its lines |
| Stock.QtyOfAppend | backend/routes/orders.js:112-128 | quantities of a product add up over concatenated line lists |
| Customers.FindOrCreate | backend/routes/orders.js:74-92 | with no customer of the phone, appends one with the input fields; otherwise keeps every row except the first row with the matched customer's id, whose fields are replaced only by non-empty inputs |
| Customers.FindOrCreateResolvesPhone | backend/routes/orders.js:74-92 | the resolved customer carries the phone, and is the first row with it |
| Customers.FindOrCreateIsStable | backend/routes/orders.js:74-92 | resolving the same phone again finds the same customer and appends nothing |
| Customers.CreateCustomer | backend/routes/customers.js:84-100 | appends the customer with a fresh id that `getById` then finds |
| Customers.UpdateCustomer | backend/routes/customers.js:104-126 | 500 exactly when the id is absent; otherwise the first row with it takes all four fields in one update and the others are unchanged |
| Customers.UpdateThenGet | backend/routes/customers.js:108-119 | after an update, `getById` answers the new fields under the old creation stamp |
| Customers.DeleteCustomer | backend/routes/customers.js:129-144 | 404 exactly when absent; otherwise the id is gone and every other row stays |
| Customers.CreateThenDeleteCustomer | backend/routes/customers.js:84-144 | deleting the customer just created gives back the directory |
| Customers.OrderCount | backend/routes/customers.js:12-15 | at most the number of orders, and zero exactly when the customer placed none |
| Customers.OrderCountAppend | backend/routes/customers.js:12-15 | a new order raises exactly its customer's count by one |
| Customers.ListCustomers | backend/routes/customers.js:6-25 | every customer once with its order count, newest first; customers created at the same time keep sheet order |
| Customers.OrderIdsOf | backend/routes/customers.js:37-38 | exactly the ids of the customer's orders |
| Customers.PurchasedIds | backend/routes/customers.js:41-44 | exactly the product ids on the items of those orders |
| Customers.Distinct | backend/routes/customers.js:44 | the same members without repeats |
| Customers.PurchasedProducts | backend/routes/customers.js:37-48 | a name is listed exactly when it names a product the customer bought that still exists |
| Customers.NamesOf | backend/routes/customers.js:45-48 | a name per id whose product exists, so the list is as long as the count of found ids, and a name is listed exactly when some id's product carries it |
| Customers.PurchasedProductsOnePerProduct | backend/routes/customers.js:37-48 | the list holds exactly one name per distinct product the customer bought that still exists, a set read directly off the item rows of the customer's orders |
| Orders.AppendLines | backend/routes/orders.js:112-117 | appends one item row per line, in order, each with a fresh id and the order as parent |
| Orders.OrderNumber | backend/routes/orders.js:95 | "ORD-" followed by decimal digits only |
| Orders.OrderNumberReadsBack | backend/routes/orders.js:95 | the digits after "ORD-" read back as the clock |
| Orders.OrderNumbersDistinct | backend/routes/orders.js:95 | orders placed at different milliseconds get different numbers |
| Schema.DecimalReadsBack | backend/routes/orders.js:95 | the printed digits of a clock reading read back as the same number, with no leading zero except in "0" |
| Orders.CreateOrder | backend/routes/orders.js:64-139 | fails exactly when the phone is missing; otherwise resolves the customer, appends the order with the summed subtotals, writes the items and sells the lines, touching nothing else |
| Orders.DeleteOrder | backend/routes/orders.js:165-196 | restores the stock of the order's lines, removes its items and the order row, and leaves customers, categories and pre-orders alone |
| Orders.WrittenItemsFound | backend/routes/orders.js:183 | after creation the new order's items are exactly the rows just appended, carrying the request's lines |
| Orders.SoldThenRestored | backend/routes/orders.js:170-180 | a sale followed by the restore of the same lines gives back every product |
| Orders.CreateThenDelete | backend/routes/orders.js:64-196 | deleting the order just created gives back products, orders and items |
| Orders.DeleteMissingOrder | backend/routes/orders.js:165-196 | deleting an absent order changes nothing |
| Orders.CreateOrderWellFormed | backend/routes/orders.js:101-128 | creation keeps every item row attached to an existing order |
| Orders.DeleteOrderWellFormed | backend/routes/orders.js:183-189 | deletion keeps every item row attached to an existing order |
| Orders.CreateOrderCountsOnce | backend/routes/orders.js:101-107 | creation raises the resolved customer's order count by one and nobody else's |
| Preorders.CreatePreorder | backend/routes/preorders.js:65-156 | fails exactly when the phone is missing; otherwise books a pending pre-order with the summed subtotals and its items, never touches stock or orders, and attempts an email exactly when one was given |
| Preorders.KickToSell | backend/routes/preorders.js:160-249 | 404 exactly when absent; otherwise writes the order and sells the pre-order's item lines as order creation does, and marks the first row with the id converted |
| Preorders.ConversionNotes | backend/routes/preorders.js:183 | with notes, "[From Pre-order ", the number, "] ", then the notes, every character accounted for; without, "From Pre-order " then the number |
| Preorders.ConversionNotesInjective | backend/routes/preorders.js:183 | when the pre-order numbers contain no "]" (they are "PRE-" and digits), the number and the notes can both be read back from the tagged text |
| Preorders.KickToSellOnce | backend/routes/preorders.js:160-214 | the corrected conversion: also refuses a converted pre-order, otherwise as above |
| Preorders.ConvertOnce | backend/routes/preorders.js:160-214 | with the status check, after a successful conversion a second one is refused |
| Preorders.GotEmail | backend/routes/preorders.js:220-243 | the email is attempted exactly when the pre-order's customer is found with an email |
| Preorders.DeletePreorder | backend/routes/preorders.js:290-308 | removes the pre-order and its items and touches no other sheet |
| Preorders.BookThenConvert | backend/routes/preorders.js:65-249 | converting a just-booked pre-order succeeds, with or without the status check, and writes an order for the booked customer and amount whose items are the booked lines |
| Preorders.ConvertTwiceSellsTwice | backend/routes/preorders.js:160-214 | as written, converting twice succeeds twice, writes two orders and sells the lines twice |
| Preorders.BookThenDelete | backend/routes/preorders.js:65-156 | deleting the pre-order just booked gives back pre-orders and items |
| Preorders.DeleteMissingPreorder | backend/routes/preorders.js:290-308 | deleting an absent pre-order changes nothing |
| Preorders.CreatePreorderWellFormed | backend/routes/preorders.js:103-124 | booking keeps every item row attached |
| Preorders.KickToSellWellFormed | backend/routes/preorders.js:178-214 | conversion keeps every item row attached |
| Preorders.KickToSellOnceWellFormed | backend/routes/preorders.js:178-214 | the guarded conversion keeps every item row attached |
| Preorders.DeletePreorderWellFormed | backend/routes/preorders.js:290-308 | deletion keeps every item row attached |
| Products.ListProducts | backend/routes/products.js:6-17 | every row in sheet order with `remaining_items` = total stock − sold |
| Schema.GetOr404 | backend/routes/products.js:20-34 | 404 with the route's message ("Product not found" here, "Customer not found" at `backend/routes/customers.js:67-81`) exactly when absent, otherwise the first row with the id |
| Products.NewProduct | backend/routes/products.js:41-57 | the inserted record: the serial or a generated one, the copied fields, `unit \|\| 'pcs'`, `total_stock \|\| 0`, `price \|\| 0`, nothing sold |
| Products.CreateProduct | backend/routes/products.js:37-65 | appends the product with the next id and answers the row `getById` finds; a given serial is kept and a missing one generated; code, name and category are copied; unit defaults to "pcs", stock and price to 0; nothing is sold, so all stock remains |
| Products.UpdateProduct | backend/routes/products.js:68-93 | 500 exactly when absent; otherwise the first row with the id takes the request's fields and keeps `sold_items` and the other rows |
| Products.UpdateKeepsSold | backend/routes/products.js:73-81 | no edit moves any product's sold count |
| Products.DeleteProduct | backend/routes/products.js:96-111 | 404 exactly when absent; otherwise the id is gone and every other row stays |
| Products.CreateThenDeleteProduct | backend/routes/products.js:37-111 | deleting the product just created gives back the catalog |
| Products.LowStock | backend/routes/products.js:114-130 | exactly the products with remaining stock above 0 and at most the threshold (10 by default) |
| Products.LowStockCount | backend/routes/products.js:114-130 | one entry per low row of the sheet: the list is as long as the count of such rows |
| Products.OrderLowersRemaining | backend/routes/orders.js:118-126 | an order lowers each product's remaining stock by exactly the quantity ordered and never touches total stock |
| Categories.CreateCategory | backend/routes/categories.js:21-43 | 400 for an empty name, 409 for a name in use, otherwise appends the category; only categories change |
| Categories.CreateKeepsNamesUnique | backend/routes/categories.js:30-36 | creation keeps category names unique |
| Categories.DeleteCategory | backend/routes/categories.js:46-73 | 404 when absent, 409 with the count when products are filed under the name, otherwise removes the category and only it |
| Categories.InUseIffFiled | backend/routes/categories.js:57-64 | a delete is refused exactly when some product is filed under the name |
| Categories.DeleteKeepsNamesUnique | backend/routes/categories.js:46-73 | deletion keeps category names unique |
| Reports.LowStockCount | backend/routes/reports.js:17-20 | counts the products with at most 10 remaining |
| Reports.LowStockCountSplits | backend/routes/reports.js:17-20 | the dashboard's count is the low-stock alert list plus the products with nothing (or less) remaining |
| Reports.JoinAll | backend/routes/reports.js:29-36 | each order once, in order, with its customer's name when the customer exists |
| Reports.RecentOrders | backend/routes/reports.js:29-38 | the five newest orders (all when fewer), newest first, none shown more often than it is in the sheet; any order left out is no newer than every order shown; orders with the same time keep sheet order |
| Reports.SoldIds | backend/routes/reports.js:41-49 | exactly the product ids on some order item, in ascending order without repeats |
| Reports.TopProducts | backend/routes/reports.js:41-60 | at most five sellers of existing products, biggest first, none repeated beyond the ranking; a seller left out sold no more than every one shown; equal sellers keep ascending id order |
| Reports.TopSellersShown | backend/routes/reports.js:50-60 | the five shown sell sold products, and a sold product left out sold no more than each of them |
| Reports.OrderRaisesSummedQuantity | backend/routes/reports.js:42-47 | a new order raises each product's summed quantity by the quantity it orders |
| Reports.Inventory | backend/routes/reports.js:77-86 | every product with remaining = stock − sold, total value = stock × price and revenue = sold × price, so total value − revenue = remaining × price |
| Reports.OrderRaisesRevenue | backend/routes/reports.js:83-85 | placing an order raises each product's revenue by the quantity ordered times its price and keeps its total value |
| Reports.SaleRaisesRevenue | backend/routes/reports.js:83-85 | a stock step that moves only `sold_items` moves revenue by quantity × price and keeps total value |
| Reports.Window | backend/routes/reports.js:105-116 | all orders unless both dates are given, and then exactly those inside them, ends included |
| Reports.Sales | backend/routes/reports.js:99-148 | the window's orders newest first, with same-time orders in sheet order, their count, the sum of their amounts, and their average |
| Reports.Average | backend/routes/reports.js:133 | 0 with no orders, otherwise the value that times the count gives the total |
| Reports.SortedTotal | backend/routes/reports.js:128-132 | sorting and joining keep the summed amount of the window |
| Reports.CustomerReport | backend/routes/reports.js:150-176 | every customer once with order count and total spent, biggest spender first; equal spenders keep sheet order |
| Reports.CreateOrderRaisesSpend | backend/routes/reports.js:155-158 | a new order raises its customer's spend by its total and nobody else's |
| Reports.Dashboard | backend/routes/reports.js:6-75 | the three counts are the sheet sizes; the low-stock count, recent orders and top products are those of `LowStockCount`, `RecentOrders` and `TopProducts` |
| Reports.OrderShownOnDashboard | backend/routes/reports.js:8-38 | placing an order counts one more order, and an order newer than every earlier one is among the recent orders |
| Reports.NewestShown | backend/routes/reports.js:29-38 | an order newer than every other is among the five recent orders |
| Cart.FindLine | frontend/src/pages/Orders.jsx:74 | finds the first line of the product, and nothing exactly when the cart has none |
| Cart.QtyOfOneLine | frontend/src/pages/Orders.jsx:74-76 | on a cart with one line per product, the units held are that line's quantity |
| Cart.AddKeepsShape | frontend/src/pages/Orders.jsx:74-93 | adding keeps one priced line of at least one unit per product |
| Cart.AddCount | frontend/src/pages/PreOrders.jsx:63-80 | adding puts exactly one more unit of the product in the cart and leaves the others |
| Cart.AddTotal | frontend/src/pages/Orders.jsx:80-92 | adding raises the total by the line's unit price, or by the product's price for a new line |
| Cart.SetKeepsShape | frontend/src/pages/PreOrders.jsx:86-93 | setting a positive quantity keeps the cart's shape |
| Cart.SetCount | frontend/src/pages/PreOrders.jsx:88-92 | setting a quantity makes the cart hold exactly that many of a product it has, and leaves the others |
| Cart.RemoveKeepsOthers | frontend/src/pages/Orders.jsx:96-98 | removal drops the product's lines and keeps every other line |
| Cart.RemoveKeepsShape | frontend/src/pages/Orders.jsx:96-98 | removal keeps the cart's shape |
| Cart.RemoveProduct | frontend/src/pages/Orders.jsx:96-98 | no line of the product stays and the cart does not grow |
| Cart.RemoveTotal | frontend/src/pages/Orders.jsx:96-98 | removal lowers the total by the product's line subtotal |
| Cart.PricedTotal | frontend/src/pages/Orders.jsx:386 | on a priced cart the summed subtotals equal quantity × unit price summed |
| SaleCart.ShelfIndex | frontend/src/pages/Orders.jsx:102 | finds the first listed product with the id, and nothing exactly when none is listed |
| SaleCart.AddToSale | frontend/src/pages/Orders.jsx:69-94 | an out-of-stock product leaves the cart as it is; a product not yet in the cart is added; otherwise the cart is unchanged or gains one unit |
| SaleCart.SaleAddCount | frontend/src/pages/Orders.jsx:69-94 | an add is accepted exactly when the cart holds fewer units than remain, and then adds one unit of that product only |
| SaleCart.SaleAddKeepsStock | frontend/src/pages/Orders.jsx:69-94 | adding a listed product keeps the cart within stock |
| SaleCart.UpdateSaleQuantity | frontend/src/pages/Orders.jsx:100-112 | the lines keep their products; a quantity below one, an unlisted product or a quantity above the remaining stock change nothing; otherwise exactly the product's line takes the quantity |
| SaleCart.SaleUpdateCount | frontend/src/pages/Orders.jsx:100-112 | a quantity change takes effect exactly when it is at least one and within the remaining stock |
| SaleCart.SaleUpdateKeepsStock | frontend/src/pages/Orders.jsx:100-112 | a quantity change keeps the cart within stock |
| SaleCart.SaleRemoveKeepsStock | frontend/src/pages/Orders.jsx:96-98 | removal keeps the cart within stock |
| SaleCart.CheckoutSale | frontend/src/pages/Orders.jsx:114-136 | refuses an empty cart, a missing phone and a missing name, in that order; otherwise sends the cart as items |
| SaleCart.CheckoutPlacesOrder | frontend/src/pages/Orders.jsx:114-136 | a request the page sends is accepted by the order route and its order total is the cart total shown |
| SaleCart.NoOversell | frontend/src/pages/Orders.jsx:69-112 | checking out a cart kept within a fresh listing's stock leaves no product in it below zero remaining, and the others as they were |
| SaleCart.HeldWithinRemaining | frontend/src/pages/Orders.jsx:76 | such a cart holds of each product no more than its first row has remaining |
| PreorderCart.AddToPreorder | frontend/src/pages/PreOrders.jsx:63-80 | one new line for a product not in the cart, none otherwise, and the product is then held |
| PreorderCart.PreorderAddCount | frontend/src/pages/PreOrders.jsx:63-80 | every add is accepted and adds one unit of the product only, keeping the cart's shape |
| PreorderCart.UpdatePreorderQuantity | frontend/src/pages/PreOrders.jsx:86-93 | the lines keep their products; a quantity below one changes nothing; otherwise exactly the product's line takes the quantity |
| PreorderCart.PreorderUpdateCount | frontend/src/pages/PreOrders.jsx:86-93 | a quantity change takes effect exactly when it is at least one, with no upper bound |
| PreorderCart.CheckoutPreorder | frontend/src/pages/PreOrders.jsx:99-118 | refuses an empty cart and a missing phone, lets a missing name through |
| PreorderCart.CheckoutBooksPreorder | frontend/src/pages/PreOrders.jsx:99-118 | a request the page sends books a pending pre-order with the total shown and moves no stock |

## Left out

- Spreadsheet file I/O: loading and saving the workbook. Each sheet is a table held in memory.
- The database variants other than the spreadsheet store.
- Email sending, PDF and invoice rendering: the routes' attempt is a boolean, its result is dropped.
- The UI rendering.
- Login.
- Concurrency: the app is single-process, and two requests never interleave in the model.
- The GET routes that only join rows for display:
  - orders and pre-orders by id and as lists;
  - the pre-order invoice.
- The order PUT route (`backend/routes/orders.js:141-161`): it writes `status` and `notes`, and it is the only writer of an order's status. Order rows in the model carry no status, so the route is not modelled.
- Reports.Inventory: the report is sorted by item name with `localeCompare` (`backend/routes/reports.js:89`). Locale collation is not modelled, so the report keeps sheet order.
- The category list sorts by name with `localeCompare` (`backend/routes/categories.js:11`). That list is a display-only GET route, like those above.
- The pre-order list sorts by `preorder_date`, a field no pre-order row carries. That list is one of the display-only GET routes above.
- PreorderCart.UpdatePreorderQuantity: the quantity input passes `parseInt(e.target.value)` (`frontend/src/pages/PreOrders.jsx:317`). An emptied field gives `NaN`, `NaN < 1` is false, and the line's quantity and subtotal become `NaN`. The model takes an integer quantity, so this case is not covered.
- Orders.CreateOrder: a POST with no `items` throws at `items.reduce` (`backend/routes/orders.js:98`). That is after the customer was found or created, so the route answers 500 and the customer write stays. The request in the model always carries a list of lines, possibly empty.
- JavaScript coercions:
  - `==` against `===` on ids;
  - `parseInt` of query strings;
  - string-valued numbers from the sheet.

  Ids and numbers are integers throughout, and the low-stock threshold arrives already parsed.
- Reports.Window: the date bounds arrive already parsed as clock readings. The route builds them with `new Date(...)` (`backend/routes/reports.js:108-114`). An unparseable date gives an invalid date, every comparison with it is false, and the report is empty. The model does not cover that case.
- Floating point: money is an integer count of the smallest currency unit. Only the average order value is a real.
- Products.CreateProduct: the random part of a generated serial is a parameter. Its 1000–9999 range is not enforced.
- Products.UpdateProduct: a PUT writes absent fields as absent. The model writes them as empty strings and 0, which is how the rest of the app reads a missing value.
- Customers.UpdateCustomer: likewise, a PUT writes absent fields as absent, and the model writes them as empty strings.
- SaleCart.UpdateSaleQuantity: a product id missing from the listing makes the page's handler throw. The model leaves the cart unchanged, which is what the page shows.
- SaleCart.NoOversell: the guarantee assumes the page's listing is fresh. Stock sold by another request after the listing was fetched is concurrency, which is out of scope.

## Findings

| source | as written | input that shows it | evidently intended | confidence | as-written member | corrected member |
|---|---|---|---|---|---|---|
| backend/routes/preorders.js:160-214 | kick-to-sell never reads the pre-order's status, so a converted pre-order converts again | any pre-order converted once, then posted to `/:id/kick-to-sell` again: a second order is written and its lines are sold twice | a pre-order goes pending → converted once; a second conversion is refused and writes nothing | high (not executed) | Preorders.ConvertTwiceSellsTwice | Preorders.ConvertOnce |
