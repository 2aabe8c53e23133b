/** The read-only aggregations of `backend/routes/reports.js`: the dashboard
    (low-stock count, recent orders, top products), the inventory valuation,
    the sales summary and the per-customer spend. */
module Reports {
  import opened Wrappers
  import opened Store
  import opened Schema
  import opened Stock
  import opened Sorting
  import opened Customers
  import opened Products
  import opened Orders

  /* ---------------- Low stock ---------------- */

  /** Products whose remaining stock is at most `limit`. */
  function RemainingAtMost(limit: int): Row<Product> -> bool {
    (row: Row<Product>) => Remaining(row.data) <= limit
  }

  /** The dashboard's `lowStockCount`: products with at most 10 remaining,
      those out of stock (or oversold) included. */
  function LowStockCount(products: Table<Product>): (n: nat)
    ensures n == CountWhere(products, RemainingAtMost(10))
    ensures n <= |products|
  {
    QueryCounts(products, RemainingAtMost(10));
    |Query(products, RemainingAtMost(10))|
  }

  /** The dashboard counts more than the low-stock alert lists: its count is
      the alert's products plus those with nothing (or less) remaining. */
  lemma LowStockCountSplits(products: Table<Product>)
    ensures LowStockCount(products) == |LowStock(products, None)| + CountWhere(products, RemainingAtMost(0))
  {
    QueryCounts(products, LowAt(10));
    CountWhereSplit(products, RemainingAtMost(10), LowAt(10), RemainingAtMost(0));
  }

  /* ---------------- Order listings ---------------- */

  /** An order with the `customer_name` of `customers.find(c => c.id ===
      o.customer_id)`, `null` when there is none. */
  datatype Joined = Joined(order: Row<Order>, customerName: Option<string>)

  function Join(customers: Table<Customer>, o: Row<Order>): Joined {
    match GetById(customers, o.data.customerId)
    case None => Joined(o, None)
    case Some(c) => Joined(o, Some(c.data.name))
  }

  /** `orders.map(o => ({...o, customer_name}))`. */
  function JoinAll(orders: Table<Order>, customers: Table<Customer>): (r: seq<Joined>)
    ensures |r| == |orders|
    ensures forall k :: 0 <= k < |orders| ==> r[k] == Join(customers, orders[k])
  {
    if |orders| == 0 then [] else [Join(customers, orders[0])] + JoinAll(orders[1..], customers)
  }

  function JoinedCreated(j: Joined): int {
    j.order.createdAt
  }

  /** A joined row comes from some order of the table. */
  predicate JoinedFrom(j: Joined, orders: Table<Order>, customers: Table<Customer>) {
    exists i :: 0 <= i < |orders| && j == Join(customers, orders[i])
  }

  /** The dashboard's `recentOrders`: the five newest orders, newest first,
      each with its customer's name. No order is shown more often than it
      is in the sheet; an order left out is no newer than every order shown,
      and then five are shown; orders created at the same time keep sheet
      order. */
  function RecentOrders(orders: Table<Order>, customers: Table<Customer>): (r: seq<Joined>)
    ensures |r| == if |orders| < 5 then |orders| else 5
    ensures SortedDesc(r, JoinedCreated)
    ensures multiset(r) <= multiset(JoinAll(orders, customers))
    ensures forall k :: 0 <= k < |r| ==> JoinedFrom(r[k], orders, customers)
    ensures forall v :: WithKey(r, JoinedCreated, v) <= WithKey(JoinAll(orders, customers), JoinedCreated, v)
    ensures forall i :: 0 <= i < |orders| && Join(customers, orders[i]) !in r ==>
      |r| == 5 && forall k :: 0 <= k < |r| ==> r[k].order.createdAt >= orders[i].createdAt
  {
    var joined := JoinAll(orders, customers);
    TopOfSorted(joined, JoinedCreated, 5);
    JoinedAllFrom(orders, customers);
    Take(SortDesc(joined, JoinedCreated), 5)
  }

  /** The joined rows are exactly the joins of the orders. */
  lemma JoinedAllFrom(orders: Table<Order>, customers: Table<Customer>)
    ensures forall j :: j in JoinAll(orders, customers) ==> JoinedFrom(j, orders, customers)
    ensures forall i :: 0 <= i < |orders| ==> Join(customers, orders[i]) in JoinAll(orders, customers)
  {
    var joined := JoinAll(orders, customers);
    forall j | j in joined
      ensures JoinedFrom(j, orders, customers)
    {
      var i :| 0 <= i < |joined| && joined[i] == j;
    }
    forall i | 0 <= i < |orders|
      ensures Join(customers, orders[i]) in joined
    {
      assert joined[i] == Join(customers, orders[i]);
    }
  }

  /* ---------------- Top products ---------------- */

  predicate StrictlyAscending(s: seq<Id>) {
    forall i, j :: 0 <= i < j < |s| ==> s[i] < s[j]
  }

  /** Adds `x` to an ascending list of distinct ids. */
  function InsertAsc(x: Id, s: seq<Id>): (r: seq<Id>)
    requires StrictlyAscending(s)
    ensures StrictlyAscending(r)
    ensures forall y :: y in r <==> y == x || y in s
  {
    if |s| == 0 then [x]
    else if x < s[0] then [x] + s
    else if x == s[0] then s
    else
      var rest := InsertAsc(x, s[1..]);
      assert forall y :: y in s <==> y == s[0] || y in s[1..];
      assert forall k :: 0 <= k < |rest| ==> s[0] < rest[k] by {
        forall k | 0 <= k < |rest|
          ensures s[0] < rest[k]
        {
          assert rest[k] in rest;
          if rest[k] != x {
            var j :| 0 <= j < |s[1..]| && s[1..][j] == rest[k];
            assert s[j + 1] == rest[k];
          }
        }
      }
      [s[0]] + rest
  }

  /** The product ids of the items have a sale. */
  predicate Sold(items: Table<LineItem>, pid: Id) {
    exists k :: 0 <= k < |items| && items[k].data.line.productId == pid
  }

  /** The keys of `productSales` in the order `Object.entries` yields them:
      each product id with an item once, ascending (integer-like keys come
      out in numeric order). */
  function SoldIds(items: Table<LineItem>): (r: seq<Id>)
    ensures StrictlyAscending(r)
    ensures forall pid :: pid in r <==> Sold(items, pid)
  {
    if |items| == 0 then []
    else
      var init := items[..|items| - 1];
      var last := items[|items| - 1];
      assert forall pid :: Sold(items, pid) <==> Sold(init, pid) || last.data.line.productId == pid by {
        forall pid
          ensures Sold(items, pid) <==> Sold(init, pid) || last.data.line.productId == pid
        {
          if Sold(init, pid) {
            var k :| 0 <= k < |init| && init[k].data.line.productId == pid;
            assert items[k] == init[k];
          }
          if Sold(items, pid) && last.data.line.productId != pid {
            var k :| 0 <= k < |items| && items[k].data.line.productId == pid;
            assert init[k] == items[k];
          }
        }
      }
      InsertAsc(last.data.line.productId, SoldIds(init))
  }

  /** A row of `topProducts`. */
  datatype Seller = Seller(itemName: string, itemCategory: string, soldItems: int)

  function SellerKey(s: Seller): int {
    s.soldItems
  }

  /** The entry for one key: the product `find` reaches with its summed
      quantity, or `null` for an id with no product. */
  function SellerOf(products: Table<Product>, items: Table<LineItem>, pid: Id): Option<Seller> {
    match GetById(products, pid)
    case None => None
    case Some(p) => Some(Seller(p.data.itemName, p.data.itemCategory, QtyOf(LinesOf(items), pid)))
  }

  /** `map(…).filter(p => p !== null)` over the keys. */
  function Sellers(products: Table<Product>, items: Table<LineItem>, pids: seq<Id>): (r: seq<Seller>)
    ensures forall s :: s in r <==> exists k :: 0 <= k < |pids| && SellerOf(products, items, pids[k]) == Some(s)
  {
    if |pids| == 0 then []
    else
      var rest := Sellers(products, items, pids[1..]);
      assert forall k :: 1 <= k < |pids| ==> pids[k] == pids[1..][k - 1];
      assert forall s :: s in rest ==> exists k :: 0 <= k < |pids| && SellerOf(products, items, pids[k]) == Some(s) by {
        forall s | s in rest
          ensures exists k :: 0 <= k < |pids| && SellerOf(products, items, pids[k]) == Some(s)
        {
          var k :| 0 <= k < |pids[1..]| && SellerOf(products, items, pids[1..][k]) == Some(s);
          assert pids[k + 1] == pids[1..][k];
        }
      }
      match SellerOf(products, items, pids[0])
      case None => rest
      case Some(s) => [s] + rest
  }

  /** The dashboard's `topProducts`: at most five products, best-selling
      first, each with the summed quantity of its order items; ids with no
      product are dropped. No entry is shown more often than it is ranked;
      a product left out sold no more than every one shown, and then five
      are shown; products that sold the same keep ascending id order. */
  function TopProducts(products: Table<Product>, items: Table<LineItem>): (r: seq<Seller>)
    ensures |r| <= 5
    ensures SortedDesc(r, SellerKey)
    ensures multiset(r) <= multiset(Sellers(products, items, SoldIds(items)))
    ensures forall v :: WithKey(r, SellerKey, v) <= WithKey(Sellers(products, items, SoldIds(items)), SellerKey, v)
    ensures forall k :: 0 <= k < |r| ==> exists pid :: Sold(items, pid) && SellerOf(products, items, pid) == Some(r[k])
    ensures forall pid :: Sold(items, pid) && SellerOf(products, items, pid).Some? && SellerOf(products, items, pid).value !in r ==>
      |r| == 5 && forall k :: 0 <= k < |r| ==> r[k].soldItems >= QtyOf(LinesOf(items), pid)
  {
    var sellers := Sellers(products, items, SoldIds(items));
    TopOfSorted(sellers, SellerKey, 5);
    TopSellersShown(products, items);
    Take(SortDesc(sellers, SellerKey), 5)
  }

  /** The top five are sellers of sold products, and a sold product left
      out sold no more than every one shown. */
  lemma TopSellersShown(products: Table<Product>, items: Table<LineItem>)
    ensures var r := Take(SortDesc(Sellers(products, items, SoldIds(items)), SellerKey), 5);
      && (forall k :: 0 <= k < |r| ==> exists pid :: Sold(items, pid) && SellerOf(products, items, pid) == Some(r[k]))
      && (forall pid :: Sold(items, pid) && SellerOf(products, items, pid).Some? && SellerOf(products, items, pid).value !in r ==>
            |r| == 5 && forall k :: 0 <= k < |r| ==> r[k].soldItems >= QtyOf(LinesOf(items), pid))
  {
    var sellers := Sellers(products, items, SoldIds(items));
    SellersAreSold(products, items);
    TopOfSorted(sellers, SellerKey, 5);
  }

  /** The entries ranked are exactly those of the sold ids that have a
      product. */
  lemma SellersAreSold(products: Table<Product>, items: Table<LineItem>)
    ensures var sellers := Sellers(products, items, SoldIds(items));
      forall s :: s in sellers <==> exists pid :: Sold(items, pid) && SellerOf(products, items, pid) == Some(s)
  {
    var ids := SoldIds(items);
    var sellers := Sellers(products, items, ids);
    forall s | s in sellers
      ensures exists pid :: Sold(items, pid) && SellerOf(products, items, pid) == Some(s)
    {
      var j :| 0 <= j < |ids| && SellerOf(products, items, ids[j]) == Some(s);
      assert ids[j] in ids;
    }
    forall s | exists pid :: Sold(items, pid) && SellerOf(products, items, pid) == Some(s)
      ensures s in sellers
    {
      var pid :| Sold(items, pid) && SellerOf(products, items, pid) == Some(s);
      var j :| 0 <= j < |ids| && ids[j] == pid;
    }
  }

  /** The lines of a concatenation of item rows are the concatenated lines. */
  lemma LinesOfAppend(a: Table<LineItem>, b: Table<LineItem>)
    ensures LinesOf(a + b) == LinesOf(a) + LinesOf(b)
  {
  }

  /** Placing an order raises every product's summed quantity, the figure
      `topProducts` ranks by, by exactly the quantity ordered of it: the
      same amount its `sold_items` rises by. */
  lemma OrderRaisesSummedQuantity(db: Db, req: OrderRequest, now: Time, pid: Id)
    requires req.customerPhone != ""
    ensures var after := CreateOrder(db, req, now).value.db;
      QtyOf(LinesOf(after.orderItems), pid) == QtyOf(LinesOf(db.orderItems), pid) + QtyOf(req.items, pid)
  {
    var p := CreateOrder(db, req, now).value;
    AppendedRaisesQty(db.orderItems, p.db.orderItems, p.orderId, req.items, now, pid);
  }

  /** Appending item rows for some lines adds those lines' quantities. */
  lemma AppendedRaisesQty(t: Table<LineItem>, s: Table<LineItem>, parent: Id, lines: seq<Line>, now: Time, pid: Id)
    requires AppendsLines(t, s, parent, lines, now)
    ensures QtyOf(LinesOf(s), pid) == QtyOf(LinesOf(t), pid) + QtyOf(lines, pid)
  {
    var n := |t|;
    assert s == t + s[n..];
    LinesOfAppend(t, s[n..]);
    assert LinesOf(s[n..]) == lines by {
      forall k | 0 <= k < |lines|
        ensures LinesOf(s[n..])[k] == lines[k]
      {
        assert s[n..][k] == s[n + k];
      }
    }
    QtyOfAppend(LinesOf(t), lines, pid);
  }

  /* ---------------- Inventory ---------------- */

  /** A row of the inventory report. */
  datatype Valued = Valued(row: Row<Product>, remaining: int, totalValue: int, revenue: int)

  function Value(row: Row<Product>): Valued {
    Valued(row, Remaining(row.data), row.data.totalStock * row.data.price, row.data.soldItems * row.data.price)
  }

  /** GET `/inventory`: every product with its remaining stock, the value
      of its whole stock and the revenue of what was sold; the value not yet
      sold is what remains times the price. */
  function Inventory(products: Table<Product>): (r: seq<Valued>)
    ensures |r| == |products|
    ensures forall i :: 0 <= i < |products| ==> r[i].row == products[i]
    ensures forall i :: 0 <= i < |products| ==>
      && r[i].remaining == products[i].data.totalStock - products[i].data.soldItems
      && r[i].totalValue == products[i].data.totalStock * products[i].data.price
      && r[i].revenue == products[i].data.soldItems * products[i].data.price
    ensures forall i :: 0 <= i < |products| ==> r[i].totalValue - r[i].revenue == r[i].remaining * products[i].data.price
  {
    var r := seq(|products|, i requires 0 <= i < |products| => Value(products[i]));
    forall i | 0 <= i < |products|
      ensures r[i].totalValue - r[i].revenue == r[i].remaining * products[i].data.price
    {
      var p := products[i].data;
      assert p.totalStock * p.price - p.soldItems * p.price == (p.totalStock - p.soldItems) * p.price;
    }
    r
  }

  /** Placing an order raises each product's revenue by the quantity
      ordered of it times its price, and leaves the value of its stock as it
      was. */
  lemma OrderRaisesRevenue(db: Db, req: OrderRequest, now: Time)
    requires req.customerPhone != ""
    ensures var before := Inventory(db.products);
      var after := Inventory(CreateOrder(db, req, now).value.db.products);
      && |after| == |before|
      && forall i :: 0 <= i < |before| ==>
           && after[i].totalValue == before[i].totalValue
           && after[i].revenue == before[i].revenue +
                (if FirstWithId(db.products, i) then QtyOf(req.items, db.products[i].id) * db.products[i].data.price else 0)
  {
    var p := CreateOrder(db, req, now).value;
    assert OrderWritten(db, p.db, p.orderId, req.items, now);
    SaleRaisesRevenue(db.products, p.db.products, req.items);
  }

  /** The stock step of a sale, valued: only `sold_items` moves, so the
      stock value stays and the revenue moves by quantity times price. */
  lemma SaleRaisesRevenue(before: Table<Product>, after: Table<Product>, lines: seq<Line>)
    requires OnlySoldChanged(before, after) && SoldMovedBy(before, after, lines, Sell)
    ensures var b := Inventory(before);
      var a := Inventory(after);
      && |a| == |b|
      && forall i :: 0 <= i < |b| ==>
           && a[i].totalValue == b[i].totalValue
           && a[i].revenue == b[i].revenue +
                (if FirstWithId(before, i) then QtyOf(lines, before[i].id) * before[i].data.price else 0)
  {
    var b := Inventory(before);
    var a := Inventory(after);
    forall i | 0 <= i < |b|
      ensures a[i].totalValue == b[i].totalValue
      ensures a[i].revenue == b[i].revenue +
                (if FirstWithId(before, i) then QtyOf(lines, before[i].id) * before[i].data.price else 0)
    {
      var p := before[i].data;
      var q := if FirstWithId(before, i) then QtyOf(lines, before[i].id) else 0;
      assert after[i].data == p.(soldItems := p.soldItems + q);
      assert (p.soldItems + q) * p.price == p.soldItems * p.price + q * p.price;
    }
  }

  /* ---------------- Sales ---------------- */

  /** `(order.total_amount || 0)` summed. */
  function Amount(j: Joined): int {
    j.order.data.totalAmount
  }

  /** The sum of the orders' `total_amount`, in table order. */
  function AmountOf(orders: Table<Order>): int {
    if |orders| == 0 then 0 else orders[0].data.totalAmount + AmountOf(orders[1..])
  }

  /** Joining names changes no amount. */
  lemma {:induction false} JoinKeepsAmounts(orders: Table<Order>, customers: Table<Customer>)
    ensures SumBy(JoinAll(orders, customers), Amount) == AmountOf(orders)
  {
    if |orders| > 0 {
      JoinKeepsAmounts(orders[1..], customers);
      assert JoinAll(orders, customers)[1..] == JoinAll(orders[1..], customers);
    }
  }

  /** The window `orderDate >= start && orderDate <= end`, inclusive. */
  function Between(start: Time, end: Time): Row<Order> -> bool {
    (o: Row<Order>) => start <= o.createdAt <= end
  }

  /** An order passes the date filter: always, unless both bounds are given,
      and then when it falls inside them, both ends included. */
  predicate InWindow(o: Row<Order>, startDate: Option<Time>, endDate: Option<Time>) {
    startDate.Some? && endDate.Some? ==> startDate.value <= o.createdAt <= endDate.value
  }

  /** The orders the report keeps. */
  function Window(orders: Table<Order>, startDate: Option<Time>, endDate: Option<Time>): (r: Table<Order>)
    ensures forall k :: 0 <= k < |r| ==> r[k] in orders && InWindow(r[k], startDate, endDate)
    ensures forall i :: 0 <= i < |orders| && InWindow(orders[i], startDate, endDate) ==> orders[i] in r
  {
    if startDate.Some? && endDate.Some? then Query(orders, Between(startDate.value, endDate.value))
    else orders
  }

  datatype SalesReport = SalesReport(orders: seq<Joined>, totalOrders: nat, totalSales: int, averageOrderValue: real)

  /** GET `/sales`: the orders in the window, newest first, with their
      customer names, their count, the sum of their amounts and the average
      amount, 0 when there are none. */
  function Sales(orders: Table<Order>, customers: Table<Customer>, startDate: Option<Time>, endDate: Option<Time>): (r: SalesReport)
    ensures var kept := Window(orders, startDate, endDate);
      && multiset(r.orders) == multiset(JoinAll(kept, customers))
      && r.totalOrders == |kept|
      && r.totalSales == AmountOf(kept)
    ensures SortedDesc(r.orders, JoinedCreated)
    ensures SameTies(r.orders, JoinAll(Window(orders, startDate, endDate), customers), JoinedCreated)
    ensures r.averageOrderValue == Average(r.totalSales, r.totalOrders)
  {
    var kept := Window(orders, startDate, endDate);
    var sales := SortDesc(JoinAll(kept, customers), JoinedCreated);
    SortDescStableAll(JoinAll(kept, customers), JoinedCreated);
    var total := SumBy(sales, Amount);
    SortedTotal(kept, customers);
    SalesReport(sales, |sales|, total, Average(total, |sales|))
  }

  /** `totalOrders > 0 ? totalSales / totalOrders : 0`. */
  function Average(total: int, n: nat): (a: real)
    ensures n == 0 ==> a == 0.0
    ensures n > 0 ==> a * (n as real) == total as real
  {
    if n > 0 then
      AverageTimesCount(total, n);
      total as real / n as real
    else 0.0
  }

  /** Summing the sorted, joined rows sums the orders' amounts. */
  lemma SortedTotal(kept: Table<Order>, customers: Table<Customer>)
    ensures SumBy(SortDesc(JoinAll(kept, customers), JoinedCreated), Amount) == AmountOf(kept)
  {
    var joined := JoinAll(kept, customers);
    SumByPermutation(SortDesc(joined, JoinedCreated), joined, Amount);
    JoinKeepsAmounts(kept, customers);
  }

  /** `totalSales / totalOrders` times the count gives back the total. */
  lemma AverageTimesCount(total: int, n: nat)
    requires n > 0
    ensures (total as real / n as real) * (n as real) == total as real
  {
  }

  /* ---------------- Customer report ---------------- */

  /** A row of the customer report. */
  datatype Spender = Spender(customer: Row<Customer>, totalOrders: nat, totalSpent: int)

  function SpentKey(s: Spender): int {
    s.totalSpent
  }

  /** The sum of the amounts of the customer's orders. */
  function SpentBy(orders: Table<Order>, cid: Id): int {
    AmountOf(Query(orders, PlacedBy(cid)))
  }

  function Spenders(customers: Table<Customer>, orders: Table<Order>): (r: seq<Spender>)
    ensures |r| == |customers|
    ensures forall k :: 0 <= k < |customers| ==>
      r[k] == Spender(customers[k], OrderCount(orders, customers[k].id), SpentBy(orders, customers[k].id))
  {
    if |customers| == 0 then []
    else [Spender(customers[0], OrderCount(orders, customers[0].id), SpentBy(orders, customers[0].id))] + Spenders(customers[1..], orders)
  }

  /** GET `/customers`: every customer once with its order count and total
      spend, biggest spender first; customers who spent the same keep sheet
      order. */
  function CustomerReport(customers: Table<Customer>, orders: Table<Order>): (r: seq<Spender>)
    ensures |r| == |customers|
    ensures multiset(r) == multiset(Spenders(customers, orders))
    ensures SortedDesc(r, SpentKey)
    ensures SameTies(r, Spenders(customers, orders), SpentKey)
    ensures Figured(r, customers, orders)
  {
    var spenders := Spenders(customers, orders);
    SortedSpendersFigures(customers, orders);
    SortDescStableAll(spenders, SpentKey);
    SortDesc(spenders, SpentKey)
  }

  /** Each row is a customer of the sheet with its own order count and
      spend. */
  predicate Figured(r: seq<Spender>, customers: Table<Customer>, orders: Table<Order>) {
    forall k :: 0 <= k < |r| ==>
      r[k].customer in customers
      && r[k].totalOrders == OrderCount(orders, r[k].customer.id)
      && r[k].totalSpent == SpentBy(orders, r[k].customer.id)
  }

  /** Sorting moves rows but keeps each customer's figures with it. */
  lemma SortedSpendersFigures(customers: Table<Customer>, orders: Table<Order>)
    ensures Figured(SortDesc(Spenders(customers, orders), SpentKey), customers, orders)
  {
    var spenders := Spenders(customers, orders);
    var r := SortDesc(spenders, SpentKey);
    forall k | 0 <= k < |r|
      ensures r[k] in spenders
    {
      assert r[k] in multiset(spenders);
    }
  }

  /** Amounts add up over concatenation. */
  lemma {:induction false} AmountOfAppend(a: Table<Order>, b: Table<Order>)
    ensures AmountOf(a + b) == AmountOf(a) + AmountOf(b)
  {
    if |a| == 0 {
      assert a + b == b;
    } else {
      assert (a + b)[1..] == a[1..] + b;
      AmountOfAppend(a[1..], b);
    }
  }

  /** Placing an order raises its customer's spend by the order's total and
      nobody else's. */
  lemma CreateOrderRaisesSpend(db: Db, req: OrderRequest, now: Time, cid: Id)
    requires req.customerPhone != ""
    ensures var p := CreateOrder(db, req, now).value;
      SpentBy(p.db.orders, cid) == SpentBy(db.orders, cid) + (if cid == p.customerId then Total(req.items) else 0)
  {
    var p := CreateOrder(db, req, now).value;
    var o := p.db.orders[|db.orders|];
    assert p.db.orders == db.orders + [o];
    QueryAppend(db.orders, [o], PlacedBy(cid));
    assert [o][1..] == [];
    AmountOfAppend(Query(db.orders, PlacedBy(cid)), Query([o], PlacedBy(cid)));
  }

  /* ---------------- Dashboard ---------------- */

  datatype Stats = Stats(
    totalProducts: nat,
    lowStockCount: nat,
    totalOrders: nat,
    totalCustomers: nat,
    recentOrders: seq<Joined>,
    topProducts: seq<Seller>)

  /** GET `/dashboard`: the three sheet sizes, the low-stock count and the
      two top-five lists. */
  function Dashboard(db: Db): (r: Stats)
    ensures r.totalProducts == |db.products| && r.totalOrders == |db.orders| && r.totalCustomers == |db.customers|
    ensures r.lowStockCount == LowStockCount(db.products)
    ensures r.recentOrders == RecentOrders(db.orders, db.customers)
    ensures r.topProducts == TopProducts(db.products, db.orderItems)
    ensures r.lowStockCount <= r.totalProducts
    ensures |r.recentOrders| <= 5 && |r.topProducts| <= 5
    ensures r.totalOrders > 0 ==> |r.recentOrders| > 0
  {
    Stats(|db.products|, LowStockCount(db.products), |db.orders|, |db.customers|,
          RecentOrders(db.orders, db.customers), TopProducts(db.products, db.orderItems))
  }

  /** Placing an order counts one more order on the dashboard, and an order
      newer than every earlier one is among the recent orders shown. */
  lemma OrderShownOnDashboard(db: Db, req: OrderRequest, now: Time)
    requires req.customerPhone != ""
    requires forall i :: 0 <= i < |db.orders| ==> db.orders[i].createdAt < now
    ensures var p := CreateOrder(db, req, now).value;
      var d := Dashboard(p.db);
      && d.totalOrders == |db.orders| + 1
      && d.totalProducts == |db.products|
      && exists k :: 0 <= k < |d.recentOrders| && d.recentOrders[k].order.id == p.orderId
  {
    var p := CreateOrder(db, req, now).value;
    assert OrderPlaced(db, req, now, p);
    var o := p.db.orders[|db.orders|];
    assert p.db.orders == db.orders + [o];
    NewestShown(db.orders, o, p.db.customers);
  }

  /** An order newer than every earlier one is among the five recent
      orders. */
  lemma NewestShown(orders: Table<Order>, o: Row<Order>, customers: Table<Customer>)
    requires forall i :: 0 <= i < |orders| ==> orders[i].createdAt < o.createdAt
    ensures exists k :: 0 <= k < |RecentOrders(orders + [o], customers)| && RecentOrders(orders + [o], customers)[k].order == o
  {
    var all := orders + [o];
    var r := RecentOrders(all, customers);
    var j := Join(customers, o);
    assert all[|orders|] == o;
    if j !in r {
      assert JoinedFrom(r[0], all, customers);
      var i :| 0 <= i < |all| && r[0] == Join(customers, all[i]);
      if i < |orders| {
        assert false;
      }
      assert false;
    }
    var k :| 0 <= k < |r| && r[k] == j;
  }
}
