/** The order engine of `backend/routes/orders.js`: POST `/` (resolve the
    customer by phone, write the order and its items, sell the stock) and
    DELETE `/:id` (restore the stock, then cascade the delete). */
module Orders {
  import opened Wrappers
  import opened Store
  import opened Schema
  import opened Stock
  import opened Customers

  /** The request body of POST `/api/orders`; absent strings are empty. */
  datatype OrderRequest = OrderRequest(
    customerName: string,
    customerPhone: string,
    customerEmail: string,
    customerAddress: string,
    items: seq<Line>,
    notes: string)

  /** A successful creation: the new state, `orderId` and `customerId`. */
  datatype Placed = Placed(db: Db, orderId: Id, customerId: Id)

  /** `'ORD-' + Date.now()`: the prefix, then the clock's decimal digits. */
  function OrderNumber(now: Time): (r: string)
    ensures |r| > 4 && r[..4] == "ORD-"
    ensures forall k :: 4 <= k < |r| ==> '0' <= r[k] <= '9'
  {
    "ORD-" + Decimal(now)
  }

  /** The digits after the prefix read back as the clock. */
  lemma OrderNumberReadsBack(now: Time)
    ensures DigitsValue(OrderNumber(now)[4..]) == now
  {
    DecimalReadsBack(now);
    assert OrderNumber(now)[4..] == Decimal(now);
  }

  /** Orders placed at different milliseconds get different numbers. */
  lemma OrderNumbersDistinct(a: Time, b: Time)
    requires a != b
    ensures OrderNumber(a) != OrderNumber(b)
  {
    OrderNumberReadsBack(a);
    OrderNumberReadsBack(b);
  }

  /** `after` is `before` followed by one item row per line, in order, each
      owned by `parent`, stamped `now` and given a fresh id. */
  predicate AppendsLines(before: Table<LineItem>, after: Table<LineItem>, parent: Id, lines: seq<Line>, now: Time) {
    && |after| == |before| + |lines|
    && after[..|before|] == before
    && (forall k :: 0 <= k < |lines| ==>
          after[|before| + k].data == LineItem(parent, lines[k])
          && after[|before| + k].createdAt == now && after[|before| + k].updatedAt == now)
    && FreshFrom(after, |before|)
  }

  /** One `insert` per line, in order. */
  function AppendLines(t: Table<LineItem>, parent: Id, lines: seq<Line>, now: Time): (r: Table<LineItem>)
    ensures AppendsLines(t, r, parent, lines, now)
    decreases |lines|
  {
    if |lines| == 0 then
      assert t[..|t|] == t;
      t
    else
      var ins := Insert(t, LineItem(parent, lines[0]), now);
      var rest := AppendLines(ins.table, parent, lines[1..], now);
      AppendsLinesStep(t, ins.table, rest, parent, lines, now);
      assert AppendsLines(t, rest, parent, lines, now);
      rest
  }

  /** One insert followed by the appends of the remaining lines appends all
      the lines. */
  lemma AppendsLinesStep(t: Table<LineItem>, mid: Table<LineItem>, r: Table<LineItem>, parent: Id, lines: seq<Line>, now: Time)
    requires |lines| > 0
    requires mid == t + [Row(NextId(t), LineItem(parent, lines[0]), now, now)]
    requires AppendsLines(mid, r, parent, lines[1..], now)
    ensures AppendsLines(t, r, parent, lines, now)
  {
    assert r[..|t|] == t by {
      assert r[..|t|] == r[..|mid|][..|t|];
    }
    forall k | 0 <= k < |lines|
      ensures r[|t| + k].data == LineItem(parent, lines[k])
              && r[|t| + k].createdAt == now && r[|t| + k].updatedAt == now
    {
      if k == 0 {
        assert r[|t|] == r[..|mid|][|t|];
      } else {
        assert lines[k] == lines[1..][k - 1];
        assert r[|t| + k] == r[|mid| + (k - 1)];
      }
    }
    forall k | |t| <= k < |r|
      ensures !HasId(r[..k], r[k].id)
    {
      if k == |t| {
        assert r[|t|] == r[..|mid|][|t|];
        assert r[|t|].id == NextId(t);
        assert r[..k] == t;
      } else {
        assert k >= |mid|;
        assert FreshFrom(r, |mid|);
        assert !HasId(r[..k], r[k].id);
      }
    }
    assert FreshFrom(r, |t|);
  }

  /** The loop of step 5 as the route runs it: insert the line's item, then
      bump its product. Items and products are distinct tables, so this is
      all the inserts followed by all the stock updates. */
  function PlaceLines(db: Db, parent: Id, lines: seq<Line>, now: Time): (r: Db)
    ensures r == db.(orderItems := AppendLines(db.orderItems, parent, lines, now),
                     products := AdjustSold(db.products, lines, Sell, now))
    decreases |lines|
  {
    if |lines| == 0 then db
    else
      var withItem := db.(orderItems := Insert(db.orderItems, LineItem(parent, lines[0]), now).table);
      var bumped := withItem.(products := Bump(withItem.products, lines[0].productId, lines[0].quantity, now));
      PlaceLines(bumped, parent, lines[1..], now)
  }

  /** The shape shared by order creation and pre-order conversion: one
      order row appended under the next id, one item row per line owned by
      it, and the lines' quantities sold. */
  predicate OrderWritten(db: Db, after: Db, oid: Id, lines: seq<Line>, now: Time) {
    && oid == NextId(db.orders)
    && |after.orders| == |db.orders| + 1
    && after.orders[..|db.orders|] == db.orders
    && after.orders[|db.orders|].id == oid
    && AppendsLines(db.orderItems, after.orderItems, oid, lines, now)
    && OnlySoldChanged(db.products, after.products)
    && SoldMovedBy(db.products, after.products, lines, Sell)
  }

  /** What a successful POST `/` did to the state. */
  predicate OrderPlaced(db: Db, req: OrderRequest, now: Time, p: Placed) {
    var resolved := FindOrCreate(db.customers, req.customerName, req.customerPhone, req.customerEmail, req.customerAddress, now);
    && p.customerId == resolved.id
    && p.db.customers == resolved.customers
    && p.db.orders == db.orders + [Row(p.orderId, Order(OrderNumber(now), p.customerId, req.customerName, Total(req.items), req.notes), now, now)]
    && OrderWritten(db, p.db, p.orderId, req.items, now)
    && p.db.categories == db.categories
    && p.db.preorders == db.preorders
    && p.db.preorderItems == db.preorderItems
  }

  /** POST `/`. A missing phone throws before any write (the route answers
      500 with the message). Otherwise the customer is found or created,
      the order is written with `total_amount` the sum of the supplied
      subtotals (not quantity × price), one item row copies each line, and
      each line's product, when it exists, sells the line's quantity. */
  function CreateOrder(db: Db, req: OrderRequest, now: Time): (r: Result<Placed, Error>)
    ensures r.Failure? <==> req.customerPhone == ""
    ensures r.Failure? ==> r.error == ServerError("Customer phone is required")
    ensures r.Success? ==> OrderPlaced(db, req, now, r.value)
  {
    if req.customerPhone == "" then Failure(ServerError("Customer phone is required"))
    else
      var resolved := FindOrCreate(db.customers, req.customerName, req.customerPhone, req.customerEmail, req.customerAddress, now);
      var ins := Insert(db.orders, Order(OrderNumber(now), resolved.id, req.customerName, Total(req.items), req.notes), now);
      var written := db.(customers := resolved.customers, orders := ins.table);
      Success(Placed(PlaceLines(written, ins.id, req.items, now), ins.id, resolved.id))
  }

  /** DELETE `/:id`: each item of the order gives its quantity back to its
      product (when the product exists), then the items and the order row
      are deleted. An absent order is not an error. */
  function DeleteOrder(db: Db, id: Id, now: Time): (r: Db)
    ensures OnlySoldChanged(db.products, r.products)
    ensures SoldMovedBy(db.products, r.products, LinesOf(ItemsOf(db.orderItems, id)), Restore)
    ensures forall k :: 0 <= k < |r.orderItems| ==> r.orderItems[k] in db.orderItems && r.orderItems[k].data.parentId != id
    ensures forall k :: 0 <= k < |db.orderItems| && !HasId(ItemsOf(db.orderItems, id), db.orderItems[k].id) ==>
      db.orderItems[k] in r.orderItems
    ensures !HasId(r.orders, id)
    ensures forall k :: 0 <= k < |r.orders| ==> r.orders[k] in db.orders
    ensures forall k :: 0 <= k < |db.orders| && db.orders[k].id != id ==> db.orders[k] in r.orders
    ensures r.customers == db.customers && r.categories == db.categories
    ensures r.preorders == db.preorders && r.preorderItems == db.preorderItems
  {
    var items := ItemsOf(db.orderItems, id);
    var restored := AdjustSold(db.products, LinesOf(items), Restore, now);
    var remaining := DeleteEach(db.orderItems, items);
    assert forall j :: 0 <= j < |db.orderItems| && db.orderItems[j].data.parentId == id ==>
      HasId(items, db.orderItems[j].id) by {
      forall j | 0 <= j < |db.orderItems| && db.orderItems[j].data.parentId == id
        ensures HasId(items, db.orderItems[j].id)
      {
        assert db.orderItems[j] in items;
      }
    }
    db.(products := restored, orderItems := remaining, orders := DeleteRow(db.orders, id).table)
  }

  /** Every product row is back to what it was (its update stamp aside). */
  predicate StockRestored(before: Table<Product>, after: Table<Product>) {
    && |after| == |before|
    && forall i :: 0 <= i < |before| ==>
         after[i].id == before[i].id && after[i].data == before[i].data && after[i].createdAt == before[i].createdAt
  }

  /** The items a delete finds for a freshly written order are exactly the
      rows just appended, carrying the lines in order. */
  lemma WrittenItemsFound(t: Table<LineItem>, s: Table<LineItem>, oid: Id, lines: seq<Line>, now: Time)
    requires AppendsLines(t, s, oid, lines, now)
    requires forall k :: 0 <= k < |t| ==> t[k].data.parentId != oid
    ensures ItemsOf(s, oid) == s[|t|..]
    ensures LinesOf(s[|t|..]) == lines
  {
    var added := s[|t|..];
    assert s == t + added;
    QueryAppend(t, added, ChildOf(oid));
    QueryDropsAll(t, ChildOf(oid));
    AppendedAreChildren(t, s, oid, lines, now);
    QueryKeepsAll(added, ChildOf(oid));
  }

  /** The rows appended for an order are its children and carry its lines
      in order. */
  lemma AppendedAreChildren(t: Table<LineItem>, s: Table<LineItem>, oid: Id, lines: seq<Line>, now: Time)
    requires AppendsLines(t, s, oid, lines, now)
    ensures forall k :: 0 <= k < |s[|t|..]| ==> ChildOf(oid)(s[|t|..][k])
    ensures LinesOf(s[|t|..]) == lines
  {
    var added := s[|t|..];
    forall k | 0 <= k < |added|
      ensures ChildOf(oid)(added[k]) && added[k].data.line == lines[k]
    {
      assert added[k] == s[|t| + k];
      assert s[|t| + k].data == LineItem(oid, lines[k]);
    }
  }

  /** Selling lines and then restoring the same lines leaves every product
      row as it was, its update stamp aside. */
  lemma SoldThenRestored(p0: Table<Product>, p1: Table<Product>, p2: Table<Product>, lines: seq<Line>)
    requires OnlySoldChanged(p0, p1) && SoldMovedBy(p0, p1, lines, Sell)
    requires OnlySoldChanged(p1, p2) && SoldMovedBy(p1, p2, lines, Restore)
    ensures StockRestored(p0, p2)
  {
    SameIdsSameFirst(p0, p1);
  }

  /** Deleting a freshly written order restores the orders, the order items
      and every product row (its update stamp aside). */
  lemma WrittenThenDeleted(db: Db, after: Db, oid: Id, lines: seq<Line>, t1: Time, t2: Time)
    requires OrdersWellFormed(db)
    requires OrderWritten(db, after, oid, lines, t1)
    ensures var back := DeleteOrder(after, oid, t2);
      && back.orders == db.orders
      && back.orderItems == db.orderItems
      && StockRestored(db.products, back.products)
  {
    var back := DeleteOrder(after, oid, t2);
    DeleteAppended(db.orders, after.orders, oid);
    assert forall k :: 0 <= k < |db.orderItems| ==> db.orderItems[k].data.parentId != oid;
    AppendedItemsDeleted(db.orderItems, after.orderItems, oid, lines, t1);
    SoldThenRestored(db.products, after.products, back.products, lines);
  }

  /** A delete finds exactly the item rows just appended for a new parent,
      carrying its lines, and removing them gives back the items as they
      were. */
  lemma AppendedItemsDeleted(t: Table<LineItem>, s: Table<LineItem>, parent: Id, lines: seq<Line>, now: Time)
    requires AppendsLines(t, s, parent, lines, now)
    requires forall k :: 0 <= k < |t| ==> t[k].data.parentId != parent
    ensures ItemsOf(s, parent) == s[|t|..]
    ensures LinesOf(ItemsOf(s, parent)) == lines
    ensures DeleteEach(s, ItemsOf(s, parent)) == t
  {
    WrittenItemsFound(t, s, parent, lines, now);
    DeleteEachFresh(s, |t|);
  }

  /** Creating an order and then deleting it restores the orders, the order
      items and every product's `sold_items`; only the customer lookup's
      effect (a new or refreshed customer) remains. */
  lemma CreateThenDelete(db: Db, req: OrderRequest, t1: Time, t2: Time)
    requires OrdersWellFormed(db)
    requires req.customerPhone != ""
    ensures var p := CreateOrder(db, req, t1).value;
      var back := DeleteOrder(p.db, p.orderId, t2);
      && back.orders == db.orders
      && back.orderItems == db.orderItems
      && StockRestored(db.products, back.products)
      && back.customers == p.db.customers
  {
    var p := CreateOrder(db, req, t1).value;
    WrittenThenDeleted(db, p.db, p.orderId, req.items, t1, t2);
  }

  /** Deleting an order that does not exist changes nothing. */
  lemma DeleteMissingOrder(db: Db, id: Id, now: Time)
    requires OrdersWellFormed(db)
    requires !HasId(db.orders, id)
    ensures DeleteOrder(db, id, now) == db
  {
    QueryDropsAll(db.orderItems, ChildOf(id));
    DeleteRowAbsent(db.orders, id);
  }

  /** Appending one parent row and item rows owned by it keeps every item
      row attached to an existing parent. */
  lemma AppendedAttached<T>(parents: Table<T>, parents2: Table<T>, items: Table<LineItem>, items2: Table<LineItem>,
                            pid: Id, lines: seq<Line>, now: Time)
    requires forall k :: 0 <= k < |items| ==> HasId(parents, items[k].data.parentId)
    requires |parents2| == |parents| + 1 && parents2[..|parents|] == parents && parents2[|parents|].id == pid
    requires AppendsLines(items, items2, pid, lines, now)
    ensures forall k :: 0 <= k < |items2| ==> HasId(parents2, items2[k].data.parentId)
  {
    forall k | 0 <= k < |items2|
      ensures HasId(parents2, items2[k].data.parentId)
    {
      if k < |items| {
        assert items2[k] == items2[..|items|][k];
        var j :| 0 <= j < |parents| && parents[j].id == items[k].data.parentId;
        assert parents2[j] == parents2[..|parents|][j];
      } else {
        var m := k - |items|;
        assert items2[|items| + m].data == LineItem(pid, lines[m]);
      }
    }
  }

  /** Writing an order keeps every item row attached to an existing order. */
  lemma WrittenWellFormed(db: Db, after: Db, oid: Id, lines: seq<Line>, now: Time)
    requires OrdersWellFormed(db)
    requires OrderWritten(db, after, oid, lines, now)
    ensures OrdersWellFormed(after)
  {
    AppendedAttached(db.orders, after.orders, db.orderItems, after.orderItems, oid, lines, now);
  }

  /** Creation keeps every item row attached to an existing order. */
  lemma CreateOrderWellFormed(db: Db, req: OrderRequest, now: Time)
    requires WellFormed(db)
    requires req.customerPhone != ""
    ensures WellFormed(CreateOrder(db, req, now).value.db)
  {
    var p := CreateOrder(db, req, now).value;
    WrittenWellFormed(db, p.db, p.orderId, req.items, now);
  }

  /** Deletion keeps every item row attached to an existing order. */
  lemma DeleteOrderWellFormed(db: Db, id: Id, now: Time)
    requires WellFormed(db)
    ensures WellFormed(DeleteOrder(db, id, now))
  {
    var r := DeleteOrder(db, id, now);
    forall k | 0 <= k < |r.orderItems|
      ensures HasId(r.orders, r.orderItems[k].data.parentId)
    {
      var parent := r.orderItems[k].data.parentId;
      var j :| 0 <= j < |db.orderItems| && db.orderItems[j] == r.orderItems[k];
      var o :| 0 <= o < |db.orders| && db.orders[o].id == parent;
      assert db.orders[o] in r.orders;
    }
  }

  /** A new order counts once, for its own customer. */
  lemma CreateOrderCountsOnce(db: Db, req: OrderRequest, now: Time, cid: Id)
    requires req.customerPhone != ""
    ensures var p := CreateOrder(db, req, now).value;
      OrderCount(p.db.orders, cid) == OrderCount(db.orders, cid) + (if cid == p.customerId then 1 else 0)
  {
    var p := CreateOrder(db, req, now).value;
    OrderCountAppend(db.orders, p.db.orders[|db.orders|], cid);
  }
}
