/** The pre-order engine of `backend/routes/preorders.js`: POST `/` (book a
    pending pre-order; stock is not touched), POST `/:id/kick-to-sell`
    (copy the pre-order into a new order and sell its lines) and DELETE
    `/:id` (cascade the delete; stock is not touched). */
module Preorders {
  import opened Wrappers
  import opened Store
  import opened Schema
  import opened Stock
  import opened Customers
  import opened Orders

  /** A successful POST `/`: the new state, `preorderId`, `customerId` and
      `emailSent`. */
  datatype Booked = Booked(db: Db, preorderId: Id, customerId: Id, emailSent: bool)

  /** A successful conversion: the new state, `orderId`, `orderNumber` and
      `emailSent`. */
  datatype Kicked = Kicked(db: Db, orderId: Id, orderNumber: string, emailSent: bool)

  /** `'PRE-' + Date.now()`. */
  function PreorderNumber(now: Time): string {
    "PRE-" + Decimal(now)
  }

  /** What a successful POST `/` did to the state. */
  predicate PreorderBooked(db: Db, req: OrderRequest, now: Time, b: Booked) {
    var resolved := FindOrCreate(db.customers, req.customerName, req.customerPhone, req.customerEmail, req.customerAddress, now);
    && b.customerId == resolved.id
    && b.db.customers == resolved.customers
    && b.preorderId == NextId(db.preorders)
    && b.db.preorders == db.preorders + [Row(b.preorderId, Preorder(PreorderNumber(now), b.customerId, req.customerName, Total(req.items), Pending, None, req.notes), now, now)]
    && AppendsLines(db.preorderItems, b.db.preorderItems, b.preorderId, req.items, now)
    && b.db.products == db.products
    && b.db.orders == db.orders && b.db.orderItems == db.orderItems
    && b.db.categories == db.categories
    && (b.emailSent <==> req.customerEmail != "")
  }

  /** POST `/`. A missing phone throws before any write. Otherwise the
      customer is found or created as for an order, the pre-order is written
      as pending with `total_amount` the sum of the supplied subtotals, and
      one item row copies each line. The confirmation email is attempted
      exactly when an email was supplied; its failure changes nothing. */
  function CreatePreorder(db: Db, req: OrderRequest, now: Time): (r: Result<Booked, Error>)
    ensures r.Failure? <==> req.customerPhone == ""
    ensures r.Failure? ==> r.error == ServerError("Customer phone is required")
    ensures r.Success? ==> PreorderBooked(db, req, now, r.value)
  {
    if req.customerPhone == "" then Failure(ServerError("Customer phone is required"))
    else
      var resolved := FindOrCreate(db.customers, req.customerName, req.customerPhone, req.customerEmail, req.customerAddress, now);
      var ins := Insert(db.preorders, Preorder(PreorderNumber(now), resolved.id, req.customerName, Total(req.items), Pending, None, req.notes), now);
      var items := AppendLines(db.preorderItems, ins.id, req.items, now);
      Success(Booked(db.(customers := resolved.customers, preorders := ins.table, preorderItems := items),
                     ins.id, resolved.id, req.customerEmail != ""))
  }

  /** The notes of the order a conversion writes: the pre-order's notes
      tagged with its number, or the bare tag when it has none. */
  function ConversionNotes(number: string, notes: string): (r: string)
    ensures notes != "" ==> |r| == 18 + |number| + |notes| && r[..16] == "[From Pre-order " && r[16..16 + |number|] == number
                            && r[16 + |number|..18 + |number|] == "] " && r[18 + |number|..] == notes
    ensures notes == "" ==> |r| == 15 + |number| && r[..15] == "From Pre-order " && r[15..] == number
  {
    if notes != "" then
      var r := "[From Pre-order " + number + "] " + notes;
      assert r[..16] == "[From Pre-order " && r[16..16 + |number|] == number;
      assert r[16 + |number|..18 + |number|] == "] " && r[18 + |number|..] == notes;
      r
    else "From Pre-order " + number
  }

  /** The tag loses nothing: a pre-order number has no "]" in it (it is
      "PRE-" and digits), so the number and the notes can both be read back
      from the converted order's notes. */
  lemma {:induction false} ConversionNotesInjective(n1: string, notes1: string, n2: string, notes2: string)
    requires ConversionNotes(n1, notes1) == ConversionNotes(n2, notes2)
    requires forall k :: 0 <= k < |n1| ==> n1[k] != ']'
    requires forall k :: 0 <= k < |n2| ==> n2[k] != ']'
    ensures n1 == n2 && notes1 == notes2
  {
    var r := ConversionNotes(n1, notes1);
    if notes1 != "" && notes2 != "" {
      ConversionNotesCloses(n1, notes1);
      ConversionNotesCloses(n2, notes2);
      assert |n1| == |n2|;
      assert r[16..16 + |n1|] == n1 && r[16..16 + |n2|] == n2;
      assert r[18 + |n1|..] == notes1 && r[18 + |n2|..] == notes2;
    } else if notes1 == "" && notes2 == "" {
      assert r[15..] == n1 && r[15..] == n2;
    } else {
      ConversionNotesOpens(n1, notes1);
      ConversionNotesOpens(n2, notes2);
      assert false;
    }
  }

  /** In tagged notes the number is followed by "]". */
  lemma ConversionNotesCloses(number: string, notes: string)
    requires notes != ""
    ensures var r := ConversionNotes(number, notes);
      r[16 + |number|] == ']' && forall k :: 0 <= k < |number| ==> r[16 + k] == number[k]
  {
    var r := ConversionNotes(number, notes);
    assert r[16 + |number|] == r[16 + |number|..18 + |number|][0];
    forall k | 0 <= k < |number| ensures r[16 + k] == number[k] {
      assert r[16 + k] == r[16..16 + |number|][k];
    }
  }

  /** Tagged notes open with "[", the bare tag with "F". */
  lemma ConversionNotesOpens(number: string, notes: string)
    ensures ConversionNotes(number, notes)[0] == if notes != "" then '[' else 'F'
  {
    var r := ConversionNotes(number, notes);
    if notes != "" {
      assert r[0] == r[..16][0];
    } else {
      assert r[0] == r[..15][0];
    }
  }


  /** The patch of step 5: `{status: 'converted', converted_order_id}`. */
  function MarkConverted(oid: Id): Preorder -> Preorder {
    (p: Preorder) => p.(status := Converted, convertedOrderId := Some(oid))
  }

  /** The order row a conversion copies from the pre-order row `pre`. */
  function OrderFrom(pre: Preorder, now: Time): Order {
    Order(OrderNumber(now), pre.customerId, pre.customerName, pre.totalAmount, ConversionNotes(pre.preorderNumber, pre.notes))
  }

  /** Some customer row that `getById` reaches for `cid` has an email. */
  predicate HasEmail(customers: Table<Customer>, cid: Id) {
    exists i :: 0 <= i < |customers| && FirstWithId(customers, i) && customers[i].id == cid && customers[i].data.email != ""
  }

  /** What a successful conversion of pre-order `id` did to the state: one
      order copied from the first pre-order row with the id, one order item
      per pre-order item of it with the stock sold, and that row (only)
      marked converted with the new order's id. */
  predicate Conversion(db: Db, id: Id, now: Time, k: Kicked)
    requires HasId(db.preorders, id)
  {
    var pre := GetById(db.preorders, id).value;
    && k.db.orders == db.orders + [Row(k.orderId, OrderFrom(pre.data, now), now, now)]
    && k.orderNumber == OrderNumber(now)
    && OrderWritten(db, k.db, k.orderId, LinesOf(ItemsOf(db.preorderItems, id)), now)
    && |k.db.preorders| == |db.preorders|
    && (forall i :: 0 <= i < |db.preorders| ==>
          k.db.preorders[i] ==
            if db.preorders[i].id == id && FirstWithId(db.preorders, i)
            then Row(id, db.preorders[i].data.(status := Converted, convertedOrderId := Some(k.orderId)), db.preorders[i].createdAt, now)
            else db.preorders[i])
    && k.db.preorderItems == db.preorderItems
    && k.db.customers == db.customers && k.db.categories == db.categories
    && (k.emailSent <==> HasEmail(db.customers, pre.data.customerId))
  }

  /** POST `/:id/kick-to-sell`. An absent pre-order answers 404 with no
      write. Otherwise the order is written and the stock sold exactly as
      order creation does, with the pre-order's items as the lines, and the
      pre-order is marked converted. Nothing checks the current status: a
      converted pre-order converts again. */
  function KickToSell(db: Db, id: Id, now: Time): (r: Result<Kicked, Error>)
    ensures r.Failure? <==> !HasId(db.preorders, id)
    ensures r.Failure? ==> r.error == NotFound("Pre-order not found")
    ensures r.Success? ==> Conversion(db, id, now, r.value)
  {
    match GetById(db.preorders, id)
    case None => Failure(NotFound("Pre-order not found"))
    case Some(pre) =>
      ConvertIsConversion(db, id, now);
      Success(Convert(db, id, pre, now))
  }

  /** Steps 1 to 7 once the pre-order row `pre` is found. */
  function Convert(db: Db, id: Id, pre: Row<Preorder>, now: Time): Kicked
    requires HasId(db.preorders, id)
  {
    var customer := GetById(db.customers, pre.data.customerId);
    var lines := LinesOf(ItemsOf(db.preorderItems, id));
    var ins := Insert(db.orders, OrderFrom(pre.data, now), now);
    var placed := PlaceLines(db.(orders := ins.table), ins.id, lines, now);
    var marked := Update(placed.preorders, id, MarkConverted(ins.id), now).value;
    Kicked(placed.(preorders := marked), ins.id, OrderNumber(now),
           customer.Some? && customer.value.data.email != "")
  }

  /** The conversion steps do what `Conversion` describes. */
  lemma ConvertIsConversion(db: Db, id: Id, now: Time)
    requires HasId(db.preorders, id)
    ensures Conversion(db, id, now, Convert(db, id, GetById(db.preorders, id).value, now))
  {
    var pre := GetById(db.preorders, id).value;
    var k := Convert(db, id, pre, now);
    var ins := Insert(db.orders, OrderFrom(pre.data, now), now);
    ConvertWritesOrder(db, id, pre, now);
    var marked := Update(db.preorders, id, MarkConverted(ins.id), now);
    assert k.db.preorders == marked.value;
    GotEmail(db.customers, pre.data.customerId);
  }

  /** The order-writing half of a conversion: the order row, its items and
      the stock, with the pre-order sheet not yet touched. */
  lemma ConvertWritesOrder(db: Db, id: Id, pre: Row<Preorder>, now: Time)
    requires HasId(db.preorders, id)
    ensures var k := Convert(db, id, pre, now);
      && k.orderId == NextId(db.orders)
      && k.db.orders == db.orders + [Row(k.orderId, OrderFrom(pre.data, now), now, now)]
      && OrderWritten(db, k.db.(preorders := db.preorders), k.orderId, LinesOf(ItemsOf(db.preorderItems, id)), now)
      && k.db.preorderItems == db.preorderItems
      && k.db.customers == db.customers && k.db.categories == db.categories
  {
    var lines := LinesOf(ItemsOf(db.preorderItems, id));
    var ins := Insert(db.orders, OrderFrom(pre.data, now), now);
    var placed := PlaceLines(db.(orders := ins.table), ins.id, lines, now);
    assert placed.preorders == db.preorders && placed.orders == ins.table;
    assert OrderWritten(db, placed, ins.id, lines, now);
  }

  /** `customer && customer.email` holds exactly when the row `getById`
      finds has an email. */
  lemma GotEmail(customers: Table<Customer>, cid: Id)
    ensures var c := GetById(customers, cid);
      (c.Some? && c.value.data.email != "") <==> HasEmail(customers, cid)
  {
    var c := GetById(customers, cid);
    if HasEmail(customers, cid) {
      var i :| 0 <= i < |customers| && FirstWithId(customers, i) && customers[i].id == cid && customers[i].data.email != "";
      var j :| 0 <= j < |customers| && FirstWithId(customers, j) && customers[j] == c.value;
      assert i == j;
    }
  }

  /** Kick-to-sell with the status check the pre-order lifecycle calls for
      (pending → converted, once): a pre-order already converted is refused
      with nothing written; a pending one converts exactly as
      `KickToSell` does. */
  function KickToSellOnce(db: Db, id: Id, now: Time): (r: Result<Kicked, Error>)
    ensures r.Failure? <==> !HasId(db.preorders, id) || GetById(db.preorders, id).value.data.status == Converted
    ensures !HasId(db.preorders, id) ==> r == Failure(NotFound("Pre-order not found"))
    ensures r.Success? ==> Conversion(db, id, now, r.value)
  {
    match GetById(db.preorders, id)
    case None => Failure(NotFound("Pre-order not found"))
    case Some(pre) =>
      if pre.data.status == Converted then Failure(BadRequest("Pre-order already converted"))
      else KickToSell(db, id, now)
  }

  /** With the status check a pre-order converts at most once: after a
      successful conversion a second one is refused, so its lines are sold
      once. */
  lemma ConvertOnce(db: Db, id: Id, t1: Time, t2: Time)
    requires KickToSellOnce(db, id, t1).Success?
    ensures KickToSellOnce(KickToSellOnce(db, id, t1).value.db, id, t2).Failure?
  {
    var k := KickToSellOnce(db, id, t1).value;
    MarkedConverted(db, id, t1, k);
  }

  /** After any conversion `Conversion` describes, the pre-order `getById`
      finds is converted. */
  lemma MarkedConverted(db: Db, id: Id, now: Time, k: Kicked)
    requires HasId(db.preorders, id)
    requires Conversion(db, id, now, k)
    ensures HasId(k.db.preorders, id) && GetById(k.db.preorders, id).value.data.status == Converted
  {
    FoundSameIds(db.preorders, k.db.preorders, id);
    var i := IndexOf(db.preorders, id).value;
    assert k.db.preorders[i].data.status == Converted;
  }

  /** DELETE `/:id`: the pre-order's items, then the pre-order row, are
      deleted. Products, orders and customers are untouched. An absent
      pre-order is not an error. */
  function DeletePreorder(db: Db, id: Id): (r: Db)
    ensures r.products == db.products
    ensures r.orders == db.orders && r.orderItems == db.orderItems
    ensures r.customers == db.customers && r.categories == db.categories
    ensures forall k :: 0 <= k < |r.preorderItems| ==> r.preorderItems[k] in db.preorderItems && r.preorderItems[k].data.parentId != id
    ensures forall k :: 0 <= k < |db.preorderItems| && !HasId(ItemsOf(db.preorderItems, id), db.preorderItems[k].id) ==>
      db.preorderItems[k] in r.preorderItems
    ensures !HasId(r.preorders, id)
    ensures forall k :: 0 <= k < |r.preorders| ==> r.preorders[k] in db.preorders
    ensures forall k :: 0 <= k < |db.preorders| && db.preorders[k].id != id ==> db.preorders[k] in r.preorders
  {
    var items := ItemsOf(db.preorderItems, id);
    assert forall j :: 0 <= j < |db.preorderItems| && db.preorderItems[j].data.parentId == id ==>
      HasId(items, db.preorderItems[j].id) by {
      forall j | 0 <= j < |db.preorderItems| && db.preorderItems[j].data.parentId == id
        ensures HasId(items, db.preorderItems[j].id)
      {
        assert db.preorderItems[j] in items;
      }
    }
    db.(preorderItems := DeleteEach(db.preorderItems, items), preorders := DeleteRow(db.preorders, id).table)
  }

  /** Booking a pre-order and then converting it writes an order for the
      booked customer and amount whose items carry exactly the booked lines,
      and sells exactly those lines. */
  lemma BookThenConvert(db: Db, req: OrderRequest, t1: Time, t2: Time)
    requires PreordersWellFormed(db)
    requires req.customerPhone != ""
    ensures var b := CreatePreorder(db, req, t1).value;
      var k := KickToSell(b.db, b.preorderId, t2);
      && k.Success?
      && KickToSellOnce(b.db, b.preorderId, t2) == k
      && OrderWritten(b.db, k.value.db, k.value.orderId, req.items, t2)
      && k.value.db.orders[|db.orders|].data.customerId == b.customerId
      && k.value.db.orders[|db.orders|].data.totalAmount == Total(req.items)
  {
    var b := CreatePreorder(db, req, t1).value;
    var pid := b.preorderId;
    FoundAppended(db.preorders, b.db.preorders, pid);
    assert forall k :: 0 <= k < |db.preorderItems| ==> db.preorderItems[k].data.parentId != pid;
    AppendedItemsDeleted(db.preorderItems, b.db.preorderItems, pid, req.items, t1);
  }

  /** Nothing stops a second conversion: converting the same pre-order twice
      succeeds both times, writes two orders and sells its lines twice. */
  lemma ConvertTwiceSellsTwice(db: Db, id: Id, t1: Time, t2: Time)
    requires HasId(db.preorders, id)
    ensures var k1 := KickToSell(db, id, t1).value;
      var k2 := KickToSell(k1.db, id, t2);
      var lines := LinesOf(ItemsOf(db.preorderItems, id));
      && k2.Success?
      && |k2.value.db.orders| == |db.orders| + 2
      && |k2.value.db.products| == |db.products|
      && forall i :: 0 <= i < |db.products| ==>
           k2.value.db.products[i].data.soldItems ==
             db.products[i].data.soldItems + (if FirstWithId(db.products, i) then 2 * QtyOf(lines, db.products[i].id) else 0)
  {
    var lines := LinesOf(ItemsOf(db.preorderItems, id));
    var k1 := KickToSell(db, id, t1).value;
    ConversionKeepsPreorder(db, id, t1, k1);
    var k2 := KickToSell(k1.db, id, t2).value;
    ConversionKeepsPreorder(k1.db, id, t2, k2);
    assert OrderWritten(db, k1.db, k1.orderId, lines, t1);
    assert OrderWritten(k1.db, k2.db, k2.orderId, lines, t2);
    SameIdsSameFirst(db.products, k1.db.products);
  }

  /** After a conversion the pre-order and its items are still there, and
      the order was written from its lines. */
  lemma ConversionKeepsPreorder(db: Db, id: Id, now: Time, k: Kicked)
    requires HasId(db.preorders, id)
    requires Conversion(db, id, now, k)
    ensures HasId(k.db.preorders, id)
    ensures k.db.preorderItems == db.preorderItems
    ensures OrderWritten(db, k.db, k.orderId, LinesOf(ItemsOf(db.preorderItems, id)), now)
  {
    var i :| 0 <= i < |db.preorders| && db.preorders[i].id == id;
    assert k.db.preorders[i].id == id;
  }

  /** Booking a pre-order and then deleting it gives back the pre-orders and
      their items; stock and orders were never touched. */
  lemma BookThenDelete(db: Db, req: OrderRequest, t1: Time)
    requires PreordersWellFormed(db)
    requires req.customerPhone != ""
    ensures var b := CreatePreorder(db, req, t1).value;
      var back := DeletePreorder(b.db, b.preorderId);
      && back.preorders == db.preorders
      && back.preorderItems == db.preorderItems
      && back.products == db.products
      && back.orders == db.orders && back.orderItems == db.orderItems
  {
    var b := CreatePreorder(db, req, t1).value;
    var pid := b.preorderId;
    DeleteAppended(db.preorders, b.db.preorders, pid);
    assert forall k :: 0 <= k < |db.preorderItems| ==> db.preorderItems[k].data.parentId != pid;
    AppendedItemsDeleted(db.preorderItems, b.db.preorderItems, pid, req.items, t1);
  }

  /** Deleting a pre-order that does not exist changes nothing. */
  lemma DeleteMissingPreorder(db: Db, id: Id)
    requires PreordersWellFormed(db)
    requires !HasId(db.preorders, id)
    ensures DeletePreorder(db, id) == db
  {
    QueryDropsAll(db.preorderItems, ChildOf(id));
    DeleteRowAbsent(db.preorders, id);
  }

  /** Booking keeps every item row attached to an existing order or
      pre-order. */
  lemma CreatePreorderWellFormed(db: Db, req: OrderRequest, now: Time)
    requires WellFormed(db)
    requires req.customerPhone != ""
    ensures WellFormed(CreatePreorder(db, req, now).value.db)
  {
    var b := CreatePreorder(db, req, now).value;
    AppendedAttached(db.preorders, b.db.preorders, db.preorderItems, b.db.preorderItems, b.preorderId, req.items, now);
  }

  /** Conversion keeps every item row attached to an existing order or
      pre-order. */
  lemma KickToSellWellFormed(db: Db, id: Id, now: Time)
    requires WellFormed(db)
    requires HasId(db.preorders, id)
    ensures WellFormed(KickToSell(db, id, now).value.db)
  {
    ConversionWellFormed(db, id, now, KickToSell(db, id, now).value);
  }

  /** Any state `Conversion` describes keeps the item rows attached. */
  lemma ConversionWellFormed(db: Db, id: Id, now: Time, k: Kicked)
    requires WellFormed(db)
    requires HasId(db.preorders, id)
    requires Conversion(db, id, now, k)
    ensures WellFormed(k.db)
  {
    WrittenWellFormed(db, k.db, k.orderId, LinesOf(ItemsOf(db.preorderItems, id)), now);
    SameIdsAttached(db, k.db);
  }

  /** Rewriting pre-order rows in place, ids kept, leaves every pre-order
      item attached. */
  lemma SameIdsAttached(db: Db, after: Db)
    requires PreordersWellFormed(db)
    requires after.preorderItems == db.preorderItems
    requires |after.preorders| == |db.preorders|
    requires forall i :: 0 <= i < |db.preorders| ==> after.preorders[i].id == db.preorders[i].id
    ensures PreordersWellFormed(after)
  {
    forall j | 0 <= j < |after.preorderItems|
      ensures HasId(after.preorders, after.preorderItems[j].data.parentId)
    {
      var o :| 0 <= o < |db.preorders| && db.preorders[o].id == db.preorderItems[j].data.parentId;
      assert after.preorders[o].id == db.preorders[o].id;
    }
  }

  /** The guarded conversion keeps every item row attached too. */
  lemma KickToSellOnceWellFormed(db: Db, id: Id, now: Time)
    requires WellFormed(db)
    requires KickToSellOnce(db, id, now).Success?
    ensures WellFormed(KickToSellOnce(db, id, now).value.db)
  {
    ConversionWellFormed(db, id, now, KickToSellOnce(db, id, now).value);
  }

  /** Deletion keeps every item row attached to an existing order or
      pre-order. */
  lemma DeletePreorderWellFormed(db: Db, id: Id)
    requires WellFormed(db)
    ensures WellFormed(DeletePreorder(db, id))
  {
    var r := DeletePreorder(db, id);
    forall k | 0 <= k < |r.preorderItems|
      ensures HasId(r.preorders, r.preorderItems[k].data.parentId)
    {
      var parent := r.preorderItems[k].data.parentId;
      var j :| 0 <= j < |db.preorderItems| && db.preorderItems[j] == r.preorderItems[k];
      var o :| 0 <= o < |db.preorders| && db.preorders[o].id == parent;
      assert db.preorders[o] in r.preorders;
    }
  }
}
