/** The customer directory: find-or-create by phone (shared by the order and
    pre-order routes) and the `backend/routes/customers.js` endpoints. */
module Customers {
  import opened Wrappers
  import opened Store
  import opened Schema
  import opened Sorting

  /** JavaScript's `input || prior` on strings: an empty input keeps the prior
      value. */
  function Pick(input: string, prior: string): (r: string)
    ensures input != "" ==> r == input
    ensures input == "" ==> r == prior
  {
    if input != "" then input else prior
  }

  /** `query('customers', c => c.phone === phone)[0]`: the first customer
      row with the phone. */
  function FirstByPhone(t: Table<Customer>, phone: string): (r: Option<nat>)
    ensures r.None? <==> forall i :: 0 <= i < |t| ==> t[i].data.phone != phone
    ensures r.Some? ==> r.value < |t| && t[r.value].data.phone == phone
    ensures r.Some? ==> forall j :: 0 <= j < r.value ==> t[j].data.phone != phone
  {
    if |t| == 0 then None
    else if t[0].data.phone == phone then Some(0)
    else
      match FirstByPhone(t[1..], phone)
      case None => None
      case Some(k) => Some(k + 1)
  }

  /** The update patch `{customer_name, email, address}`; its values are
      fixed when the patch is built. */
  function Details(name: string, email: string, address: string): Customer -> Customer {
    (c: Customer) => c.(name := name, email := email, address := address)
  }

  datatype Resolved = Resolved(customers: Table<Customer>, id: Id)

  /** Step 1 of order and pre-order creation. A known phone reuses the first
      matching customer's id and refreshes its name, email and address with
      each non-empty input; an unknown phone inserts a new customer. */
  function FindOrCreate(t: Table<Customer>, name: string, phone: string, email: string, address: string, now: Time): (r: Resolved)
    ensures FirstByPhone(t, phone).None? ==>
      && r.id == NextId(t)
      && r.customers == t + [Row(r.id, Customer(name, phone, email, address), now, now)]
    ensures FirstByPhone(t, phone).Some? ==>
      var prior := t[FirstByPhone(t, phone).value];
      && r.id == prior.id
      && |r.customers| == |t|
      && forall i :: 0 <= i < |t| ==>
           r.customers[i] ==
             if t[i].id == r.id && FirstWithId(t, i)
             then Row(r.id,
                      t[i].data.(name := Pick(name, prior.data.name),
                                 email := Pick(email, prior.data.email),
                                 address := Pick(address, prior.data.address)),
                      t[i].createdAt, now)
             else t[i]
  {
    match FirstByPhone(t, phone)
    case Some(k) =>
      var prior := t[k];
      var patch := Details(Pick(name, prior.data.name), Pick(email, prior.data.email), Pick(address, prior.data.address));
      (match Update(t, prior.id, patch, now)
       case Success(u) => Resolved(u, prior.id)
       case Failure(_) => Resolved(t, prior.id))
    case None =>
      var ins := Insert(t, Customer(name, phone, email, address), now);
      Resolved(ins.table, ins.id)
  }

  /** Tables whose rows carry the same phones, row by row, have their first
      phone match at the same place. */
  lemma {:induction false} SamePhonesSameMatch(a: Table<Customer>, b: Table<Customer>, phone: string)
    requires |a| == |b|
    requires forall i :: 0 <= i < |a| ==> a[i].data.phone == b[i].data.phone
    ensures FirstByPhone(a, phone) == FirstByPhone(b, phone)
  {
    if |a| > 0 {
      SamePhonesSameMatch(a[1..], b[1..], phone);
    }
  }

  /** After find-or-create, the first customer with the phone carries the
      returned id. */
  lemma FindOrCreateResolvesPhone(t: Table<Customer>, name: string, phone: string, email: string, address: string, now: Time)
    ensures var r := FindOrCreate(t, name, phone, email, address, now);
      && FirstByPhone(r.customers, phone).Some?
      && r.customers[FirstByPhone(r.customers, phone).value].id == r.id
  {
    var r := FindOrCreate(t, name, phone, email, address, now);
    match FirstByPhone(t, phone)
    case None =>
      var m := FirstByPhone(r.customers, phone);
      assert r.customers[|t|].data.phone == phone;
      assert forall j :: 0 <= j < |t| ==> r.customers[j] == t[j];
      assert m == Some(|t|);
    case Some(k) =>
      SamePhonesSameMatch(t, r.customers, phone);
  }

  /** Phone is the identity key: asking again with the same phone finds the
      same customer and inserts nothing, whatever the other fields say. */
  lemma FindOrCreateIsStable(t: Table<Customer>, name: string, phone: string, email: string, address: string,
                             name2: string, email2: string, address2: string, now: Time, later: Time)
    ensures var r := FindOrCreate(t, name, phone, email, address, now);
      var again := FindOrCreate(r.customers, name2, phone, email2, address2, later);
      again.id == r.id && |again.customers| == |r.customers|
  {
    FindOrCreateResolvesPhone(t, name, phone, email, address, now);
  }

  /** GET `/:id`: the row `getById` finds, or 404 "Customer not found". */
  function GetCustomer(t: Table<Customer>, id: Id): Result<Row<Customer>, Error> {
    GetOr404(t, id, "Customer not found")
  }

  /** POST `/`: inserts the customer as given. */
  function CreateCustomer(t: Table<Customer>, c: Customer, now: Time): (r: Inserted<Customer>)
    ensures |r.table| == |t| + 1 && r.table[..|t|] == t
    ensures !HasId(t, r.id)
    ensures GetCustomer(r.table, r.id) == Success(Row(r.id, c, now, now))
  {
    var ins := Insert(t, c, now);
    assert ins.table[|t|].id == ins.id;
    assert forall j :: 0 <= j < |t| ==> ins.table[j].id != ins.id;
    ins
  }

  /** The update patch of PUT `/:id`: `{customer_name, phone, email,
      address}`, every field of the record. */
  function Replace(c: Customer): Customer -> Customer {
    (_: Customer) => c
  }

  /** PUT `/:id`: replaces the four fields. `update` throws on an unknown
      id, so the route answers 500, not 404 (its `changes === 0` test never
      holds). */
  function UpdateCustomer(t: Table<Customer>, id: Id, c: Customer, now: Time): (r: Result<Table<Customer>, Error>)
    ensures r.Failure? <==> !HasId(t, id)
    ensures r.Failure? ==> r.error == ServerError("Failed to update customer")
    ensures r.Success? ==> |r.value| == |t|
    ensures r.Success? ==> forall i :: 0 <= i < |t| ==>
      r.value[i] == if t[i].id == id && FirstWithId(t, i) then Row(id, c, t[i].createdAt, now) else t[i]
  {
    match Update(t, id, Replace(c), now)
    case Failure(_) => Failure(ServerError("Failed to update customer"))
    case Success(u) => Success(u)
  }

  /** After a successful update, `getById` (the route's answer) finds the
      new fields under the old creation stamp. */
  lemma UpdateThenGet(t: Table<Customer>, id: Id, c: Customer, now: Time)
    requires HasId(t, id)
    ensures GetCustomer(UpdateCustomer(t, id, c, now).value, id) ==
      Success(Row(id, c, GetById(t, id).value.createdAt, now))
  {
    var u := UpdateCustomer(t, id, c, now).value;
    FoundSameIds(t, u, id);
  }

  /** DELETE `/:id`. */
  function DeleteCustomer(t: Table<Customer>, id: Id): (r: Result<Table<Customer>, Error>)
    ensures r.Failure? <==> !HasId(t, id)
    ensures r.Failure? ==> r.error == NotFound("Customer not found")
    ensures r.Success? ==>
      && !HasId(r.value, id)
      && |r.value| < |t|
      && (forall i :: 0 <= i < |t| && t[i].id != id ==> t[i] in r.value)
      && (forall i :: 0 <= i < |r.value| ==> r.value[i] in t)
  {
    match GetById(t, id)
    case None => Failure(NotFound("Customer not found"))
    case Some(_) =>
      var d := DeleteRow(t, id).table;
      DeleteShrinks(t, id);
      Success(d)
  }

  /** Deleting the customer just created gives back the directory. */
  lemma CreateThenDeleteCustomer(t: Table<Customer>, c: Customer, now: Time)
    ensures var ins := CreateCustomer(t, c, now);
      DeleteCustomer(ins.table, ins.id) == Success(t)
  {
    var ins := CreateCustomer(t, c, now);
    DeleteAppended(t, ins.table, ins.id);
  }

  /** Deleting an id that is present removes at least one row. */
  lemma {:induction false} DeleteShrinks<T>(t: Table<T>, id: Id)
    requires HasId(t, id)
    ensures |DeleteRow(t, id).table| < |t|
  {
    if t[0].id != id {
      assert t == [t[0]] + t[1..];
      QueryAppend([t[0]], t[1..], IdIsNot(id));
      assert HasId(t[1..], id) by {
        var i :| 0 <= i < |t| && t[i].id == id;
        assert t[1..][i - 1].id == id;
      }
      DeleteShrinks(t[1..], id);
    } else {
      assert t == [t[0]] + t[1..];
      QueryAppend([t[0]], t[1..], IdIsNot(id));
    }
  }

  /** The order filter `o => o.customer_id === cid`. */
  function PlacedBy(cid: Id): Row<Order> -> bool {
    (o: Row<Order>) => o.data.customerId == cid
  }

  /** `order_count`: the number of orders naming the customer. */
  function OrderCount(orders: Table<Order>, cid: Id): (n: nat)
    ensures n <= |orders|
    ensures n == 0 <==> forall i :: 0 <= i < |orders| ==> orders[i].data.customerId != cid
  {
    var mine := Query(orders, PlacedBy(cid));
    assert |mine| > 0 ==> mine[0] in orders;
    |mine|
  }

  /** Placing one more order adds one to its customer's count only. */
  lemma OrderCountAppend(orders: Table<Order>, o: Row<Order>, cid: Id)
    ensures OrderCount(orders + [o], cid) == OrderCount(orders, cid) + (if o.data.customerId == cid then 1 else 0)
  {
    QueryAppend(orders, [o], PlacedBy(cid));
    assert [o][1..] == [];
  }

  datatype Counted = Counted(customer: Row<Customer>, orderCount: nat)

  function CreatedKey(c: Counted): int {
    c.customer.createdAt
  }

  function WithCounts(customers: Table<Customer>, orders: Table<Order>): (r: seq<Counted>)
    ensures |r| == |customers|
    ensures forall k :: 0 <= k < |r| ==> r[k] == Counted(customers[k], OrderCount(orders, customers[k].id))
  {
    if |customers| == 0 then []
    else [Counted(customers[0], OrderCount(orders, customers[0].id))] + WithCounts(customers[1..], orders)
  }

  /** GET `/`: every customer once with its order count, newest first;
      customers created at the same time keep sheet order. */
  function ListCustomers(customers: Table<Customer>, orders: Table<Order>): (r: seq<Counted>)
    ensures |r| == |customers|
    ensures multiset(r) == multiset(WithCounts(customers, orders))
    ensures SortedDesc(r, CreatedKey)
    ensures SameTies(r, WithCounts(customers, orders), CreatedKey)
    ensures forall k :: 0 <= k < |r| ==> r[k].customer in customers && r[k].orderCount == OrderCount(orders, r[k].customer.id)
  {
    var counted := WithCounts(customers, orders);
    var r := SortDesc(counted, CreatedKey);
    SortDescStableAll(counted, CreatedKey);
    assert forall k :: 0 <= k < |r| ==> r[k] in multiset(counted);
    r
  }

  /** `[...new Set(ids)]`: each id once, in order of first appearance. */
  function Distinct(ids: seq<Id>): (r: seq<Id>)
    ensures forall x :: x in r <==> x in ids
    ensures forall i, j :: 0 <= i < j < |r| ==> r[i] != r[j]
    ensures |r| <= |ids|
  {
    if |ids| == 0 then []
    else
      var d := Distinct(ids[..|ids| - 1]);
      assert ids == ids[..|ids| - 1] + [ids[|ids| - 1]];
      if ids[|ids| - 1] in d then d else d + [ids[|ids| - 1]]
  }

  /** The customer placed an order with this id. */
  predicate OwnsOrder(orders: Table<Order>, cid: Id, oid: Id) {
    exists j :: 0 <= j < |orders| && orders[j].id == oid && orders[j].data.customerId == cid
  }

  /** Some item of one of the customer's orders names the product. */
  predicate Purchased(orders: Table<Order>, items: Table<LineItem>, cid: Id, pid: Id) {
    exists k :: 0 <= k < |items| && items[k].data.line.productId == pid && OwnsOrder(orders, cid, items[k].data.parentId)
  }

  /** `customerOrders.map(o => o.id)`. */
  function OrderIdsOf(orders: Table<Order>, cid: Id): (r: seq<Id>)
    ensures forall oid :: oid in r <==> OwnsOrder(orders, cid, oid)
  {
    if |orders| == 0 then []
    else
      var rest := OrderIdsOf(orders[1..], cid);
      assert forall oid :: OwnsOrder(orders[1..], cid, oid) ==> OwnsOrder(orders, cid, oid) by {
        forall oid | OwnsOrder(orders[1..], cid, oid) ensures OwnsOrder(orders, cid, oid) {
          var j :| 0 <= j < |orders[1..]| && orders[1..][j].id == oid && orders[1..][j].data.customerId == cid;
          assert orders[j + 1] == orders[1..][j];
        }
      }
      assert forall oid :: OwnsOrder(orders, cid, oid) ==> OwnsOrder(orders[1..], cid, oid) || (orders[0].id == oid && orders[0].data.customerId == cid) by {
        forall oid | OwnsOrder(orders, cid, oid)
          ensures OwnsOrder(orders[1..], cid, oid) || (orders[0].id == oid && orders[0].data.customerId == cid)
        {
          var j :| 0 <= j < |orders| && orders[j].id == oid && orders[j].data.customerId == cid;
          if j > 0 {
            assert orders[1..][j - 1] == orders[j];
          }
        }
      }
      (if orders[0].data.customerId == cid then [orders[0].id] else []) + rest
  }

  /** The product ids of the customer's order items, in item order:
      `orderItems.filter(oi => orderIds.includes(oi.order_id)).map(oi => oi.product_id)`. */
  function PurchasedIds(items: Table<LineItem>, orderIds: seq<Id>): (r: seq<Id>)
    ensures forall pid :: pid in r <==> exists k :: 0 <= k < |items| && items[k].data.line.productId == pid && items[k].data.parentId in orderIds
  {
    if |items| == 0 then []
    else
      var rest := PurchasedIds(items[1..], orderIds);
      assert forall k :: 1 <= k < |items| ==> items[k] == items[1..][k - 1];
      assert forall pid :: pid in rest ==> exists k :: 0 <= k < |items| && items[k].data.line.productId == pid && items[k].data.parentId in orderIds by {
        forall pid | pid in rest
          ensures exists k :: 0 <= k < |items| && items[k].data.line.productId == pid && items[k].data.parentId in orderIds
        {
          var k :| 0 <= k < |items[1..]| && items[1..][k].data.line.productId == pid && items[1..][k].data.parentId in orderIds;
          assert items[k + 1] == items[1..][k];
        }
      }
      (if items[0].data.parentId in orderIds then [items[0].data.line.productId] else []) + rest
  }

  /** `productIds.map(pid => products.find(...)?.item_name).filter(n => n !== null)`. */
  function NamesOf(pids: seq<Id>, products: Table<Product>): (r: seq<string>)
    ensures |r| == FoundCount(pids, products) <= |pids|
    ensures forall n :: n in r <==> exists k :: 0 <= k < |pids| && GetById(products, pids[k]).Some? && GetById(products, pids[k]).value.data.itemName == n
  {
    if |pids| == 0 then []
    else
      var rest := NamesOf(pids[1..], products);
      assert forall k :: 1 <= k < |pids| ==> pids[k] == pids[1..][k - 1];
      assert forall n :: n in rest ==> exists k :: 0 <= k < |pids| && GetById(products, pids[k]).Some? && GetById(products, pids[k]).value.data.itemName == n by {
        forall n | n in rest
          ensures exists k :: 0 <= k < |pids| && GetById(products, pids[k]).Some? && GetById(products, pids[k]).value.data.itemName == n
        {
          var k :| 0 <= k < |pids[1..]| && GetById(products, pids[1..][k]).Some? && GetById(products, pids[1..][k]).value.data.itemName == n;
          assert pids[k + 1] == pids[1..][k];
        }
      }
      match GetById(products, pids[0])
      case Some(p) => [p.data.itemName] + rest
      case None => rest
  }

  /** `purchased_products` of GET `/with-products`: the names of the
      distinct products the customer bought, one per distinct product id
      that still has a product; ids without a product are dropped. */
  function PurchasedProducts(cid: Id, orders: Table<Order>, items: Table<LineItem>, products: Table<Product>): (r: seq<string>)
    ensures forall n :: n in r <==>
      exists pid :: Purchased(orders, items, cid, pid) && GetById(products, pid).Some? && GetById(products, pid).value.data.itemName == n
  {
    var orderIds := OrderIdsOf(orders, cid);
    var ids := Distinct(PurchasedIds(items, orderIds));
    var r := NamesOf(ids, products);
    assert forall pid :: pid in ids <==> Purchased(orders, items, cid, pid);
    assert forall n :: n in r ==> exists pid :: Purchased(orders, items, cid, pid) && GetById(products, pid).Some? && GetById(products, pid).value.data.itemName == n by {
      forall n | n in r
        ensures exists pid :: Purchased(orders, items, cid, pid) && GetById(products, pid).Some? && GetById(products, pid).value.data.itemName == n
      {
        var k :| 0 <= k < |ids| && GetById(products, ids[k]).Some? && GetById(products, ids[k]).value.data.itemName == n;
        assert ids[k] in ids;
      }
    }
    assert forall pid :: Purchased(orders, items, cid, pid) && GetById(products, pid).Some? ==> GetById(products, pid).value.data.itemName in r by {
      forall pid | Purchased(orders, items, cid, pid) && GetById(products, pid).Some?
        ensures GetById(products, pid).value.data.itemName in r
      {
        assert pid in ids;
        var k :| 0 <= k < |ids| && ids[k] == pid;
      }
    }
    r
  }

  /** How many of the ids name a product that exists. */
  function FoundCount(pids: seq<Id>, products: Table<Product>): nat {
    if |pids| == 0 then 0
    else (if GetById(products, pids[0]).Some? then 1 else 0) + FoundCount(pids[1..], products)
  }

  /** The products the customer bought that still exist, read straight off
      the item rows of the customer's orders. */
  function BoughtAndListed(cid: Id, orders: Table<Order>, items: Table<LineItem>, products: Table<Product>): set<Id> {
    set k | 0 <= k < |items| && OwnsOrder(orders, cid, items[k].data.parentId) && GetById(products, items[k].data.line.productId).Some?
      :: items[k].data.line.productId
  }

  /** Over ids without repeats, the count of found ids is the size of their set. */
  lemma {:induction false} FoundCountDistinct(pids: seq<Id>, products: Table<Product>)
    requires forall i, j :: 0 <= i < j < |pids| ==> pids[i] != pids[j]
    ensures FoundCount(pids, products) == |set pid | pid in pids && GetById(products, pid).Some?|
  {
    if |pids| > 0 {
      var tail := pids[1..];
      FoundCountDistinct(tail, products);
      var all := set pid | pid in pids && GetById(products, pid).Some?;
      var rest := set pid | pid in tail && GetById(products, pid).Some?;
      assert forall j :: 0 <= j < |tail| ==> tail[j] == pids[j + 1];
      assert pids[0] !in tail;
      assert pids == [pids[0]] + tail;
      assert pids[0] !in rest;
      if GetById(products, pids[0]).Some? {
        assert all == rest + {pids[0]};
        assert |all| == |rest| + 1;
      } else {
        assert all == rest;
      }
    }
  }

  /** Ids that are exactly the customer's purchases, cut down to the
      products that exist, are the set read off the item rows. */
  lemma {:induction false} FoundIsBought(cid: Id, orders: Table<Order>, items: Table<LineItem>, products: Table<Product>, ids: seq<Id>)
    requires forall pid :: pid in ids <==> Purchased(orders, items, cid, pid)
    ensures (set pid | pid in ids && GetById(products, pid).Some?) == BoughtAndListed(cid, orders, items, products)
  {
    var found := set pid | pid in ids && GetById(products, pid).Some?;
    var bought := BoughtAndListed(cid, orders, items, products);
    forall pid | pid in found ensures pid in bought {
      var k :| 0 <= k < |items| && items[k].data.line.productId == pid && OwnsOrder(orders, cid, items[k].data.parentId);
    }
    forall pid | pid in bought ensures pid in found {
      var k :| 0 <= k < |items| && OwnsOrder(orders, cid, items[k].data.parentId) && GetById(products, items[k].data.line.productId).Some?
        && items[k].data.line.productId == pid;
      assert Purchased(orders, items, cid, pid);
    }
  }

  /** One name per distinct product the customer bought that still exists:
      the list is exactly as long as that set of products. */
  lemma PurchasedProductsOnePerProduct(cid: Id, orders: Table<Order>, items: Table<LineItem>, products: Table<Product>)
    ensures |PurchasedProducts(cid, orders, items, products)| == |BoughtAndListed(cid, orders, items, products)|
  {
    var orderIds := OrderIdsOf(orders, cid);
    var ids := Distinct(PurchasedIds(items, orderIds));
    assert forall pid :: pid in ids <==> Purchased(orders, items, cid, pid);
    FoundCountDistinct(ids, products);
    FoundIsBought(cid, orders, items, products, ids);
    assert PurchasedProducts(cid, orders, items, products) == NamesOf(ids, products);
  }
}
