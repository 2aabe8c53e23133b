/** The records of the point-of-sale database and the shared pieces every
    route uses: line items, totals, the error taxonomy and the database
    state (one table per sheet). Money is integer minor units. */
module Schema {
  import opened Wrappers
  import opened Store

  datatype Product = Product(
    serialNo: string,
    productCode: string,
    itemName: string,
    itemCategory: string,
    unit: string,
    totalStock: int,
    soldItems: int,
    price: int)

  datatype Category = Category(name: string)

  datatype Customer = Customer(name: string, phone: string, email: string, address: string)

  /** An order row. Order insertion writes no `status` field, so the model
      has none. */
  datatype Order = Order(
    orderNumber: string,
    customerId: Id,
    customerName: string,
    totalAmount: int,
    notes: string)

  datatype PreorderStatus = Pending | Converted

  datatype Preorder = Preorder(
    preorderNumber: string,
    customerId: Id,
    customerName: string,
    totalAmount: int,
    status: PreorderStatus,
    convertedOrderId: Option<Id>,
    notes: string)

  /** One line as the cart holds it and as the order routes receive it in
      `items`: product, snapshot name and price, quantity and subtotal. */
  datatype Line = Line(productId: Id, productName: string, quantity: int, unitPrice: int, subtotal: int)

  /** A row of `order_items` or `preorder_items`: the copied line and the id
      of the order (or pre-order) owning it. */
  datatype LineItem = LineItem(parentId: Id, line: Line)

  /** Outcomes other than success, by HTTP status: 404, 400, 409 (duplicate
      name), 409 (category still referenced, with the count), 500. */
  datatype Error =
    | NotFound(message: string)
    | BadRequest(message: string)
    | Conflict(message: string)
    | CategoryInUse(message: string, productsCount: nat)
    | ServerError(message: string)

  /** The `GET /:id` pattern every sheet's route follows: the row `getById`
      finds, or a 404 with the route's message. */
  function GetOr404<T>(t: Table<T>, id: Id, message: string): (r: Result<Row<T>, Error>)
    ensures r.Failure? <==> !HasId(t, id)
    ensures r.Failure? ==> r.error == NotFound(message)
    ensures r.Success? ==> r.value.id == id && exists i :: 0 <= i < |t| && FirstWithId(t, i) && t[i] == r.value
  {
    match GetById(t, id)
    case None => Failure(NotFound(message))
    case Some(row) => Success(row)
  }

  datatype Db = Db(
    products: Table<Product>,
    customers: Table<Customer>,
    categories: Table<Category>,
    orders: Table<Order>,
    orderItems: Table<LineItem>,
    preorders: Table<Preorder>,
    preorderItems: Table<LineItem>)

  /** `items.reduce((sum, item) => sum + item.subtotal, 0)`: 0 for no
      lines, and never negative when no subtotal is. */
  function Total(lines: seq<Line>): (r: int)
    ensures |lines| == 0 ==> r == 0
    ensures (forall k :: 0 <= k < |lines| ==> lines[k].subtotal >= 0) ==> r >= 0
  {
    if |lines| == 0 then 0 else Total(lines[..|lines| - 1]) + lines[|lines| - 1].subtotal
  }

  /** Totals add up over concatenation. */
  lemma {:induction false} TotalAppend(a: seq<Line>, b: seq<Line>)
    ensures Total(a + b) == Total(a) + Total(b)
  {
    if |b| > 0 {
      assert (a + b)[..|a + b| - 1] == a + b[..|b| - 1];
      TotalAppend(a, b[..|b| - 1]);
    } else {
      assert a + b == a;
    }
  }

  /** The lines of a sequence of item rows, in row order. */
  function LinesOf(items: Table<LineItem>): (r: seq<Line>)
    ensures |r| == |items|
    ensures forall k :: 0 <= k < |items| ==> r[k] == items[k].data.line
  {
    if |items| == 0 then [] else [items[0].data.line] + LinesOf(items[1..])
  }

  /** The row filter `query(…, oi => oi.order_id === id)`. */
  function ChildOf(parent: Id): Row<LineItem> -> bool {
    (row: Row<LineItem>) => row.data.parentId == parent
  }

  /** The item rows owned by one order or pre-order, in table order. */
  function ItemsOf(items: Table<LineItem>, parent: Id): (r: Table<LineItem>)
    ensures forall k :: 0 <= k < |r| ==> r[k].data.parentId == parent && r[k] in items
    ensures forall k :: 0 <= k < |items| && items[k].data.parentId == parent ==> items[k] in r
  {
    Query(items, ChildOf(parent))
  }

  /** The number a string of decimal digits denotes, most significant digit
      first: the reading `parseInt(s, 10)` gives a digit string. */
  function DigitsValue(s: string): int {
    if |s| == 0 then 0 else 10 * DigitsValue(s[..|s| - 1]) + (s[|s| - 1] as int - '0' as int)
  }

  /** Decimal digits of a natural number, as JavaScript prints it. */
  function Decimal(n: nat): (s: string)
    ensures |s| >= 1
    ensures forall k :: 0 <= k < |s| ==> '0' <= s[k] <= '9'
  {
    var d := [(n % 10) as char + '0' as char];
    if n < 10 then d else Decimal(n / 10) + d
  }

  /** The printed digits read back as `n`, and there is no leading zero
      except in "0". */
  lemma {:induction false} DecimalReadsBack(n: nat)
    ensures DigitsValue(Decimal(n)) == n
    ensures Decimal(n)[0] == '0' <==> n == 0
    ensures Decimal(n)[0] == '0' ==> |Decimal(n)| == 1
  {
    if n >= 10 {
      DecimalReadsBack(n / 10);
      var high := Decimal(n / 10);
      var d := [(n % 10) as char + '0' as char];
      assert Decimal(n) == high + d;
      assert (high + d)[..|high + d| - 1] == high;
    }
  }

  /** Every order item belongs to an order that exists. */
  predicate OrdersWellFormed(db: Db) {
    forall k :: 0 <= k < |db.orderItems| ==> HasId(db.orders, db.orderItems[k].data.parentId)
  }

  /** Every pre-order item belongs to a pre-order that exists. */
  predicate PreordersWellFormed(db: Db) {
    forall k :: 0 <= k < |db.preorderItems| ==> HasId(db.preorders, db.preorderItems[k].data.parentId)
  }

  /** Every item row belongs to an order (pre-order) that exists: the
      cascade the routes maintain by hand. */
  predicate WellFormed(db: Db) {
    OrdersWellFormed(db) && PreordersWellFormed(db)
  }
}
