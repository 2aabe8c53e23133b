/** Stock accounting: the `sold_items` read-modify-write that order
    creation, pre-order conversion and order deletion perform once per line
    (`backend/routes/orders.js`, `backend/routes/preorders.js`). */
module Stock {
  import opened Wrappers
  import opened Store
  import opened Schema

  /** Creating or converting sells the lines; deleting an order restores
      them. */
  datatype Direction = Sell | Restore

  function Signed(dir: Direction, q: int): int {
    match dir
    case Sell => q
    case Restore => -q
  }

  /** The total quantity of the lines naming product `pid`. */
  function QtyOf(lines: seq<Line>, pid: Id): int {
    if |lines| == 0 then 0
    else (if lines[0].productId == pid then lines[0].quantity else 0) + QtyOf(lines[1..], pid)
  }

  /** The update patch `{sold_items: sold}`. */
  function SetSold(sold: int): Product -> Product {
    (p: Product) => p.(soldItems := sold)
  }

  /** Two product tables hold the same rows in the same order and differ
      at most in `sold_items` and in the update stamp. */
  predicate OnlySoldChanged(before: Table<Product>, after: Table<Product>) {
    && |after| == |before|
    && forall i :: 0 <= i < |before| ==>
         && after[i].id == before[i].id
         && after[i].createdAt == before[i].createdAt
         && after[i].data == before[i].data.(soldItems := after[i].data.soldItems)
  }

  /** Each product's `sold_items` (the first row with its id: the one
      `getById` reads and `update` writes) moved by exactly the lines'
      quantity for it, in the given direction; later duplicates of an id do
      not move. */
  predicate SoldMovedBy(before: Table<Product>, after: Table<Product>, lines: seq<Line>, dir: Direction)
    requires |after| == |before|
  {
    forall i :: 0 <= i < |before| ==>
      after[i].data.soldItems ==
        before[i].data.soldItems + (if FirstWithId(before, i) then Signed(dir, QtyOf(lines, before[i].id)) else 0)
  }

  /** One line's stock step: if `getById('products', pid)` finds a row, its
      `sold_items` becomes the value read plus `delta`; otherwise nothing
      happens. */
  function Bump(products: Table<Product>, pid: Id, delta: int, now: Time): (r: Table<Product>)
    ensures OnlySoldChanged(products, r)
    ensures forall i :: 0 <= i < |products| ==>
      r[i].data.soldItems ==
        products[i].data.soldItems + (if products[i].id == pid && FirstWithId(products, i) then delta else 0)
  {
    match GetById(products, pid)
    case None => products
    case Some(row) =>
      match Update(products, pid, SetSold(row.data.soldItems + delta), now)
      case Success(t) => t
      case Failure(_) => products
  }

  /** Rows keep their ids, so they keep being (or not being) the first row
      with their id. */
  lemma SameIdsSameFirst(a: Table<Product>, b: Table<Product>)
    requires |a| == |b|
    requires forall i :: 0 <= i < |a| ==> a[i].id == b[i].id
    ensures forall i :: 0 <= i < |a| ==> (FirstWithId(a, i) <==> FirstWithId(b, i))
  {
  }

  /** The per-line loop: for each line in order, bump its product. */
  function AdjustSold(products: Table<Product>, lines: seq<Line>, dir: Direction, now: Time): (r: Table<Product>)
    ensures OnlySoldChanged(products, r)
    ensures SoldMovedBy(products, r, lines, dir)
    decreases |lines|
  {
    if |lines| == 0 then products
    else
      var bumped := Bump(products, lines[0].productId, Signed(dir, lines[0].quantity), now);
      var r := AdjustSold(bumped, lines[1..], dir, now);
      SameIdsSameFirst(products, bumped);
      r
  }

  /** The `sold_items` of the first row carrying `pid`, if there is one. */
  function SoldOf(products: Table<Product>, pid: Id): Option<int> {
    match IndexOf(products, pid)
    case None => None
    case Some(i) => Some(products[i].data.soldItems)
  }

  /** Selling lines and then restoring the same lines puts every product
      row back as it was, except for its update stamp. */
  lemma SellThenRestore(products: Table<Product>, lines: seq<Line>, t1: Time, t2: Time)
    ensures var back := AdjustSold(AdjustSold(products, lines, Sell, t1), lines, Restore, t2);
      && |back| == |products|
      && forall i :: 0 <= i < |products| ==>
           back[i].id == products[i].id && back[i].data == products[i].data && back[i].createdAt == products[i].createdAt
  {
    var sold := AdjustSold(products, lines, Sell, t1);
    SameIdsSameFirst(products, sold);
  }

  /** Selling keyed by product: a product present before is present after,
      and its `sold_items` rose by exactly its lines' total quantity; a
      product absent before stays absent. */
  lemma AdjustSoldPerProduct(products: Table<Product>, lines: seq<Line>, dir: Direction, now: Time, pid: Id)
    ensures var r := AdjustSold(products, lines, dir, now);
      && (SoldOf(products, pid).None? <==> SoldOf(r, pid).None?)
      && (SoldOf(products, pid).Some? ==>
            SoldOf(r, pid).value == SoldOf(products, pid).value + Signed(dir, QtyOf(lines, pid)))
  {
    var r := AdjustSold(products, lines, dir, now);
    assert forall i :: 0 <= i < |products| ==> r[i].id == products[i].id;
    SameIdsSameFirst(products, r);
    match IndexOf(products, pid)
    case None =>
      assert !HasId(r, pid);
    case Some(i) =>
      assert HasId(r, pid);
  }

  /** The quantities of a concatenation add up. */
  lemma {:induction false} QtyOfAppend(a: seq<Line>, b: seq<Line>, pid: Id)
    ensures QtyOf(a + b, pid) == QtyOf(a, pid) + QtyOf(b, pid)
  {
    if |a| == 0 {
      assert a + b == b;
    } else {
      assert (a + b)[1..] == a[1..] + b;
      QtyOfAppend(a[1..], b, pid);
    }
  }
}
