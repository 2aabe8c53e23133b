/** The cart of the sales page (`frontend/src/pages/Orders.jsx`): adding and
    setting quantities are held to the product's remaining stock as the page
    last listed it, and checkout needs a non-empty cart, a phone and a name. */
module SaleCart {
  import opened Wrappers
  import opened Store
  import opened Schema
  import opened Stock
  import opened Products
  import opened Orders
  import opened Cart

  /** `products.find(p => p.id === pid)` over the page's product list, as
      an index. */
  function ShelfIndex(shelf: seq<Listed>, pid: Id): (r: Option<nat>)
    ensures r.None? <==> forall k :: 0 <= k < |shelf| ==> shelf[k].row.id != pid
    ensures r.Some? ==> r.value < |shelf| && shelf[r.value].row.id == pid
    ensures r.Some? ==> forall j :: 0 <= j < r.value ==> shelf[j].row.id != pid
  {
    if |shelf| == 0 then None
    else if shelf[0].row.id == pid then Some(0)
    else
      match ShelfIndex(shelf[1..], pid)
      case None =>
        assert forall k :: 1 <= k < |shelf| ==> shelf[k] == shelf[1..][k - 1];
        None
      case Some(k) => Some(k + 1)
  }

  /** Every line is for a listed product and holds no more than it has
      remaining. */
  predicate WithinStock(cart: Cart, shelf: seq<Listed>) {
    forall i :: 0 <= i < |cart| ==>
      match ShelfIndex(shelf, cart[i].productId)
      case None => false
      case Some(k) => cart[i].quantity <= shelf[k].remaining
  }

  /** The sales page's cart invariant. */
  predicate SaleCartOk(cart: Cart, shelf: seq<Listed>) {
    WellKept(cart) && WithinStock(cart, shelf)
  }

  /** `addToCart`: an out-of-stock product is refused, and so is one more
      unit of a product whose line already holds all that remains; otherwise
      one unit is added. */
  function AddToSale(cart: Cart, product: Listed): (r: Cart)
    ensures product.remaining <= 0 ==> r == cart
    ensures product.remaining > 0 && !Holds(cart, product.row.id) ==> r == AddProduct(cart, product)
    ensures r == cart || r == AddProduct(cart, product)
  {
    if product.remaining <= 0 then cart
    else
      match FindLine(cart, product.row.id)
      case Some(k) => if cart[k].quantity >= product.remaining then cart else AddProduct(cart, product)
      case None => AddProduct(cart, product)
  }

  /** The add is accepted exactly when the cart holds fewer units of the
      product than remain, and then it adds one unit of that product and
      nothing else. */
  lemma SaleAddCount(cart: Cart, product: Listed, pid: Id)
    requires WellKept(cart)
    ensures QtyOf(AddToSale(cart, product), pid) ==
      QtyOf(cart, pid) + (if pid == product.row.id && QtyOf(cart, pid) < product.remaining then 1 else 0)
  {
    QtyOfOneLine(cart, product.row.id);
    if AddToSale(cart, product) != cart {
      AddCount(cart, product, pid);
    }
  }

  /** Adding a product from the list keeps the cart within stock. */
  lemma SaleAddKeepsStock(cart: Cart, shelf: seq<Listed>, k: nat)
    requires k < |shelf| && ShelfIndex(shelf, shelf[k].row.id) == Some(k)
    requires SaleCartOk(cart, shelf)
    ensures SaleCartOk(AddToSale(cart, shelf[k]), shelf)
  {
    var product := shelf[k];
    var r := AddToSale(cart, product);
    if r != cart {
      AddKeepsShape(cart, product);
      match FindLine(cart, product.row.id)
      case None =>
        assert forall i :: 0 <= i < |cart| ==> r[i] == cart[i];
      case Some(j) =>
        OneLineTouched(cart, product.row.id, j, 0);
    }
  }

  /** `updateQuantity`: a quantity below one is ignored, and so is one above
      the product's remaining stock; otherwise the product's line takes the
      quantity. A product missing from the list makes the page's handler
      throw before the cart is set, so the cart is unchanged. */
  function UpdateSaleQuantity(cart: Cart, shelf: seq<Listed>, pid: Id, q: int): (r: Cart)
    ensures |r| == |cart|
    ensures forall i :: 0 <= i < |cart| ==> r[i].productId == cart[i].productId
    ensures q < 1 || ShelfIndex(shelf, pid).None? ==> r == cart
    ensures q >= 1 && ShelfIndex(shelf, pid).Some? && q > shelf[ShelfIndex(shelf, pid).value].remaining ==> r == cart
    ensures q >= 1 && ShelfIndex(shelf, pid).Some? && q <= shelf[ShelfIndex(shelf, pid).value].remaining ==>
      forall i :: 0 <= i < |cart| ==> r[i].quantity == if cart[i].productId == pid then q else cart[i].quantity
  {
    if q < 1 then cart
    else
      match ShelfIndex(shelf, pid)
      case None => cart
      case Some(k) => if q > shelf[k].remaining then cart else SetQuantity(cart, pid, q)
  }

  /** The update takes effect exactly when the quantity is at least one, the
      product is listed with at least that much remaining, and the cart has
      its line; then the cart holds exactly that quantity of it, and every
      other product's quantity is unchanged. */
  lemma SaleUpdateCount(cart: Cart, shelf: seq<Listed>, p: Id, q: int, pid: Id)
    requires NoDuplicates(cart)
    ensures QtyOf(UpdateSaleQuantity(cart, shelf, p, q), pid) ==
      if pid == p && Holds(cart, p) && 1 <= q && ShelfIndex(shelf, p).Some? && q <= shelf[ShelfIndex(shelf, p).value].remaining
      then q else QtyOf(cart, pid)
  {
    if 1 <= q && ShelfIndex(shelf, p).Some? && q <= shelf[ShelfIndex(shelf, p).value].remaining {
      SetCount(cart, p, q, pid);
    }
  }

  /** Setting a quantity keeps the cart within stock. */
  lemma SaleUpdateKeepsStock(cart: Cart, shelf: seq<Listed>, pid: Id, q: int)
    requires SaleCartOk(cart, shelf)
    ensures SaleCartOk(UpdateSaleQuantity(cart, shelf, pid, q), shelf)
  {
    if UpdateSaleQuantity(cart, shelf, pid, q) != cart {
      SetKeepsShape(cart, pid, q);
    }
  }

  /** Removing a product keeps the cart within stock. */
  lemma SaleRemoveKeepsStock(cart: Cart, shelf: seq<Listed>, pid: Id)
    requires SaleCartOk(cart, shelf)
    ensures SaleCartOk(RemoveProduct(cart, pid), shelf)
  {
    RemoveKeepsShape(cart, pid);
    RemoveKeepsOthers(cart, pid);
  }

  /** `handleCreateOrder`: an empty cart, a missing phone and a missing name
      are refused in that order with the page's alert; otherwise the request
      carries the form's customer fields, the cart as its items and empty
      notes. */
  function CheckoutSale(cart: Cart, form: CustomerForm): (r: Result<OrderRequest, string>)
    ensures r.Success? <==> |cart| > 0 && form.phone != "" && form.name != ""
    ensures |cart| == 0 ==> r == Failure("Cart is empty!")
    ensures |cart| > 0 && form.phone == "" ==> r == Failure("Customer phone number is required!")
    ensures |cart| > 0 && form.phone != "" && form.name == "" ==> r == Failure("Customer name is required!")
    ensures r.Success? ==> r.value.items == cart && r.value.customerPhone == form.phone && r.value.customerName == form.name
  {
    if |cart| == 0 then Failure("Cart is empty!")
    else if form.phone == "" then Failure("Customer phone number is required!")
    else if form.name == "" then Failure("Customer name is required!")
    else Success(OrderRequest(form.name, form.phone, form.email, form.address, cart, ""))
  }

  /** A request the page lets through is never refused by the server, and
      the order it writes carries as its total the cart total the page
      showed (`cartTotal`), which on a priced cart is quantity × unit price
      summed over the lines. */
  lemma CheckoutPlacesOrder(db: Db, cart: Cart, form: CustomerForm, now: Time)
    requires CheckoutSale(cart, form).Success?
    ensures var r := CreateOrder(db, CheckoutSale(cart, form).value, now);
      && r.Success?
      && |r.value.db.orders| == |db.orders| + 1
      && r.value.db.orders[|db.orders|].data.totalAmount == Total(cart)
      && (Priced(cart) ==> r.value.db.orders[|db.orders|].data.totalAmount == Charged(cart))
  {
    if Priced(cart) {
      PricedTotal(cart);
    }
  }

  /** The page's stock guard holds at the server: checking out a cart kept
      within the stock of a fresh listing drives no product in it below zero
      remaining, and leaves the remaining stock of every other product as it
      was. */
  lemma NoOversell(db: Db, cart: Cart, form: CustomerForm, now: Time)
    requires SaleCartOk(cart, ListProducts(db.products))
    requires CheckoutSale(cart, form).Success?
    ensures var after := CreateOrder(db, CheckoutSale(cart, form).value, now).value.db.products;
      && |after| == |db.products|
      && forall i :: 0 <= i < |db.products| && FirstWithId(db.products, i) ==>
           && (Holds(cart, db.products[i].id) ==> Remaining(after[i].data) >= 0)
           && (!Holds(cart, db.products[i].id) ==> Remaining(after[i].data) == Remaining(db.products[i].data))
  {
    var req := CheckoutSale(cart, form).value;
    OrderLowersRemaining(db, req, now);
    forall i | 0 <= i < |db.products| && FirstWithId(db.products, i)
      ensures Holds(cart, db.products[i].id) ==> QtyOf(cart, db.products[i].id) <= Remaining(db.products[i].data)
      ensures !Holds(cart, db.products[i].id) ==> QtyOf(cart, db.products[i].id) == 0
    {
      HeldWithinRemaining(db.products, cart, i);
    }
  }

  /** A cart within the stock of a fresh listing holds, of each product, no
      more than its first row has remaining, and nothing of a product it has
      no line for. */
  lemma HeldWithinRemaining(t: Table<Product>, cart: Cart, i: nat)
    requires SaleCartOk(cart, ListProducts(t))
    requires i < |t| && FirstWithId(t, i)
    ensures Holds(cart, t[i].id) ==> QtyOf(cart, t[i].id) <= Remaining(t[i].data)
    ensures !Holds(cart, t[i].id) ==> QtyOf(cart, t[i].id) == 0
  {
    var pid := t[i].id;
    QtyOfOneLine(cart, pid);
    match FindLine(cart, pid)
    case None =>
    case Some(j) =>
      ShelfIndexOfFirst(t, i);
      assert ListProducts(t)[i].remaining == Remaining(t[i].data);
  }

  /** In a fresh listing the first entry with an id is the first row with
      that id. */
  lemma ShelfIndexOfFirst(t: Table<Product>, i: nat)
    requires i < |t| && FirstWithId(t, i)
    ensures ShelfIndex(ListProducts(t), t[i].id) == Some(i)
  {
    var shelf := ListProducts(t);
    var id := t[i].id;
    assert shelf[i].row == t[i];
    var r := ShelfIndex(shelf, id);
    assert r.Some?;
    var k := r.value;
    assert shelf[k].row == t[k];
    if k < i {
      assert false;
    } else if k > i {
      assert false;
    }
  }
}
