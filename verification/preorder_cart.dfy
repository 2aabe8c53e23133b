/** The cart of the pre-order page (`frontend/src/pages/PreOrders.jsx`): the
    same line edits as the sales page with no stock bound, and a checkout
    that needs only a non-empty cart and a phone. */
module PreorderCart {
  import opened Wrappers
  import opened Store
  import opened Schema
  import opened Stock
  import opened Products
  import opened Orders
  import opened Preorders
  import opened Cart

  /** `addToCart`: one more unit of the product, whatever its stock. */
  function AddToPreorder(cart: Cart, product: Listed): (r: Cart)
    ensures |r| == |cart| + (if Holds(cart, product.row.id) then 0 else 1)
    ensures Holds(r, product.row.id)
  {
    var r := AddProduct(cart, product);
    if Holds(cart, product.row.id) then
      var k := FindLine(cart, product.row.id).value;
      assert r[k].productId == product.row.id;
      r
    else
      assert r[|cart|].productId == product.row.id;
      r
  }

  /** Every add is accepted: it adds one unit of the product and nothing
      else, keeps the cart's shape, and raises the total by one unit
      price. */
  lemma PreorderAddCount(cart: Cart, product: Listed, pid: Id)
    requires WellKept(cart)
    ensures QtyOf(AddToPreorder(cart, product), pid) == QtyOf(cart, pid) + (if pid == product.row.id then 1 else 0)
    ensures WellKept(AddToPreorder(cart, product))
  {
    AddCount(cart, product, pid);
    AddKeepsShape(cart, product);
  }

  /** `updateQuantity`: a quantity below one is ignored; any other quantity
      is taken, with no upper bound. */
  function UpdatePreorderQuantity(cart: Cart, pid: Id, q: int): (r: Cart)
    ensures |r| == |cart|
    ensures forall i :: 0 <= i < |cart| ==> r[i].productId == cart[i].productId
    ensures q < 1 ==> r == cart
    ensures q >= 1 ==> forall i :: 0 <= i < |cart| ==> r[i].quantity == if cart[i].productId == pid then q else cart[i].quantity
  {
    if q < 1 then cart else SetQuantity(cart, pid, q)
  }

  /** The update takes effect exactly when the quantity is at least one and
      the cart has the product's line; then the cart holds exactly that
      quantity of it. Either way the cart keeps its shape. */
  lemma PreorderUpdateCount(cart: Cart, p: Id, q: int, pid: Id)
    requires WellKept(cart)
    ensures QtyOf(UpdatePreorderQuantity(cart, p, q), pid) ==
      if pid == p && Holds(cart, p) && 1 <= q then q else QtyOf(cart, pid)
    ensures WellKept(UpdatePreorderQuantity(cart, p, q))
  {
    if 1 <= q {
      SetCount(cart, p, q, pid);
      SetKeepsShape(cart, p, q);
    }
  }

  /** `handleCreatePreorder`: an empty cart and a missing phone are refused
      in that order with the page's alert; a missing name is let through.
      The request carries the form's customer fields, the cart as its items
      and empty notes. */
  function CheckoutPreorder(cart: Cart, form: CustomerForm): (r: Result<OrderRequest, string>)
    ensures r.Success? <==> |cart| > 0 && form.phone != ""
    ensures |cart| == 0 ==> r == Failure("Please add items to the cart first!")
    ensures |cart| > 0 && form.phone == "" ==> r == Failure("Customer phone number is required!")
    ensures r.Success? ==> r.value.items == cart && r.value.customerPhone == form.phone && r.value.customerName == form.name
  {
    if |cart| == 0 then Failure("Please add items to the cart first!")
    else if form.phone == "" then Failure("Customer phone number is required!")
    else Success(OrderRequest(form.name, form.phone, form.email, form.address, cart, ""))
  }

  /** A request the page lets through is never refused by the server; the
      pre-order it writes carries the total the page showed
      (`calculateTotal`), is pending, and no stock moves. */
  lemma CheckoutBooksPreorder(db: Db, cart: Cart, form: CustomerForm, now: Time)
    requires CheckoutPreorder(cart, form).Success?
    ensures var r := CreatePreorder(db, CheckoutPreorder(cart, form).value, now);
      && r.Success?
      && |r.value.db.preorders| == |db.preorders| + 1
      && r.value.db.preorders[|db.preorders|].data.totalAmount == Total(cart)
      && r.value.db.preorders[|db.preorders|].data.status == Pending
      && r.value.db.products == db.products
  {
  }
}
