/** The cart both point-of-sale pages keep (`frontend/src/pages/Orders.jsx`,
    `frontend/src/pages/PreOrders.jsx`): a list of lines, at most one per
    product, each priced at quantity × unit price. This module holds the
    list edits the two pages share and the invariants they keep. */
module Cart {
  import opened Wrappers
  import opened Store
  import opened Schema
  import opened Stock
  import opened Products

  /** The cart is sent as the request's `items`, so its lines are the
      request lines. */
  type Cart = seq<Line>

  /** The customer fields of the checkout form; empty when not filled in. */
  datatype CustomerForm = CustomerForm(name: string, phone: string, email: string, address: string)

  predicate Holds(cart: Cart, pid: Id) {
    exists i :: 0 <= i < |cart| && cart[i].productId == pid
  }

  /** `cart.find(item => item.product_id === pid)`, as an index. */
  function FindLine(cart: Cart, pid: Id): (r: Option<nat>)
    ensures r.None? <==> !Holds(cart, pid)
    ensures r.Some? ==> r.value < |cart| && cart[r.value].productId == pid
    ensures r.Some? ==> forall j :: 0 <= j < r.value ==> cart[j].productId != pid
  {
    if |cart| == 0 then None
    else if cart[0].productId == pid then Some(0)
    else
      match FindLine(cart[1..], pid)
      case None =>
        assert forall i :: 1 <= i < |cart| ==> cart[i] == cart[1..][i - 1];
        None
      case Some(k) => Some(k + 1)
  }

  /** At most one line per product. */
  predicate NoDuplicates(cart: Cart) {
    forall i, j :: 0 <= i < j < |cart| ==> cart[i].productId != cart[j].productId
  }

  /** Every line's subtotal is its quantity times its unit price. */
  predicate Priced(cart: Cart) {
    forall i :: 0 <= i < |cart| ==> cart[i].subtotal == cart[i].quantity * cart[i].unitPrice
  }

  /** Every line holds at least one unit. */
  predicate Positive(cart: Cart) {
    forall i :: 0 <= i < |cart| ==> cart[i].quantity >= 1
  }

  /** The shape both pages keep. */
  predicate WellKept(cart: Cart) {
    NoDuplicates(cart) && Priced(cart) && Positive(cart)
  }

  /** `{...item, quantity: q, subtotal: q * item.unit_price}`. */
  function WithQuantity(line: Line, q: int): Line {
    line.(quantity := q, subtotal := q * line.unitPrice)
  }

  /** `cart.map(item => item.product_id === pid ? {…quantity + 1…} : item)`. */
  function Increment(cart: Cart, pid: Id): (r: Cart)
    ensures |r| == |cart|
    ensures forall i :: 0 <= i < |cart| ==>
      r[i] == if cart[i].productId == pid then WithQuantity(cart[i], cart[i].quantity + 1) else cart[i]
  {
    seq(|cart|, i requires 0 <= i < |cart| =>
      if cart[i].productId == pid then WithQuantity(cart[i], cart[i].quantity + 1) else cart[i])
  }

  /** `cart.map(item => item.product_id === pid ? {…quantity: q…} : item)`. */
  function SetQuantity(cart: Cart, pid: Id, q: int): (r: Cart)
    ensures |r| == |cart|
    ensures forall i :: 0 <= i < |cart| ==>
      r[i] == if cart[i].productId == pid then WithQuantity(cart[i], q) else cart[i]
  {
    seq(|cart|, i requires 0 <= i < |cart| =>
      if cart[i].productId == pid then WithQuantity(cart[i], q) else cart[i])
  }

  /** The line a product enters the cart with: one unit at its price. */
  function NewLine(product: Listed): Line {
    Line(product.row.id, product.row.data.itemName, 1, product.row.data.price, product.row.data.price)
  }

  /** The add step once any stock check has passed: one more unit on the
      product's line, or a new line. */
  function AddProduct(cart: Cart, product: Listed): Cart {
    if Holds(cart, product.row.id) then Increment(cart, product.row.id)
    else cart + [NewLine(product)]
  }

  /** `cart.filter(item => item.product_id !== pid)`: no line of the product
      stays, and the cart does not grow. */
  function RemoveProduct(cart: Cart, pid: Id): (r: Cart)
    ensures |r| <= |cart|
    ensures forall k :: 0 <= k < |r| ==> r[k].productId != pid
  {
    if |cart| == 0 then []
    else (if cart[0].productId == pid then [] else [cart[0]]) + RemoveProduct(cart[1..], pid)
  }

  /** Removal drops the product's lines and keeps every other line. */
  lemma {:induction false} RemoveKeepsOthers(cart: Cart, pid: Id)
    ensures !Holds(RemoveProduct(cart, pid), pid)
    ensures forall i :: 0 <= i < |RemoveProduct(cart, pid)| ==> RemoveProduct(cart, pid)[i] in cart
    ensures forall i :: 0 <= i < |cart| && cart[i].productId != pid ==> cart[i] in RemoveProduct(cart, pid)
  {
    if |cart| > 0 {
      RemoveKeepsOthers(cart[1..], pid);
      assert forall i :: 1 <= i < |cart| ==> cart[i] == cart[1..][i - 1];
    }
  }

  /** The units of the product the cart holds: its line's quantity, or 0. */
  lemma {:induction false} QtyOfOneLine(cart: Cart, pid: Id)
    requires NoDuplicates(cart)
    ensures QtyOf(cart, pid) == match FindLine(cart, pid) case None => 0 case Some(k) => cart[k].quantity
  {
    if |cart| > 0 {
      QtyOfOneLine(cart[1..], pid);
      if cart[0].productId == pid {
        assert !Holds(cart[1..], pid) by {
          forall j | 0 <= j < |cart[1..]|
            ensures cart[1..][j].productId != pid
          {
            assert cart[1..][j] == cart[j + 1];
          }
        }
      }
    }
  }

  /** Adding a product keeps one priced, non-empty line per product. */
  lemma AddKeepsShape(cart: Cart, product: Listed)
    requires WellKept(cart)
    ensures WellKept(AddProduct(cart, product))
  {
    var r := AddProduct(cart, product);
    if !Holds(cart, product.row.id) {
      assert forall i :: 0 <= i < |cart| ==> r[i] == cart[i];
    }
  }

  /** Setting a positive quantity keeps one priced, non-empty line per
      product. */
  lemma SetKeepsShape(cart: Cart, pid: Id, q: int)
    requires WellKept(cart)
    requires q >= 1
    ensures WellKept(SetQuantity(cart, pid, q))
  {
  }

  /** Removing a product keeps one priced, non-empty line per product. */
  lemma RemoveKeepsShape(cart: Cart, pid: Id)
    requires WellKept(cart)
    ensures WellKept(RemoveProduct(cart, pid))
    decreases |cart|
  {
    if |cart| > 0 {
      var rest := RemoveProduct(cart[1..], pid);
      assert forall i :: 1 <= i < |cart| ==> cart[i] == cart[1..][i - 1];
      RemoveKeepsShape(cart[1..], pid);
      RemoveKeepsOthers(cart[1..], pid);
      if cart[0].productId != pid {
        forall k | 0 <= k < |rest|
          ensures rest[k].productId != cart[0].productId
        {
          var j :| 0 <= j < |cart[1..]| && cart[1..][j] == rest[k];
          assert cart[j + 1] == rest[k];
        }
      }
    }
  }

  /** Replacing one line moves the total by the change in its subtotal. */
  lemma {:induction false} TotalReplace(cart: Cart, k: nat, x: Line)
    requires k < |cart|
    ensures Total(cart[k := x]) == Total(cart) - cart[k].subtotal + x.subtotal
  {
    var after := cart[k := x];
    assert cart == cart[..k] + [cart[k]] + cart[k + 1..];
    assert after == cart[..k] + [x] + cart[k + 1..];
    TotalAppend(cart[..k] + [cart[k]], cart[k + 1..]);
    TotalAppend(cart[..k], [cart[k]]);
    TotalAppend(cart[..k] + [x], cart[k + 1..]);
    TotalAppend(cart[..k], [x]);
    assert Total([cart[k]]) == cart[k].subtotal by {
      assert [cart[k]][..0] == [];
    }
    assert Total([x]) == x.subtotal by {
      assert [x][..0] == [];
    }
  }

  /** On a priced cart, adding a product raises the total by one unit price:
      the price the line was first added at when the product is already in
      the cart, the product's current price otherwise. */
  lemma {:induction false} AddTotal(cart: Cart, product: Listed)
    requires WellKept(cart)
    ensures Total(AddProduct(cart, product)) ==
      Total(cart) + match FindLine(cart, product.row.id)
                    case None => product.row.data.price
                    case Some(k) => cart[k].unitPrice
  {
    var pid := product.row.id;
    match FindLine(cart, pid)
    case None =>
      TotalAppend(cart, [NewLine(product)]);
      assert [NewLine(product)][..0] == [];
    case Some(k) =>
      var bumped := WithQuantity(cart[k], cart[k].quantity + 1);
      assert Increment(cart, pid) == cart[k := bumped];
      TotalReplace(cart, k, bumped);
  }

  /** On a cart with one line per product, removing a product lowers the
      total by its line's subtotal. */
  lemma RemoveTotal(cart: Cart, pid: Id)
    requires NoDuplicates(cart)
    ensures Total(RemoveProduct(cart, pid)) ==
      Total(cart) - match FindLine(cart, pid) case None => 0 case Some(k) => cart[k].subtotal
  {
    match FindLine(cart, pid)
    case None =>
      RemoveAbsent(cart, pid);
    case Some(k) =>
      RemoveCutsLine(cart, pid, k);
      TotalSkip(cart, k);
  }

  /** Removing a product drops exactly its one line. */
  lemma RemoveCutsLine(cart: Cart, pid: Id, k: nat)
    requires NoDuplicates(cart)
    requires FindLine(cart, pid) == Some(k)
    ensures RemoveProduct(cart, pid) == cart[..k] + cart[k + 1..]
  {
    var head, tail := cart[..k], cart[k + 1..];
    assert !Holds(head, pid) by {
      forall j | 0 <= j < |head|
        ensures head[j].productId != pid
      {
        assert head[j] == cart[j];
      }
    }
    assert !Holds(tail, pid) by {
      forall j | 0 <= j < |tail|
        ensures tail[j].productId != pid
      {
        assert tail[j] == cart[k + 1 + j];
      }
    }
    assert cart == head + [cart[k]] + tail;
    RemoveMiddle(head, cart[k], tail, pid);
  }

  /** Removing a product whose one line sits between two stretches without
      it leaves the two stretches. */
  lemma RemoveMiddle(head: Cart, x: Line, tail: Cart, pid: Id)
    requires !Holds(head, pid) && !Holds(tail, pid)
    requires x.productId == pid
    ensures RemoveProduct(head + [x] + tail, pid) == head + tail
  {
    RemoveAbsent(head, pid);
    RemoveAbsent(tail, pid);
    assert RemoveProduct([x], pid) == [] by {
      assert [x][1..] == [];
    }
    RemoveAppend(head, [x], pid);
    RemoveAppend(head + [x], tail, pid);
  }

  /** Leaving one line out lowers the total by its subtotal. */
  lemma {:induction false} TotalSkip(cart: Cart, k: nat)
    requires k < |cart|
    ensures Total(cart[..k] + cart[k + 1..]) == Total(cart) - cart[k].subtotal
  {
    var head, x, tail := cart[..k], [cart[k]], cart[k + 1..];
    assert cart == head + x + tail;
    TotalAppend(head + x, tail);
    TotalAppend(head, x);
    TotalAppend(head, tail);
    assert Total(x) == cart[k].subtotal by {
      assert x[..0] == [];
    }
  }

  /** Removing a product the cart does not hold changes nothing. */
  lemma {:induction false} RemoveAbsent(cart: Cart, pid: Id)
    requires !Holds(cart, pid)
    ensures RemoveProduct(cart, pid) == cart
  {
    if |cart| > 0 {
      assert !Holds(cart[1..], pid) by {
        forall j | 0 <= j < |cart[1..]|
          ensures cart[1..][j].productId != pid
        {
          assert cart[1..][j] == cart[j + 1];
        }
      }
      RemoveAbsent(cart[1..], pid);
    }
  }

  /** Removing from a concatenation removes from each part. */
  lemma {:induction false} RemoveAppend(a: Cart, b: Cart, pid: Id)
    ensures RemoveProduct(a + b, pid) == RemoveProduct(a, pid) + RemoveProduct(b, pid)
  {
    if |a| == 0 {
      assert a + b == b;
    } else {
      assert (a + b)[1..] == a[1..] + b;
      RemoveAppend(a[1..], b, pid);
    }
  }

  /** Replacing one line moves a product's quantity by the change on that
      line. */
  lemma QtyOfReplace(cart: Cart, k: nat, x: Line, pid: Id)
    requires k < |cart|
    ensures QtyOf(cart[k := x], pid) ==
      QtyOf(cart, pid) - (if cart[k].productId == pid then cart[k].quantity else 0)
                       + (if x.productId == pid then x.quantity else 0)
  {
    assert cart == cart[..k] + [cart[k]] + cart[k + 1..];
    assert cart[k := x] == cart[..k] + [x] + cart[k + 1..];
    QtyOfAppend(cart[..k] + [cart[k]], cart[k + 1..], pid);
    QtyOfAppend(cart[..k], [cart[k]], pid);
    QtyOfAppend(cart[..k] + [x], cart[k + 1..], pid);
    QtyOfAppend(cart[..k], [x], pid);
    assert [x][1..] == [] && [cart[k]][1..] == [];
  }

  /** On a cart with one line per product, `Increment` and `SetQuantity`
      touch the product's one line only. */
  lemma OneLineTouched(cart: Cart, pid: Id, k: nat, q: int)
    requires NoDuplicates(cart)
    requires FindLine(cart, pid) == Some(k)
    ensures Increment(cart, pid) == cart[k := WithQuantity(cart[k], cart[k].quantity + 1)]
    ensures SetQuantity(cart, pid, q) == cart[k := WithQuantity(cart[k], q)]
  {
  }

  /** Adding a product puts exactly one more unit of it in the cart and
      leaves every other product's quantity alone. */
  lemma AddCount(cart: Cart, product: Listed, pid: Id)
    requires WellKept(cart)
    ensures QtyOf(AddProduct(cart, product), pid) == QtyOf(cart, pid) + (if pid == product.row.id then 1 else 0)
  {
    var p := product.row.id;
    match FindLine(cart, p)
    case None =>
      QtyOfAppend(cart, [NewLine(product)], pid);
      assert [NewLine(product)][1..] == [];
    case Some(k) =>
      OneLineTouched(cart, p, k, 0);
      QtyOfReplace(cart, k, WithQuantity(cart[k], cart[k].quantity + 1), pid);
  }

  /** Setting a product's quantity makes the cart hold exactly that many
      units of it when it has a line, and leaves every other product's
      quantity alone. */
  lemma SetCount(cart: Cart, p: Id, q: int, pid: Id)
    requires NoDuplicates(cart)
    ensures QtyOf(SetQuantity(cart, p, q), pid) ==
      if pid == p && Holds(cart, p) then q else QtyOf(cart, pid)
  {
    match FindLine(cart, p)
    case None =>
      assert SetQuantity(cart, p, q) == cart;
    case Some(k) =>
      OneLineTouched(cart, p, k, q);
      QtyOfReplace(cart, k, WithQuantity(cart[k], q), pid);
      if pid == p {
        QtyOfOneLine(cart, p);
      }
  }

  /** Quantity × unit price, summed over the lines: what the cart would
      charge if the subtotals were recomputed. */
  function Charged(cart: Cart): int {
    if |cart| == 0 then 0 else Charged(cart[..|cart| - 1]) + cart[|cart| - 1].quantity * cart[|cart| - 1].unitPrice
  }

  /** On a priced cart the summed subtotals the server stores as the total
      equal the recomputed charge. */
  lemma {:induction false} PricedTotal(cart: Cart)
    requires Priced(cart)
    ensures Total(cart) == Charged(cart)
  {
    if |cart| > 0 {
      PricedTotal(cart[..|cart| - 1]);
    }
  }
}
