/** The catalog routes of `backend/routes/products.js`: the listing with
    its derived `remaining_items`, get, create with its defaults, update of
    the editable fields, delete and the low-stock filter. */
module Products {
  import opened Wrappers
  import opened Store
  import opened Schema
  import opened Stock
  import opened Orders

  /** The body of POST `/` and PUT `/:id`. Absent strings are empty; the
      two numbers are optional because creation gives them a default. */
  datatype ProductRequest = ProductRequest(
    serialNo: string,
    productCode: string,
    itemName: string,
    itemCategory: string,
    unit: string,
    totalStock: Option<int>,
    price: Option<int>)

  /** A product row as the listing returns it, with `remaining_items`. */
  datatype Listed = Listed(row: Row<Product>, remaining: int)

  /** A write's new table and the row the route answers with. */
  datatype Saved = Saved(table: Table<Product>, product: Row<Product>)

  /** `(total_stock || 0) - (sold_items || 0)`; a missing number is 0. */
  function Remaining(p: Product): int {
    p.totalStock - p.soldItems
  }

  function WithRemaining(row: Row<Product>): Listed {
    Listed(row, Remaining(row.data))
  }

  /** `n || 0` for an optional number (0 itself is falsy and gives 0). */
  function OrZero(n: Option<int>): int {
    if n.Some? then n.value else 0
  }

  /** GET `/`: every row, in sheet order, with its remaining stock. */
  function ListProducts(t: Table<Product>): (r: seq<Listed>)
    ensures |r| == |t|
    ensures forall i :: 0 <= i < |t| ==> r[i].row == t[i] && r[i].remaining == t[i].data.totalStock - t[i].data.soldItems
  {
    if |t| == 0 then [] else [WithRemaining(t[0])] + ListProducts(t[1..])
  }

  /** GET `/:id`: the row `getById` finds, or 404 "Product not found". */
  function GetProduct(t: Table<Product>, id: Id): Result<Row<Product>, Error> {
    GetOr404(t, id, "Product not found")
  }

  /** `PROD-${timestamp}-${random}`; the route draws `random` from
      1000..9999. */
  function GeneratedSerial(now: Time, random: nat): string {
    "PROD-" + Decimal(now) + "-" + Decimal(random)
  }

  /** The record POST `/` inserts: a supplied serial number, or a generated
      one; the code, name and category as given; `unit || 'pcs'`;
      `total_stock || 0`; nothing sold; `price || 0`. */
  function NewProduct(req: ProductRequest, now: Time, random: nat): (r: Product)
    ensures r.serialNo == if req.serialNo != "" then req.serialNo else GeneratedSerial(now, random)
    ensures r.productCode == req.productCode && r.itemName == req.itemName && r.itemCategory == req.itemCategory
    ensures r.unit != "" && (req.unit != "" ==> r.unit == req.unit) && (req.unit == "" ==> r.unit == "pcs")
    ensures r.totalStock == (if req.totalStock.Some? then req.totalStock.value else 0)
    ensures r.price == (if req.price.Some? then req.price.value else 0)
    ensures r.soldItems == 0 && Remaining(r) == r.totalStock
  {
    Product(
      if req.serialNo != "" then req.serialNo else GeneratedSerial(now, random),
      req.productCode,
      req.itemName,
      req.itemCategory,
      if req.unit != "" then req.unit else "pcs",
      OrZero(req.totalStock),
      0,
      OrZero(req.price))
  }

  /** POST `/`: inserts the product with its defaults and answers with the
      row `getById` then finds. Nothing is sold yet, so all the stock
      remains; a supplied serial number is kept, an absent one generated. */
  function CreateProduct(t: Table<Product>, req: ProductRequest, now: Time, random: nat): (r: Saved)
    ensures |r.table| == |t| + 1 && r.table[..|t|] == t
    ensures r.product == r.table[|t|] && r.product.id == NextId(t)
    ensures GetProduct(r.table, r.product.id) == Success(r.product)
    ensures r.product.data.soldItems == 0
    ensures Remaining(r.product.data) == r.product.data.totalStock
    ensures req.serialNo != "" ==> r.product.data.serialNo == req.serialNo
    ensures req.serialNo == "" ==> r.product.data.serialNo == GeneratedSerial(now, random)
    ensures req.serialNo == "" ==> "PROD-" <= r.product.data.serialNo
    ensures r.product.data.productCode == req.productCode
    ensures r.product.data.itemName == req.itemName
    ensures r.product.data.itemCategory == req.itemCategory
    ensures r.product.data.unit != ""
    ensures req.unit != "" ==> r.product.data.unit == req.unit
    ensures req.unit == "" ==> r.product.data.unit == "pcs"
    ensures r.product.data.totalStock == OrZero(req.totalStock)
    ensures r.product.data.price == OrZero(req.price)
  {
    var ins := Insert(t, NewProduct(req, now, random), now);
    FoundAppended(t, ins.table, ins.id);
    Saved(ins.table, ins.table[|t|])
  }

  /** The patch of PUT `/:id`: the seven editable fields are replaced (an
      absent one is written as absent) and `sold_items` is kept. */
  function Edit(req: ProductRequest): Product -> Product {
    (p: Product) => Product(req.serialNo, req.productCode, req.itemName, req.itemCategory, req.unit,
                            OrZero(req.totalStock), p.soldItems, OrZero(req.price))
  }

  /** PUT `/:id`. An absent id makes `update` throw, which the route answers
      with 500 (its `changes === 0` branch is never reached). Otherwise the
      first row with the id takes the request's fields, keeps its
      `sold_items`, and is returned; every other row is unchanged. */
  function UpdateProduct(t: Table<Product>, id: Id, req: ProductRequest, now: Time): (r: Result<Saved, Error>)
    ensures r.Failure? <==> !HasId(t, id)
    ensures r.Failure? ==> r.error == ServerError("Failed to update product")
    ensures r.Success? ==>
      && OnlyFirstEdited(t, r.value.table, id, req)
      && r.value.product.id == id
      && GetProduct(r.value.table, id) == Success(r.value.product)
  {
    match Update(t, id, Edit(req), now)
    case Failure(_) => Failure(ServerError("Failed to update product"))
    case Success(u) =>
      FoundSameIds(t, u, id);
      Success(Saved(u, GetById(u, id).value))
  }

  /** `after` is `before` with the first row carrying `id` given the
      request's fields and its own `sold_items`, id and creation stamp. */
  predicate OnlyFirstEdited(before: Table<Product>, after: Table<Product>, id: Id, req: ProductRequest) {
    && |after| == |before|
    && forall i :: 0 <= i < |before| ==>
         && after[i].id == before[i].id
         && after[i].createdAt == before[i].createdAt
         && after[i].data.soldItems == before[i].data.soldItems
         && (if before[i].id == id && FirstWithId(before, i)
             then after[i].data == Product(req.serialNo, req.productCode, req.itemName, req.itemCategory, req.unit,
                                           OrZero(req.totalStock), before[i].data.soldItems, OrZero(req.price))
             else after[i] == before[i])
  }

  /** An edit never moves `sold_items`: whatever the request, every
      product's sold count is the same after the update. */
  lemma UpdateKeepsSold(t: Table<Product>, id: Id, req: ProductRequest, now: Time, pid: Id)
    requires HasId(t, id)
    ensures SoldOf(UpdateProduct(t, id, req, now).value.table, pid) == SoldOf(t, pid)
  {
    var u := UpdateProduct(t, id, req, now).value.table;
    match IndexOf(t, pid)
    case None =>
      assert !HasId(u, pid);
    case Some(i) =>
      FoundSameIds(t, u, pid);
  }

  /** DELETE `/:id`: 404 for an absent id, otherwise every row with the id
      goes and the route answers with the row it found. */
  function DeleteProduct(t: Table<Product>, id: Id): (r: Result<Saved, Error>)
    ensures r.Failure? <==> !HasId(t, id)
    ensures r.Failure? ==> r.error == NotFound("Product not found")
    ensures r.Success? ==>
      && GetProduct(t, id) == Success(r.value.product)
      && !HasId(r.value.table, id)
      && (forall i :: 0 <= i < |r.value.table| ==> r.value.table[i] in t)
      && (forall i :: 0 <= i < |t| && t[i].id != id ==> t[i] in r.value.table)
  {
    match GetById(t, id)
    case None => Failure(NotFound("Product not found"))
    case Some(row) => Success(Saved(DeleteRow(t, id).table, row))
  }

  /** Deleting the product just created gives back the catalog. */
  lemma CreateThenDeleteProduct(t: Table<Product>, req: ProductRequest, now: Time, random: nat)
    ensures var c := CreateProduct(t, req, now, random);
      DeleteProduct(c.table, c.product.id) == Success(Saved(t, c.product))
  {
    var c := CreateProduct(t, req, now, random);
    DeleteAppended(t, c.table, c.product.id);
  }

  /** The filter of GET `/alerts/low-stock`. */
  function LowAt(threshold: int): Row<Product> -> bool {
    (row: Row<Product>) => 0 < Remaining(row.data) <= threshold
  }

  /** GET `/alerts/low-stock`: the products, in sheet order, whose
      remaining stock is positive and at most the threshold (10 when none is
      given), each with its remaining stock. */
  function LowStock(t: Table<Product>, threshold: Option<int>): (r: seq<Listed>)
    ensures var th := if threshold.Some? then threshold.value else 10;
      && (forall k :: 0 <= k < |r| ==>
            r[k].row in t && r[k].remaining == Remaining(r[k].row.data) && 0 < r[k].remaining <= th)
      && (forall i :: 0 <= i < |t| && 0 < Remaining(t[i].data) <= th ==> WithRemaining(t[i]) in r)
  {
    var th := if threshold.Some? then threshold.value else 10;
    var low := Query(t, LowAt(th));
    var r := ListProducts(low);
    assert forall i :: 0 <= i < |t| && 0 < Remaining(t[i].data) <= th ==> WithRemaining(t[i]) in r by {
      forall i | 0 <= i < |t| && 0 < Remaining(t[i].data) <= th
        ensures WithRemaining(t[i]) in r
      {
        assert LowAt(th)(t[i]);
        var j :| 0 <= j < |low| && low[j] == t[i];
        assert r[j] == WithRemaining(t[i]);
      }
    }
    r
  }

  /** The alert lists one entry per low row of the sheet, no more. */
  lemma LowStockCount(t: Table<Product>, threshold: Option<int>)
    ensures |LowStock(t, threshold)| == CountWhere(t, LowAt(if threshold.Some? then threshold.value else 10))
  {
    var th := if threshold.Some? then threshold.value else 10;
    QueryCounts(t, LowAt(th));
    assert LowStock(t, threshold) == ListProducts(Query(t, LowAt(th)));
  }

  /** Creating an order never touches `total_stock`; each product's
      remaining stock falls by exactly the quantity ordered of it. */
  lemma OrderLowersRemaining(db: Db, req: OrderRequest, now: Time)
    requires req.customerPhone != ""
    ensures var after := CreateOrder(db, req, now).value.db.products;
      && |after| == |db.products|
      && forall i :: 0 <= i < |db.products| ==>
           && after[i].data.totalStock == db.products[i].data.totalStock
           && Remaining(after[i].data) ==
                Remaining(db.products[i].data) - (if FirstWithId(db.products, i) then QtyOf(req.items, db.products[i].id) else 0)
  {
  }
}
