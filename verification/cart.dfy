/**
  The register's client-side cart: adding, removing and re-counting lines,
  the running total and change, and the submit handler that checks the
  payment before calling the sale engine.
 */
module Cart {
  import opened Base
  import opened Failures
  import opened Schema
  import Access
  import Checkout

  /** A cart line keeps the product as listed when the line was first added. */
  datatype CartLine = CartLine(product: Product, quantity: int)

  /** At most one line per product id. */
  predicate UniqueLines(cart: seq<CartLine>) {
    forall i, j :: 0 <= i < j < |cart| ==> cart[i].product.id != cart[j].product.id
  }

  /** Every quantity lies between 0 and the line's stock. */
  predicate WithinStock(cart: seq<CartLine>) {
    forall i :: 0 <= i < |cart| ==> 0 <= cart[i].quantity <= cart[i].product.stock
  }

  predicate CartInvariant(cart: seq<CartLine>) {
    UniqueLines(cart) && WithinStock(cart)
  }

  /** The index of the first line of product `id` at or after index `k`, if any. */
  function FindLineFrom(cart: seq<CartLine>, id: ProductId, k: nat): (r: Option<nat>)
    requires k <= |cart|
    ensures r.Some? ==> k <= r.value < |cart| && cart[r.value].product.id == id
    ensures r.None? <==> forall j :: k <= j < |cart| ==> cart[j].product.id != id
    decreases |cart| - k
  {
    if k == |cart| then None
    else if cart[k].product.id == id then Some(k)
    else FindLineFrom(cart, id, k + 1)
  }

  /** Every line of product `id` gains one unit. */
  function Increment(cart: seq<CartLine>, id: ProductId): (r: seq<CartLine>)
    ensures |r| == |cart|
    ensures forall i :: 0 <= i < |cart| ==>
      r[i] == if cart[i].product.id == id then cart[i].(quantity := cart[i].quantity + 1) else cart[i]
  {
    seq(|cart|, i requires 0 <= i < |cart| =>
      if cart[i].product.id == id then cart[i].(quantity := cart[i].quantity + 1) else cart[i])
  }

  /** The new cart and the error message the register shows, if any. */
  datatype Added = Added(cart: seq<CartLine>, error: Option<Failure>)

  /** Adding one unit of a product: a product not yet in the cart gets a new line of quantity 1 at the end. */
  function AddToCart(cart: seq<CartLine>, p: Product): (r: Added)
    ensures (forall j :: 0 <= j < |cart| ==> cart[j].product.id != p.id) ==>
      r == Added(cart + [CartLine(p, 1)], None)
    ensures UniqueLines(cart) ==> UniqueLines(r.cart)
  {
    match FindLineFrom(cart, p.id, 0)
    case None => Added(cart + [CartLine(p, 1)], None)
    case Some(i) =>
      if cart[i].quantity >= p.stock then Added(cart, Some(StockLimitReached))
      else Added(Increment(cart, p.id), None)
  }

  /**
    Adding a product that already has line `i`: at or above the product's
    stock the cart is returned unchanged with an error; otherwise only line `i`
    gains one unit and the cart keeps its length.
   */
  lemma AddToExistingLine(cart: seq<CartLine>, p: Product, i: nat)
    requires UniqueLines(cart)
    requires i < |cart| && cart[i].product.id == p.id
    ensures var r := AddToCart(cart, p);
      if cart[i].quantity >= p.stock then
        r == Added(cart, Some(StockLimitReached))
      else
        r == Added(cart[i := cart[i].(quantity := cart[i].quantity + 1)], None)
  {
    var f := FindLineFrom(cart, p.id, 0);
    assert f == Some(i);
    if cart[i].quantity < p.stock {
      assert Increment(cart, p.id) == cart[i := cart[i].(quantity := cart[i].quantity + 1)];
    }
  }

  /** The product button is disabled at zero stock. */
  predicate Listed(p: Product) {
    p.stock != 0
  }

  /**
    Adding a listed product keeps the cart invariant, given that catalog stock
    is never negative and that the product list is only reloaded after a sale
    (which empties the cart), so the cart's copy of a product is the listed one.
   */
  lemma AddToCartKeepsInvariant(cart: seq<CartLine>, p: Product)
    requires CartInvariant(cart)
    requires Listed(p) && p.stock >= 0
    requires forall i :: 0 <= i < |cart| && cart[i].product.id == p.id ==> cart[i].product == p
    ensures CartInvariant(AddToCart(cart, p).cart)
  {
    if i :| 0 <= i < |cart| && cart[i].product.id == p.id {
      AddToExistingLine(cart, p, i);
    }
  }

  /** Removing a product from the cart: exactly the lines of that product go. */
  function RemoveFromCart(cart: seq<CartLine>, id: ProductId): (r: seq<CartLine>)
    ensures |r| <= |cart|
    ensures forall i :: 0 <= i < |r| ==> r[i].product.id != id
  {
    if |cart| == 0 then []
    else
      var rest := RemoveFromCart(cart[1..], id);
      if cart[0].product.id == id then rest else [cart[0]] + rest
  }

  /** The lines kept are exactly the lines of other products, each as often as before at most. */
  lemma {:induction false} RemoveFromCartKeepsOthers(cart: seq<CartLine>, id: ProductId)
    ensures forall x :: x in RemoveFromCart(cart, id) <==> x in cart && x.product.id != id
    ensures multiset(RemoveFromCart(cart, id)) <= multiset(cart)
  {
    if |cart| > 0 {
      RemoveFromCartKeepsOthers(cart[1..], id);
      assert cart == [cart[0]] + cart[1..];
    }
  }

  lemma {:induction false} RemoveFromCartKeepsInvariant(cart: seq<CartLine>, id: ProductId)
    requires CartInvariant(cart)
    ensures CartInvariant(RemoveFromCart(cart, id))
  {
    if |cart| > 0 {
      var rest := RemoveFromCart(cart[1..], id);
      assert CartInvariant(cart[1..]);
      RemoveFromCartKeepsInvariant(cart[1..], id);
      RemoveFromCartKeepsOthers(cart[1..], id);
      assert forall j :: 0 <= j < |rest| ==> rest[j] in cart[1..];
    }
  }

  /** Removing from a concatenation removes from each part: the kept lines stay in order. */
  lemma {:induction false} RemoveFromCartKeepsOrder(a: seq<CartLine>, b: seq<CartLine>, id: ProductId)
    ensures RemoveFromCart(a + b, id) == RemoveFromCart(a, id) + RemoveFromCart(b, id)
  {
    if |a| == 0 {
      assert a + b == b;
    } else {
      var ab := a + b;
      assert ab[0] == a[0] && ab[1..] == a[1..] + b;
      var x, y := RemoveFromCart(a[1..], id), RemoveFromCart(b, id);
      RemoveFromCartKeepsOrder(a[1..], b, id);
      if a[0].product.id == id {
        assert RemoveFromCart(ab, id) == RemoveFromCart(a[1..] + b, id);
        assert RemoveFromCart(a, id) == x;
      } else {
        assert RemoveFromCart(ab, id) == [a[0]] + (x + y);
        assert RemoveFromCart(a, id) == [a[0]] + x;
        assert ([a[0]] + x) + y == [a[0]] + (x + y);
      }
    }
  }

  /**
    Setting a product's quantity: the product's line is set to the
    requested quantity clamped to [0, stock]; zero keeps the line; no other
    line changes.
   */
  function UpdateQuantity(cart: seq<CartLine>, id: ProductId, quantity: int): (r: seq<CartLine>)
    ensures |r| == |cart|
    ensures forall i :: 0 <= i < |cart| ==> r[i].product == cart[i].product
    ensures forall i :: 0 <= i < |cart| && cart[i].product.id != id ==> r[i] == cart[i]
    ensures forall i :: 0 <= i < |cart| && cart[i].product.id == id ==>
      && (cart[i].product.stock >= 0 ==> 0 <= r[i].quantity <= cart[i].product.stock)
      && (0 <= quantity <= cart[i].product.stock ==> r[i].quantity == quantity)
      && (quantity > cart[i].product.stock >= 0 ==> r[i].quantity == cart[i].product.stock)
      && (quantity < 0 ==> r[i].quantity == 0)
    ensures CartInvariant(cart) ==> CartInvariant(r)
  {
    seq(|cart|, i requires 0 <= i < |cart| =>
      if cart[i].product.id == id
      then cart[i].(quantity := Max(0, Min(quantity, cart[i].product.stock)))
      else cart[i])
  }

  /** The cart total: price × quantity summed over the lines, at the prices the cart holds. */
  function GetTotal(cart: seq<CartLine>): (r: int)
    ensures (forall i :: 0 <= i < |cart| ==> cart[i].product.price >= 0 && cart[i].quantity >= 0) ==> r >= 0
  {
    if |cart| == 0 then 0
    else cart[0].product.price * cart[0].quantity + GetTotal(cart[1..])
  }

  lemma {:induction false} TotalAppend(cart: seq<CartLine>, line: CartLine)
    ensures GetTotal(cart + [line]) == GetTotal(cart) + line.product.price * line.quantity
  {
    if |cart| > 0 {
      TotalAppend(cart[1..], line);
      assert (cart + [line])[1..] == cart[1..] + [line];
    }
  }

  lemma {:induction false} TotalUpdate(cart: seq<CartLine>, i: nat, line: CartLine)
    requires i < |cart|
    ensures GetTotal(cart[i := line]) ==
      GetTotal(cart) - cart[i].product.price * cart[i].quantity + line.product.price * line.quantity
  {
    if i > 0 {
      TotalUpdate(cart[1..], i - 1, line);
      assert cart[i := line][1..] == cart[1..][i - 1 := line];
    } else {
      assert cart[i := line][1..] == cart[1..];
    }
  }

  /** A successful add raises the total by exactly one unit of the product's price. */
  lemma AddToCartRaisesTotal(cart: seq<CartLine>, p: Product)
    requires UniqueLines(cart)
    requires forall i :: 0 <= i < |cart| && cart[i].product.id == p.id ==> cart[i].product == p
    ensures var r := AddToCart(cart, p);
      && (r.error.None? ==> GetTotal(r.cart) == GetTotal(cart) + p.price)
      && (r.error.Some? ==> r.cart == cart)
  {
    if i :| 0 <= i < |cart| && cart[i].product.id == p.id {
      AddToExistingLine(cart, p, i);
      if cart[i].quantity < p.stock {
        BumpRaisesTotal(cart, i);
      }
    } else {
      TotalAppend(cart, CartLine(p, 1));
    }
  }

  lemma BumpRaisesTotal(cart: seq<CartLine>, i: nat)
    requires i < |cart|
    ensures GetTotal(cart[i := cart[i].(quantity := cart[i].quantity + 1)]) == GetTotal(cart) + cart[i].product.price
  {
    var q, price := cart[i].quantity, cart[i].product.price;
    TotalUpdate(cart, i, cart[i].(quantity := q + 1));
    assert price * (q + 1) == price * q + price;
  }

  /** The change shown to the cashier: what is handed back, never negative; an unreadable payment counts as 0. */
  function GetChange(cart: seq<CartLine>, payment: Option<int>): (r: int)
    ensures r >= 0
    ensures r == 0 <==> payment.GetOr(0) <= GetTotal(cart)
    ensures r > 0 ==> r == payment.GetOr(0) - GetTotal(cart)
  {
    Max(0, payment.GetOr(0) - GetTotal(cart))
  }

  /**
    The register's state: the cart, the parsed payment field (`None` when it
    is not a number), the error and success banners, and the last sale's id.
   */
  datatype Register = Register(
    cart: seq<CartLine>,
    payment: Option<int>,
    error: string,
    notice: string,
    lastSaleId: Option<SaleId>)

  datatype Step = Step(register: Register, db: Db)

  /** The lines sent to the server: each cart line's product id and quantity. */
  function Requests(cart: seq<CartLine>): (r: seq<Checkout.LineRequest>)
    ensures |r| == |cart|
    ensures forall i :: 0 <= i < |cart| ==> r[i] == Checkout.LineRequest(cart[i].product.id, cart[i].quantity)
  {
    seq(|cart|, i requires 0 <= i < |cart| => Checkout.LineRequest(cart[i].product.id, cart[i].quantity))
  }

  const SaleCompleted: string := "Sale completed successfully!"

  /**
    Submitting the sale: an unreadable or short payment is refused before the
    server is called; otherwise the sale engine decides, a success empties the
    cart and the payment field, and a failure keeps the cart and shows the
    server's message.
   */
  function HandleSale(reg: Register, db: Db, caller: Access.Caller, saleId: SaleId, now: int): (s: Step)
    ensures reg.payment.None? || reg.payment.value < GetTotal(reg.cart) ==>
      s.db == db && s.register == reg.(error := InsufficientPayment.Message(), notice := "")
    ensures reg.payment.Some? && reg.payment.value >= GetTotal(reg.cart) ==>
      var out := Checkout.CreateSale(db, caller, Requests(reg.cart), reg.payment.value, saleId, now);
      && s.db == out.db
      && (out.response.Ok? ==>
            s.register == Register([], None, "", SaleCompleted, Some(saleId)))
      && (out.response.Err? ==>
            s.db == db && s.register.cart == reg.cart && s.register.error == out.response.error.Message())
  {
    var total := GetTotal(reg.cart);
    if reg.payment.None? || reg.payment.value < total then
      Step(reg.(error := InsufficientPayment.Message(), notice := ""), db)
    else
      var out := Checkout.CreateSale(db, caller, Requests(reg.cart), reg.payment.value, saleId, now);
      match out.response
      case Ok(sale) => Step(Register([], None, "", SaleCompleted, Some(sale.id)), out.db)
      case Err(failure) => Step(reg.(error := failure.Message(), notice := ""), out.db)
  }

  /** The cart total equals the server's total when the cart's product copies are the catalog's rows. */
  lemma {:induction false} CartTotalIsOrderTotal(cart: seq<CartLine>, cat: Catalog)
    requires forall i :: 0 <= i < |cart| ==> cart[i].product.id in cat && cat[cart[i].product.id] == cart[i].product
    ensures Checkout.OrderTotal(cat, Requests(cart)) == GetTotal(cart)
  {
    if |cart| > 0 {
      CartTotalIsOrderTotal(cart[1..], cat);
      assert Requests(cart)[1..] == Requests(cart[1..]);
    }
  }

  /**
    A cart that keeps the invariant, whose products are current catalog rows,
    and that the register lets through is accepted by the server for any
    cashier: one sale at the cart's total is recorded and the cart is emptied.
   */
  lemma CheckedCartIsAccepted(reg: Register, db: Db, caller: Access.Caller, saleId: SaleId, now: int)
    requires CartInvariant(reg.cart)
    requires forall i :: 0 <= i < |reg.cart| ==>
      reg.cart[i].product.id in db.catalog && db.catalog[reg.cart[i].product.id] == reg.cart[i].product
    requires Access.Allowed(caller, Access.CreateSale)
    requires reg.payment.Some? && reg.payment.value >= GetTotal(reg.cart)
    ensures var s := HandleSale(reg, db, caller, saleId, now);
      && s.register.cart == []
      && |s.db.sales| == |db.sales| + 1
      && s.db.sales[|db.sales|].total == GetTotal(reg.cart)
  {
    var items := Requests(reg.cart);
    CartTotalIsOrderTotal(reg.cart, db.catalog);
    assert Checkout.DistinctIds(items);
    assert Checkout.AllInCatalog(db.catalog, items);
    assert Checkout.Stocked(db.catalog, items);
    Checkout.CreateSaleDecision(db, caller, items, reg.payment.value, saleId, now);
  }
}
