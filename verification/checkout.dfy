/**
  The sale transaction engine: `createSale` as one atomic step over the
  database. It checks the caller's role, resolves the requested products,
  checks stock line by line, totals the cart at current prices, checks the
  payment, and then records the sale and writes every product's new stock in
  one batch.
 */
module Checkout {
  import opened Base
  import opened Failures
  import opened Schema
  import Access

  /** One requested line: a product id and a quantity. */
  datatype LineRequest = LineRequest(productId: ProductId, quantity: int)

  /** The set of product ids the request names; the catalog lookup matches each id at most once. */
  function IdsOf(items: seq<LineRequest>): (ids: set<ProductId>)
    ensures forall i :: 0 <= i < |items| ==> items[i].productId in ids
    ensures forall id :: id in ids ==> exists i :: 0 <= i < |items| && items[i].productId == id
  {
    if |items| == 0 then {}
    else
      var rest := IdsOf(items[1..]);
      assert forall id :: id in rest ==> exists i :: 1 <= i < |items| && items[i].productId == id by {
        forall id | id in rest ensures exists i :: 1 <= i < |items| && items[i].productId == id {
          var j :| 0 <= j < |items[1..]| && items[1..][j].productId == id;
          assert items[j + 1].productId == id;
        }
      }
      {items[0].productId} + rest
  }

  predicate DistinctIds(items: seq<LineRequest>) {
    forall i, j :: 0 <= i < j < |items| ==> items[i].productId != items[j].productId
  }

  predicate AllInCatalog(cat: Catalog, items: seq<LineRequest>) {
    forall i :: 0 <= i < |items| ==> items[i].productId in cat
  }

  /** A request has distinct ids exactly when its head is not repeated and its tail has distinct ids. */
  lemma DistinctIdsCons(items: seq<LineRequest>)
    requires |items| > 0
    ensures DistinctIds(items) <==> items[0].productId !in IdsOf(items[1..]) && DistinctIds(items[1..])
  {
    var rest := items[1..];
    if DistinctIds(items) {
      forall i, j | 0 <= i < j < |rest| ensures rest[i].productId != rest[j].productId {
        assert rest[i] == items[i + 1] && rest[j] == items[j + 1];
      }
      forall j | 0 <= j < |rest| ensures rest[j].productId != items[0].productId {
        assert rest[j] == items[j + 1];
      }
    }
    if items[0].productId !in IdsOf(rest) && DistinctIds(rest) {
      forall i, j | 0 <= i < j < |items| ensures items[i].productId != items[j].productId {
        assert items[j] == rest[j - 1];
        if i > 0 {
          assert items[i] == rest[i - 1];
        }
      }
    }
  }

  lemma {:induction false} IdsOfSize(items: seq<LineRequest>)
    ensures |IdsOf(items)| <= |items|
    ensures |IdsOf(items)| == |items| <==> DistinctIds(items)
  {
    if |items| > 0 {
      var rest := items[1..];
      IdsOfSize(rest);
      DistinctIdsCons(items);
      var h := items[0].productId;
      assert IdsOf(items) == {h} + IdsOf(rest);
      if h in IdsOf(rest) {
        assert IdsOf(items) == IdsOf(rest);
      } else {
        assert |IdsOf(items)| == 1 + |IdsOf(rest)|;
      }
    }
  }

  /**
    How many catalog rows the request matches. It equals the
    number of lines exactly when every id resolves and no id is repeated.
   */
  function MatchedCount(cat: Catalog, items: seq<LineRequest>): (n: nat)
    ensures n <= |items|
    ensures n == |items| <==> AllInCatalog(cat, items) && DistinctIds(items)
  {
    var ids := IdsOf(items);
    var found := ids * cat.Keys;
    IdsOfSize(items);
    assert ids == found + (ids - cat.Keys);
    assert |ids| == |found| + |ids - cat.Keys|;
    assert AllInCatalog(cat, items) ==> found == ids;
    assert |found| == |items| ==> ids - cat.Keys == {} && AllInCatalog(cat, items) by {
      if |found| == |items| {
        assert ids - cat.Keys == {};
        forall i | 0 <= i < |items| ensures items[i].productId in cat {
          assert items[i].productId in ids;
        }
      }
    }
    |found|
  }

  /** A line whose product is in the catalog with less stock than requested. */
  predicate Short(cat: Catalog, line: LineRequest) {
    line.productId in cat && cat[line.productId].stock < line.quantity
  }

  /** The stock check of the loop from line `k` on: the index of the first short line, if any. */
  function ShortageFrom(cat: Catalog, items: seq<LineRequest>, k: nat): (r: Option<nat>)
    requires k <= |items|
    ensures r.Some? ==> k <= r.value < |items| && Short(cat, items[r.value])
    ensures r.Some? ==> forall j :: k <= j < r.value ==> !Short(cat, items[j])
    ensures r.None? <==> forall j :: k <= j < |items| ==> !Short(cat, items[j])
    decreases |items| - k
  {
    if k == |items| then None
    else if Short(cat, items[k]) then Some(k)
    else ShortageFrom(cat, items, k + 1)
  }

  /** The order total: price × quantity summed over the lines whose product was found. */
  function OrderTotal(cat: Catalog, items: seq<LineRequest>): (r: int)
    ensures (forall i :: 0 <= i < |items| ==> items[i].productId !in cat) ==> r == 0
    ensures (forall i :: 0 <= i < |items| ==> items[i].quantity >= 0) && (forall k :: k in cat ==> cat[k].price >= 0) ==> r >= 0
  {
    if |items| == 0 then 0
    else
      var line := items[0];
      (if line.productId in cat then cat[line.productId].price * line.quantity else 0)
      + OrderTotal(cat, items[1..])
  }

  /**
    The sale lines the loop pushes, each with the product's price copied in.
    Their price × quantity sum is the running total.
   */
  function Snapshot(cat: Catalog, items: seq<LineRequest>): (r: seq<SaleItem>)
    ensures |r| <= |items|
    ensures LinesTotal(r) == OrderTotal(cat, items)
    ensures AllInCatalog(cat, items) ==>
      && |r| == |items|
      && forall i :: 0 <= i < |items| ==>
           r[i] == SaleItem(items[i].productId, items[i].quantity, cat[items[i].productId].price)
  {
    if |items| == 0 then []
    else
      var line := items[0];
      var rest := Snapshot(cat, items[1..]);
      assert AllInCatalog(cat, items) ==> AllInCatalog(cat, items[1..]) by {
        if AllInCatalog(cat, items) {
          forall i | 0 <= i < |items[1..]| ensures items[1..][i].productId in cat {
            assert items[1..][i] == items[i + 1];
          }
        }
      }
      if line.productId in cat then
        [SaleItem(line.productId, line.quantity, cat[line.productId].price)] + rest
      else
        rest
  }

  /**
    The batch of stock writes: each found line sets its product's stock to the
    stock read before the loop minus the quantity. Later writes land last.
   */
  function ApplyStock(cat: Catalog, items: seq<LineRequest>): (r: Catalog)
    ensures r.Keys == cat.Keys
    ensures forall k :: k in cat ==> r[k] == cat[k].(stock := r[k].stock)
    ensures forall k :: k in cat && k !in IdsOf(items) ==> r[k] == cat[k]
    decreases |items|
  {
    if |items| == 0 then cat
    else
      var pre := items[..|items| - 1];
      var last := items[|items| - 1];
      var prev := ApplyStock(cat, pre);
      assert forall k :: k !in IdsOf(items) ==> k !in IdsOf(pre) by {
        forall k | k in IdsOf(pre) ensures k in IdsOf(items) {
          var i :| 0 <= i < |pre| && pre[i].productId == k;
          assert items[i] == pre[i];
        }
      }
      if last.productId in cat then
        prev[last.productId := cat[last.productId].(stock := cat[last.productId].stock - last.quantity)]
      else
        prev
  }

  /** With every line naming a different product, each named product loses exactly its line's quantity. */
  lemma {:induction false} StockDecrement(cat: Catalog, items: seq<LineRequest>)
    requires DistinctIds(items)
    ensures forall i :: 0 <= i < |items| && items[i].productId in cat ==>
      ApplyStock(cat, items)[items[i].productId].stock == cat[items[i].productId].stock - items[i].quantity
  {
    if |items| > 0 {
      var n := |items| - 1;
      var pre := items[..n];
      assert DistinctIds(pre) by {
        forall i, j | 0 <= i < j < |pre| ensures pre[i].productId != pre[j].productId {
          assert pre[i] == items[i] && pre[j] == items[j];
        }
      }
      StockDecrement(cat, pre);
      forall i | 0 <= i < |items| && items[i].productId in cat
        ensures ApplyStock(cat, items)[items[i].productId].stock == cat[items[i].productId].stock - items[i].quantity
      {
        if i < n {
          assert pre[i] == items[i];
          assert items[i].productId != items[n].productId;
        }
      }
    }
  }

  /**
    Creating a sale from the requested lines and the payment, as one atomic step. `saleId` and `now` are
    the id and timestamp the database assigns to the new row.
   */
  function CreateSale(
    db: Db, caller: Access.Caller, items: seq<LineRequest>, amountPaid: int, saleId: SaleId, now: int
  ): (out: Outcome<Sale>)
    ensures out.response.Err? ==> out.db == db
    ensures out.response.Ok? ==>
      var sale := out.response.value;
      && caller.Some?
      && sale.id == saleId
      && sale.userId == caller.value.id
      && sale.createdAt == now
      && sale.amountPaid == amountPaid
      && ValidSale(sale)
      && sale.change >= 0
      && out.db.sales == db.sales + [sale]
      && out.db.catalog.Keys == db.catalog.Keys
  {
    match Access.Guard(caller, Access.CreateSale)
    case Some(failure) => Outcome(db, Err(failure))
    case None =>
      var cat := db.catalog;
      if MatchedCount(cat, items) != |items| then
        Outcome(db, Err(ProductsNotFound))
      else match ShortageFrom(cat, items, 0)
        case Some(i) =>
          Outcome(db, Err(NotEnoughStock(cat[items[i].productId].name)))
        case None =>
          var total := OrderTotal(cat, items);
          if amountPaid < total then
            Outcome(db, Err(InsufficientPayment))
          else
            var sale := Sale(saleId, caller.value.id, total, amountPaid, amountPaid - total, now, Snapshot(cat, items));
            Outcome(Db(ApplyStock(cat, items), db.sales + [sale]), Ok(sale))
  }

  /** No line is short of stock. */
  predicate Stocked(cat: Catalog, items: seq<LineRequest>) {
    forall i :: 0 <= i < |items| ==> !Short(cat, items[i])
  }

  /**
    Which response `createSale` gives, stated by cases: the role check first,
    then product resolution (a missing or a repeated id), then stock, then
    payment; and it succeeds exactly when every check passes.
   */
  lemma CreateSaleDecision(
    db: Db, caller: Access.Caller, items: seq<LineRequest>, amountPaid: int, saleId: SaleId, now: int)
    ensures var r := CreateSale(db, caller, items, amountPaid, saleId, now).response;
      var allowed := Access.Allowed(caller, Access.CreateSale);
      var found := AllInCatalog(db.catalog, items) && DistinctIds(items);
      && (r == Err(NotAuthorized) <==> !allowed)
      && (r == Err(ProductsNotFound) <==> allowed && !found)
      && (r.Err? && r.error.NotEnoughStock? <==> allowed && found && !Stocked(db.catalog, items))
      && (r == Err(InsufficientPayment) <==>
            allowed && found && Stocked(db.catalog, items) && amountPaid < OrderTotal(db.catalog, items))
      && (r.Ok? <==>
            allowed && found && Stocked(db.catalog, items) && amountPaid >= OrderTotal(db.catalog, items))
  {
    var _ := Access.Guard(caller, Access.CreateSale);
    var _ := MatchedCount(db.catalog, items);
    var _ := ShortageFrom(db.catalog, items, 0);
  }

  /**
    A short line fails the whole sale: the error names the first short line's
    product, no sale is recorded and no stock changes, including the stock of
    lines checked before it.
   */
  lemma ShortageFailsWholeSale(
    db: Db, caller: Access.Caller, items: seq<LineRequest>, amountPaid: int, saleId: SaleId, now: int, i: nat)
    requires Access.Allowed(caller, Access.CreateSale)
    requires AllInCatalog(db.catalog, items) && DistinctIds(items)
    requires i < |items| && Short(db.catalog, items[i])
    requires forall j :: 0 <= j < i ==> !Short(db.catalog, items[j])
    ensures CreateSale(db, caller, items, amountPaid, saleId, now)
      == Outcome(db, Err(NotEnoughStock(db.catalog[items[i].productId].name)))
  {
    var _ := Access.Guard(caller, Access.CreateSale);
    var _ := MatchedCount(db.catalog, items);
    var r := ShortageFrom(db.catalog, items, 0);
    assert r.Some?;
    assert r.value == i;
  }

  /**
    What a successful sale writes: every cart product's stock drops by its
    quantity and stays non-negative, its name and price are kept, products not
    in the cart are untouched, and the recorded lines copy the requested ids,
    quantities and the prices current at the call.
   */
  lemma CreateSaleCommit(
    db: Db, caller: Access.Caller, items: seq<LineRequest>, amountPaid: int, saleId: SaleId, now: int)
    requires CreateSale(db, caller, items, amountPaid, saleId, now).response.Ok?
    ensures var out := CreateSale(db, caller, items, amountPaid, saleId, now);
      var cat, cat' := db.catalog, out.db.catalog;
      var sale := out.response.value;
      && |sale.items| == |items|
      && sale.total == OrderTotal(cat, items)
      && (forall i :: 0 <= i < |items| ==>
            && items[i].productId in cat
            && sale.items[i] == SaleItem(items[i].productId, items[i].quantity, cat[items[i].productId].price)
            && cat'[items[i].productId].stock == cat[items[i].productId].stock - items[i].quantity
            && cat'[items[i].productId].stock >= 0)
      && (forall k :: k in cat ==> cat'[k] == cat[k].(stock := cat'[k].stock))
      && (forall k :: k in cat && (forall i :: 0 <= i < |items| ==> items[i].productId != k) ==> cat'[k] == cat[k])
  {
    CreateSaleDecision(db, caller, items, amountPaid, saleId, now);
    StockDecrement(db.catalog, items);
    var cat' := CreateSale(db, caller, items, amountPaid, saleId, now).db.catalog;
    forall k | k in db.catalog && (forall i :: 0 <= i < |items| ==> items[i].productId != k)
      ensures cat'[k] == db.catalog[k]
    {
      assert k !in IdsOf(items);
    }
  }

  /**
    A successful sale keeps the database consistent: stock stays non-negative,
    the new sale is valid and, given a fresh id from the database, sale ids stay unique.
   */
  lemma CreateSaleKeepsConsistency(
    db: Db, caller: Access.Caller, items: seq<LineRequest>, amountPaid: int, saleId: SaleId, now: int)
    requires Consistent(db)
    requires forall i :: 0 <= i < |db.sales| ==> db.sales[i].id != saleId
    ensures Consistent(CreateSale(db, caller, items, amountPaid, saleId, now).db)
  {
    var out := CreateSale(db, caller, items, amountPaid, saleId, now);
    if out.response.Ok? {
      CreateSaleCommit(db, caller, items, amountPaid, saleId, now);
      var cat, cat' := db.catalog, out.db.catalog;
      forall k | k in cat' ensures cat'[k].stock >= 0 {
        if exists i :: 0 <= i < |items| && items[i].productId == k {
          var i :| 0 <= i < |items| && items[i].productId == k;
        } else {
          assert cat'[k] == cat[k];
        }
      }
      assert out.db.sales == db.sales + [out.response.value];
    }
  }

  /** The server does not reject an empty cart: it records a sale of total 0 and changes no stock. */
  lemma EmptyCartAccepted(db: Db, caller: Access.Caller, amountPaid: int, saleId: SaleId, now: int)
    requires Access.Allowed(caller, Access.CreateSale)
    requires amountPaid >= 0
    ensures var sale := Sale(saleId, caller.value.id, 0, amountPaid, amountPaid, now, []);
      CreateSale(db, caller, [], amountPaid, saleId, now) == Outcome(Db(db.catalog, db.sales + [sale]), Ok(sale))
  {
    CreateSaleDecision(db, caller, [], amountPaid, saleId, now);
  }

  /**
    The server does not reject a zero or negative quantity: such a line passes
    the stock check, lowers the total, and raises the product's stock.
   */
  lemma NonPositiveQuantityAccepted(
    db: Db, caller: Access.Caller, id: ProductId, quantity: int, amountPaid: int, saleId: SaleId, now: int)
    requires Access.Allowed(caller, Access.CreateSale)
    requires id in db.catalog && quantity <= 0 && db.catalog[id].stock >= quantity
    requires amountPaid >= db.catalog[id].price * quantity
    ensures var out := CreateSale(db, caller, [LineRequest(id, quantity)], amountPaid, saleId, now);
      && out.response.Ok?
      && out.response.value.total == db.catalog[id].price * quantity
      && out.db.catalog[id].stock == db.catalog[id].stock - quantity >= db.catalog[id].stock
  {
    var items := [LineRequest(id, quantity)];
    assert !Short(db.catalog, items[0]);
    CreateSaleDecision(db, caller, items, amountPaid, saleId, now);
    CreateSaleCommit(db, caller, items, amountPaid, saleId, now);
  }

  /** Worked example: stock 100 at 10.00, three units bought with 35.00 — total 30.00, change 5.00, stock 97. */
  lemma ExampleSale(caller: Access.Caller)
    requires Access.Allowed(caller, Access.CreateSale)
    ensures var db := Db(map["pen" := Product("pen", "Pen", 1000, 100)], []);
      var out := CreateSale(db, caller, [LineRequest("pen", 3)], 3500, "s1", 0);
      && out.response.Ok?
      && out.response.value.total == 3000
      && out.response.value.change == 500
      && out.db.catalog["pen"].stock == 97
  {
    var db := Db(map["pen" := Product("pen", "Pen", 1000, 100)], []);
    var items := [LineRequest("pen", 3)];
    assert !Short(db.catalog, items[0]);
    CreateSaleDecision(db, caller, items, 3500, "s1", 0);
    CreateSaleCommit(db, caller, items, 3500, "s1", 0);
  }

  /** Worked example: five units requested with only two in stock — refused, stock stays 2. */
  lemma ExampleShortage(caller: Access.Caller)
    requires Access.Allowed(caller, Access.CreateSale)
    ensures var db := Db(map["pen" := Product("pen", "Pen", 1000, 2)], []);
      CreateSale(db, caller, [LineRequest("pen", 5)], 10000, "s1", 0) == Outcome(db, Err(NotEnoughStock("Pen")))
  {
    var db := Db(map["pen" := Product("pen", "Pen", 1000, 2)], []);
    ShortageFailsWholeSale(db, caller, [LineRequest("pen", 5)], 10000, "s1", 0, 0);
  }
}
