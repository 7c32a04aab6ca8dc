/**
  The persisted entities: products, sales with their line items, and the
  database that holds both. Money is in integer minor units (cents),
  timestamps are integer milliseconds.
 */
module Schema {
  import opened Base
  import opened Failures
  import Access

  type ProductId = string
  type SaleId = string

  datatype Product = Product(id: ProductId, name: string, price: int, stock: int)

  /** Product rows keyed by id. */
  type Catalog = map<ProductId, Product>

  /** A sale line: the price is a copy of the product's price when the sale was made. */
  datatype SaleItem = SaleItem(productId: ProductId, quantity: int, price: int)

  datatype Sale = Sale(
    id: SaleId,
    userId: string,
    total: int,
    amountPaid: int,
    change: int,
    createdAt: int,
    items: seq<SaleItem>)

  /** The database: the product table and the insert-only sales table, in insertion order. */
  datatype Db = Db(catalog: Catalog, sales: seq<Sale>)

  /** What a call leaves behind: the database after the call and the response. */
  datatype Outcome<T> = Outcome(db: Db, response: Result<T, Failure>)

  /** Sum of price × quantity over sale lines. */
  function LinesTotal(items: seq<SaleItem>): int {
    if |items| == 0 then 0 else items[0].price * items[0].quantity + LinesTotal(items[1..])
  }

  /** Sum of quantities over sale lines. */
  function Quantity(items: seq<SaleItem>): int {
    if |items| == 0 then 0 else items[0].quantity + Quantity(items[1..])
  }

  /** Sum of `total` over sales. */
  function SalesTotal(sales: seq<Sale>): int {
    if |sales| == 0 then 0 else sales[0].total + SalesTotal(sales[1..])
  }

  /** Sum of all line quantities over sales. */
  function ItemsSold(sales: seq<Sale>): int {
    if |sales| == 0 then 0 else Quantity(sales[0].items) + ItemsSold(sales[1..])
  }

  /** A sale as the engine records it: its total is the sum of its lines, and it is paid in full. */
  predicate ValidSale(s: Sale) {
    && s.total == LinesTotal(s.items)
    && s.amountPaid >= s.total
    && s.change == s.amountPaid - s.total
  }

  predicate UniqueSaleIds(sales: seq<Sale>) {
    forall i, j :: 0 <= i < j < |sales| ==> sales[i].id != sales[j].id
  }

  predicate StockNonNegative(cat: Catalog) {
    forall k :: k in cat ==> cat[k].stock >= 0
  }

  /** The database invariants the sale engine keeps. */
  predicate Consistent(db: Db) {
    && (forall k :: k in db.catalog ==> db.catalog[k].id == k)
    && StockNonNegative(db.catalog)
    && (forall i :: 0 <= i < |db.sales| ==> ValidSale(db.sales[i]))
    && UniqueSaleIds(db.sales)
  }

  /**
    An exported operation behind its role guard. The operation's own effect
    (product, setting and user maintenance) is passed in as `run`.
   */
  function Guarded<T>(db: Db, caller: Access.Caller, op: Access.Operation, run: Db -> Outcome<T>): (out: Outcome<T>)
    ensures !Access.Allowed(caller, op) ==> out.db == db && out.response == Err(Access.Denial(op))
    ensures Access.Allowed(caller, op) ==> out == run(db)
  {
    match Access.Guard(caller, op)
    case Some(failure) => Outcome(db, Err(failure))
    case None => run(db)
  }
}
