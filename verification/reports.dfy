/**
  The read models over the sales table: the date-range report, today's
  sales, and single-sale lookup. All are pure reads behind a role guard.
 */
module Reports {
  import opened Base
  import opened Failures
  import opened Schema
  import Access
  import Checkout

  /** Length of the "today" window; local-time day lengths other than 24 hours are not modelled. */
  const MillisPerDay: int := 86_400_000

  /** A filter on creation time: none, two inclusive bounds, or an inclusive lower and exclusive upper bound. */
  datatype Window = Unbounded | Closed(lo: int, hi: int) | HalfOpen(lo: int, hi: int)

  predicate Contains(w: Window, t: int) {
    match w
    case Unbounded => true
    case Closed(lo, hi) => lo <= t <= hi
    case HalfOpen(lo, hi) => lo <= t < hi
  }

  /**
    The sales created inside the window, in table order: each sale inside the
    window is kept as often as the table holds it, every other sale is dropped.
   */
  function During(log: seq<Sale>, w: Window): (r: seq<Sale>)
    ensures |r| <= |log|
    ensures forall i :: 0 <= i < |r| ==> Contains(w, r[i].createdAt)
    ensures w == Unbounded ==> r == log
  {
    if |log| == 0 then []
    else
      (if Contains(w, log[0].createdAt) then [log[0]] else []) + During(log[1..], w)
  }

  /** The filter selects exactly the sales inside the window, each as often as the table holds it. */
  lemma {:induction false} DuringSelects(log: seq<Sale>, w: Window)
    ensures forall x :: x in During(log, w) <==> x in log && Contains(w, x.createdAt)
    ensures forall x :: multiset(During(log, w))[x] == if Contains(w, x.createdAt) then multiset(log)[x] else 0
  {
    if |log| > 0 {
      DuringSelects(log[1..], w);
      assert log == [log[0]] + log[1..];
    }
  }

  /** Filtering a concatenation filters each part: the selected sales keep their table order. */
  lemma {:induction false} DuringKeepsOrder(a: seq<Sale>, b: seq<Sale>, w: Window)
    ensures During(a + b, w) == During(a, w) + During(b, w)
  {
    if |a| == 0 {
      assert a + b == b;
    } else {
      var ab := a + b;
      assert ab[0] == a[0] && ab[1..] == a[1..] + b;
      DuringKeepsOrder(a[1..], b, w);
      var head := if Contains(w, a[0].createdAt) then [a[0]] else [];
      var x, y := During(a[1..], w), During(b, w);
      assert head + (x + y) == (head + x) + y;
    }
  }

  /** Two windows that admit the same timestamps select the same sales. */
  lemma {:induction false} SameWindowSameSales(log: seq<Sale>, w1: Window, w2: Window)
    requires forall t :: Contains(w1, t) <==> Contains(w2, t)
    ensures During(log, w1) == During(log, w2)
  {
    if |log| > 0 {
      SameWindowSameSales(log[1..], w1, w2);
    }
  }

  lemma {:induction false} AllInsideSelected(log: seq<Sale>, w: Window)
    requires forall i :: 0 <= i < |log| ==> Contains(w, log[i].createdAt)
    ensures During(log, w) == log
  {
    if |log| > 0 {
      AllInsideSelected(log[1..], w);
      assert log == [log[0]] + log[1..];
    }
  }

  /** Ordered by creation time, newest first. */
  predicate NewestFirst(s: seq<Sale>) {
    forall i, j :: 0 <= i < j < |s| ==> s[i].createdAt >= s[j].createdAt
  }

  function Insert(x: Sale, s: seq<Sale>): (r: seq<Sale>)
    requires NewestFirst(s)
    ensures |r| == |s| + 1
    ensures r[0] == x || (|s| > 0 && r[0] == s[0])
    ensures NewestFirst(r)
    ensures multiset(r) == multiset(s) + multiset{x}
  {
    if |s| == 0 || x.createdAt >= s[0].createdAt then
      [x] + s
    else
      var rest := Insert(x, s[1..]);
      assert s == [s[0]] + s[1..];
      [s[0]] + rest
  }

  lemma SalesTotalCons(x: Sale, s: seq<Sale>)
    ensures SalesTotal([x] + s) == x.total + SalesTotal(s)
    ensures ItemsSold([x] + s) == Quantity(x.items) + ItemsSold(s)
  {
    assert ([x] + s)[1..] == s;
  }

  lemma {:induction false} InsertSums(x: Sale, s: seq<Sale>)
    requires NewestFirst(s)
    ensures SalesTotal(Insert(x, s)) == x.total + SalesTotal(s)
    ensures ItemsSold(Insert(x, s)) == Quantity(x.items) + ItemsSold(s)
  {
    if |s| == 0 || x.createdAt >= s[0].createdAt {
      SalesTotalCons(x, s);
    } else {
      InsertSums(x, s[1..]);
      SalesTotalCons(s[0], Insert(x, s[1..]));
    }
  }

  /** The sales ordered newest first: a permutation of the input. */
  function SortNewestFirst(s: seq<Sale>): (r: seq<Sale>)
    ensures |r| == |s|
    ensures NewestFirst(r)
    ensures multiset(r) == multiset(s)
  {
    if |s| == 0 then []
    else
      assert s == [s[0]] + s[1..];
      Insert(s[0], SortNewestFirst(s[1..]))
  }

  /** Reordering keeps the report sums: they equal the sums over the sales in table order. */
  lemma {:induction false} SortKeepsSums(s: seq<Sale>)
    ensures SalesTotal(SortNewestFirst(s)) == SalesTotal(s)
    ensures ItemsSold(SortNewestFirst(s)) == ItemsSold(s)
  {
    if |s| > 0 {
      SortKeepsSums(s[1..]);
      InsertSums(s[0], SortNewestFirst(s[1..]));
    }
  }

  /** Sequences holding the same sales with the same multiplicities have the same members. */
  lemma SameMembers(a: seq<Sale>, b: seq<Sale>)
    requires multiset(a) == multiset(b)
    ensures forall x :: x in a <==> x in b
  {
    forall x ensures x in a <==> x in b {
      assert x in a <==> x in multiset(a);
      assert x in b <==> x in multiset(b);
    }
  }

  datatype Report = Report(sales: seq<Sale>, totalSales: int, totalItems: int, start: Option<int>, end: Option<int>)

  /** The filter is applied only when both bounds are given. */
  function ReportWindow(start: Option<int>, end: Option<int>): (w: Window)
    ensures forall t :: Contains(w, t) <==> (start.Some? && end.Some? ==> start.value <= t <= end.value)
  {
    if start.Some? && end.Some? then Closed(start.value, end.value) else Unbounded
  }

  /** The sales report over an optional date range, with its two sums. */
  function GetSalesReport(db: Db, caller: Access.Caller, start: Option<int>, end: Option<int>): (r: Result<Report, Failure>)
    ensures r.Err? <==> !Access.Allowed(caller, Access.GetSalesReport)
    ensures r.Err? ==> r.error == NotAuthorized
    ensures r.Ok? ==>
      && (forall x :: x in r.value.sales <==>
            x in db.sales && (start.Some? && end.Some? ==> start.value <= x.createdAt <= end.value))
      && NewestFirst(r.value.sales)
      && r.value.start == start && r.value.end == end
  {
    match Access.Guard(caller, Access.GetSalesReport)
    case Some(failure) => Err(failure)
    case None =>
      var selected := During(db.sales, ReportWindow(start, end));
      DuringSelects(db.sales, ReportWindow(start, end));
      var sales := SortNewestFirst(selected);
      SameMembers(sales, selected);
      Ok(Report(sales, SalesTotal(sales), ItemsSold(sales), start, end))
  }

  /**
    The report holds each selected sale exactly once, and its two sums are the
    sums over the selected sales in table order; with a bound missing, over
    the whole table.
   */
  lemma ReportSums(db: Db, caller: Access.Caller, start: Option<int>, end: Option<int>)
    requires GetSalesReport(db, caller, start, end).Ok?
    ensures var rep := GetSalesReport(db, caller, start, end).value;
      var selected := During(db.sales, ReportWindow(start, end));
      && multiset(rep.sales) == multiset(selected)
      && rep.totalSales == SalesTotal(selected)
      && rep.totalItems == ItemsSold(selected)
      && (start.None? || end.None? ==>
            && multiset(rep.sales) == multiset(db.sales)
            && rep.totalSales == SalesTotal(db.sales)
            && rep.totalItems == ItemsSold(db.sales))
  {
    SortKeepsSums(During(db.sales, ReportWindow(start, end)));
  }

  /** From the start of the local day up to, and excluding, the start of the next. */
  function TodayWindow(dayStart: int): (w: Window)
    ensures forall t :: Contains(w, t) <==> dayStart <= t < dayStart + MillisPerDay
  {
    HalfOpen(dayStart, dayStart + MillisPerDay)
  }

  /** Today's sales, newest first, with the start of the local day passed in. */
  function GetTodaysSales(db: Db, caller: Access.Caller, dayStart: int): (r: Result<seq<Sale>, Failure>)
    ensures r.Err? <==> !Access.Allowed(caller, Access.GetTodaysSales)
    ensures r.Err? ==> r.error == NotAuthorized
    ensures r.Ok? ==>
      && (forall x :: x in r.value <==> x in db.sales && dayStart <= x.createdAt < dayStart + MillisPerDay)
      && NewestFirst(r.value)
      && multiset(r.value) == multiset(During(db.sales, TodayWindow(dayStart)))
  {
    match Access.Guard(caller, Access.GetTodaysSales)
    case Some(failure) => Err(failure)
    case None =>
      var selected := During(db.sales, TodayWindow(dayStart));
      DuringSelects(db.sales, TodayWindow(dayStart));
      var sales := SortNewestFirst(selected);
      SameMembers(sales, selected);
      Ok(sales)
  }

  /** Lookup of a sale by its id. */
  function FindSale(log: seq<Sale>, id: SaleId): (r: Option<Sale>)
    ensures r.Some? ==> r.value in log && r.value.id == id
    ensures r.None? <==> forall i :: 0 <= i < |log| ==> log[i].id != id
  {
    if |log| == 0 then None
    else if log[0].id == id then Some(log[0])
    else
      assert forall i :: 1 <= i < |log| ==> log[i] == log[1..][i - 1];
      FindSale(log[1..], id)
  }

  /** One sale by id, behind the cashier role check. */
  function GetSaleDetails(db: Db, caller: Access.Caller, saleId: SaleId): (r: Result<Sale, Failure>)
    ensures r == Err(NotAuthorized) <==> !Access.Allowed(caller, Access.GetSaleDetails)
    ensures r == Err(SaleNotFound) <==>
      Access.Allowed(caller, Access.GetSaleDetails) && forall i :: 0 <= i < |db.sales| ==> db.sales[i].id != saleId
    ensures r.Ok? ==> r.value in db.sales && r.value.id == saleId
    ensures r.Ok? && UniqueSaleIds(db.sales) ==>
      forall i :: 0 <= i < |db.sales| && db.sales[i].id == saleId ==> db.sales[i] == r.value
  {
    match Access.Guard(caller, Access.GetSaleDetails)
    case Some(failure) => Err(failure)
    case None =>
      match FindSale(db.sales, saleId)
      case None => Err(SaleNotFound)
      case Some(sale) => Ok(sale)
  }

  /**
    A committed sale is immediately visible to the reads: its id finds it, and
    it is among today's sales when it was made today.
   */
  lemma SaleVisibleAfterCommit(
    db: Db, caller: Access.Caller, items: seq<Checkout.LineRequest>, amountPaid: int,
    saleId: SaleId, now: int, dayStart: int)
    requires UniqueSaleIds(db.sales)
    requires forall i :: 0 <= i < |db.sales| ==> db.sales[i].id != saleId
    requires Checkout.CreateSale(db, caller, items, amountPaid, saleId, now).response.Ok?
    ensures var out := Checkout.CreateSale(db, caller, items, amountPaid, saleId, now);
      var sale := out.response.value;
      && GetSaleDetails(out.db, caller, saleId) == Ok(sale)
      && (dayStart <= now < dayStart + MillisPerDay ==>
            GetTodaysSales(out.db, caller, dayStart).Ok? && sale in GetTodaysSales(out.db, caller, dayStart).value)
  {
    var out := Checkout.CreateSale(db, caller, items, amountPaid, saleId, now);
    var sale := out.response.value;
    Checkout.CreateSaleDecision(db, caller, items, amountPaid, saleId, now);
    assert out.db.sales == db.sales + [sale];
    assert UniqueSaleIds(out.db.sales);
    assert out.db.sales[|db.sales|] == sale;
  }
}
