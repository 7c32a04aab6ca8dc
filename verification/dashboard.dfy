/**
  The dashboard page: the role it assumes, the navigation cards it shows for
  that role, and the metrics over today's sales.
 */
module Dashboard {
  import opened Base
  import opened Failures
  import opened Schema
  import Access
  import Reports

  /** The user's role; a missing user or role counts as a worker. */
  function EffectiveRole(user: Access.Caller): (r: Access.Role)
    ensures user.Some? && user.value.role.Some? ==> r == user.value.role.value
    ensures user.None? || user.value.role.None? ==> r == Access.Worker
  {
    if user.Some? && user.value.role.Some? then user.value.role.value else Access.Worker
  }

  datatype Card = PosCard | ProductsCard | ReportsCard | SettingsCard | UsersCard

  /** The server operation behind each card's page. */
  function Destination(c: Card): Access.Operation {
    match c
    case PosCard => Access.CreateSale
    case ProductsCard => Access.CreateProduct
    case ReportsCard => Access.GetSalesReport
    case SettingsCard => Access.UpdateSetting
    case UsersCard => Access.CreateUser
  }

  /**
    The navigation cards for a role, in page order. A card is shown exactly
    when the role table lets that role use the card's page.
   */
  function Cards(role: Access.Role): (r: seq<Card>)
    ensures forall c :: c in r <==> Access.Permits(Some(role), Destination(c))
    ensures |r| > 0 && r[0] == PosCard
  {
    [PosCard]
    + (if role == Access.Admin then [ProductsCard] else [])
    + (if role == Access.Admin || role == Access.Manager then [ReportsCard] else [])
    + (if role == Access.Admin then [SettingsCard] else [])
    + (if role == Access.Admin then [UsersCard] else [])
  }

  datatype Metrics = Metrics(totalSales: int, totalTransactions: nat, averageTransaction: real, totalItems: int)

  /** The four metric tiles; the average divides without rounding. */
  function ComputeMetrics(sales: seq<Sale>): (m: Metrics)
    ensures m.totalSales == SalesTotal(sales)
    ensures m.totalItems == ItemsSold(sales)
    ensures m.totalTransactions == |sales|
    ensures m.totalTransactions == 0 ==> m.averageTransaction == 0.0
    ensures m.totalTransactions > 0 ==>
      m.averageTransaction * (m.totalTransactions as real) == m.totalSales as real
  {
    var total := SalesTotal(sales);
    var count := |sales|;
    Metrics(total, count, if count > 0 then (total as real) / (count as real) else 0.0, ItemsSold(sales))
  }

  /** The first five sales of the list, or all of them when there are fewer. */
  function Recent(sales: seq<Sale>): (r: seq<Sale>)
    ensures |r| <= 5
    ensures |r| == Min(5, |sales|)
    ensures r == sales[..|r|]
  {
    sales[..Min(5, |sales|)]
  }

  datatype View = View(
    role: Access.Role,
    cards: seq<Card>,
    sales: seq<Sale>,
    error: string,
    metrics: Metrics,
    recent: seq<Sale>)

  /**
    The page for `user`: today's sales are fetched only when a user is
    present; a refused fetch leaves no sales and shows the server's message.
   */
  function Load(db: Db, user: Access.Caller, dayStart: int): (v: View)
    ensures v.role == EffectiveRole(user)
    ensures v.cards == Cards(v.role)
    ensures user.None? ==> v.sales == [] && v.error == ""
    ensures Access.Allowed(user, Access.GetTodaysSales) ==>
      v.sales == Reports.GetTodaysSales(db, user, dayStart).value && v.error == ""
    ensures user.Some? && !Access.Allowed(user, Access.GetTodaysSales) ==>
      v.sales == [] && v.error == NotAuthorized.Message()
    ensures forall x :: x in v.sales ==> x in db.sales && dayStart <= x.createdAt < dayStart + Reports.MillisPerDay
    ensures forall i, j :: 0 <= i < |v.recent| <= j < |v.sales| ==> v.recent[i].createdAt >= v.sales[j].createdAt
    ensures v.metrics.totalTransactions == |v.sales|
  {
    var role := EffectiveRole(user);
    var (sales, error) :=
      if user.None? then ([], "")
      else match Reports.GetTodaysSales(db, user, dayStart)
        case Ok(s) => (s, "")
        case Err(failure) => ([], failure.Message());
    View(role, Cards(role), sales, error, ComputeMetrics(sales), Recent(sales))
  }

  /**
    The dashboard's "Total Sales Today" and "Items Sold" for a manager or
    admin equal the sales report's sums over the same day with inclusive
    bounds [dayStart, dayStart + one day − 1 ms].
   */
  lemma MetricsAgreeWithReport(db: Db, user: Access.Caller, dayStart: int)
    requires Access.Allowed(user, Access.GetSalesReport)
    ensures var v := Load(db, user, dayStart);
      var rep := Reports.GetSalesReport(db, user, Some(dayStart), Some(dayStart + Reports.MillisPerDay - 1));
      && rep.Ok?
      && v.metrics.totalSales == rep.value.totalSales
      && v.metrics.totalItems == rep.value.totalItems
  {
    var last := dayStart + Reports.MillisPerDay - 1;
    var today := Reports.TodayWindow(dayStart);
    var selected := Reports.During(db.sales, today);
    Reports.SameWindowSameSales(db.sales, today, Reports.Closed(dayStart, last));
    assert Reports.ReportWindow(Some(dayStart), Some(last)) == Reports.Closed(dayStart, last);
    Reports.ReportSums(db, user, Some(dayStart), Some(last));
    var sales := Reports.GetTodaysSales(db, user, dayStart).value;
    assert sales == Reports.SortNewestFirst(selected);
    Reports.SortKeepsSums(selected);
    assert Load(db, user, dayStart).sales == sales;
  }
}
