/** GET /store/reports/sales (routers/store.py): a report over a range of
    calendar days. The range defaults from the period and today; its lower
    bound is 00:00:00 of the start day and its upper bound 23:59:59
    (microsecond 0) of the end day. A loop walks the days one by one; each
    day gets the count of the range's non-cancelled orders that fall on it,
    the sales of the whole day, and the menu name ordered in the largest
    quantity that day. A per-menu ranking and the range totals follow. */
module SalesReports {
  import opened Common
  import opened Schemas
  import opened Tables
  import opened Aggregates

  datatype DailySalesReport = DailySalesReport(
    day: int, totalOrders: nat, totalSales: int, popularMenu: Option<string>)

  datatype MenuSalesReport = MenuSalesReport(
    menuId: int, menuName: string, totalQuantity: int, totalSales: int)

  datatype SalesReport = SalesReport(
    period: string, startDay: int, endDay: int,
    dailyReports: seq<DailySalesReport>, menuReports: seq<MenuSalesReport>,
    totalSales: int, totalOrders: nat)

  const INVALID_DATE: string := "Invalid date format. Use YYYY-MM-DD"

  /** How many days before today an omitted start date lies. */
  function DefaultLookback(period: string): int {
    if period == "daily" then 7
    else if period == "weekly" then 30
    else 90
  }

  // ----- The inner join of orders with menus --------------------------------

  /** A row of `join(Order)` under the report's filter: a non-cancelled order
      of the window whose menu row exists. */
  predicate Joined(o: Order, menus: seq<Menu>, lo: int, hi: int) {
    InWindow(o, lo, hi) && Live(o) && o.menuId in MenuIds(menus)
  }

  function NameOf(menus: seq<Menu>, id: int): string
    requires id in MenuIds(menus)
  {
    MenuOf(menus, id).value.name
  }

  // ----- Popular menu: GROUP BY Menu.name ORDER BY SUM(quantity) DESC -------

  /** SUM(quantity) of the joined rows whose menu carries this name. */
  function QuantityForName(orders: seq<Order>, menus: seq<Menu>, lo: int, hi: int, name: string): int {
    if orders == [] then 0
    else (if Joined(orders[0], menus, lo, hi) && NameOf(menus, orders[0].menuId) == name
          then orders[0].quantity else 0)
         + QuantityForName(orders[1..], menus, lo, hi, name)
  }

  function NameWeight(orders: seq<Order>, menus: seq<Menu>, lo: int, hi: int): string -> int {
    (name: string) => QuantityForName(orders, menus, lo, hi, name)
  }

  /** The menu names of the joined rows. */
  function JoinedNames(orders: seq<Order>, menus: seq<Menu>, lo: int, hi: int): seq<string> {
    if orders == [] then []
    else
      var rest := JoinedNames(orders[1..], menus, lo, hi);
      if Joined(orders[0], menus, lo, hi) then [NameOf(menus, orders[0].menuId)] + rest else rest
  }

  /** Every name listed is the menu name of a joined row. */
  lemma {:induction false} JoinedNamesOfJoinedRows(orders: seq<Order>, menus: seq<Menu>, lo: int, hi: int)
    ensures forall n | n in JoinedNames(orders, menus, lo, hi) ::
      exists o :: o in orders && Joined(o, menus, lo, hi) && NameOf(menus, o.menuId) == n
  {
    if orders != [] {
      var tail := orders[1..];
      JoinedNamesOfJoinedRows(tail, menus, lo, hi);
      forall n | n in JoinedNames(orders, menus, lo, hi)
        ensures exists o :: o in orders && Joined(o, menus, lo, hi) && NameOf(menus, o.menuId) == n
      {
        if Joined(orders[0], menus, lo, hi) && n == NameOf(menus, orders[0].menuId) {
          assert orders[0] in orders;
        } else {
          assert n in JoinedNames(tail, menus, lo, hi);
          var o :| o in tail && Joined(o, menus, lo, hi) && NameOf(menus, o.menuId) == n;
          assert o in orders;
        }
      }
    }
  }

  /** The menu name of every joined row is listed. */
  lemma {:induction false} JoinedRowsAreNamed(orders: seq<Order>, menus: seq<Menu>, lo: int, hi: int)
    ensures forall o | o in orders && Joined(o, menus, lo, hi) ::
      NameOf(menus, o.menuId) in JoinedNames(orders, menus, lo, hi)
  {
    if orders != [] {
      JoinedRowsAreNamed(orders[1..], menus, lo, hi);
      forall o | o in orders && Joined(o, menus, lo, hi)
        ensures NameOf(menus, o.menuId) in JoinedNames(orders, menus, lo, hi)
      {
        if o != orders[0] {
          assert o in orders[1..];
        }
      }
    }
  }

  /** A name of largest weight (which of several equal ones is unspecified). */
  function Heaviest(names: seq<string>, weight: string -> int): (r: string)
    requires |names| > 0
    ensures r in names
    ensures forall i :: 0 <= i < |names| ==> weight(r) >= weight(names[i])
  {
    if |names| == 1 then names[0]
    else
      var best := Heaviest(names[1..], weight);
      if weight(names[0]) >= weight(best) then names[0] else best
  }

  /** The day's most ordered menu name, or none when no joined row falls on
      that day. */
  function PopularMenu(orders: seq<Order>, menus: seq<Menu>, d: int): Option<string> {
    var names := JoinedNames(orders, menus, DayStart(d), DayEnd(d));
    if names == [] then None
    else Some(Heaviest(names, NameWeight(orders, menus, DayStart(d), DayEnd(d))))
  }

  /** The popular menu is none exactly when no joined row falls on the day;
      otherwise it is the name of a joined row of that day, and no joined
      row's name was ordered in a larger quantity. */
  lemma PopularMenuIsMostOrdered(orders: seq<Order>, menus: seq<Menu>, d: int)
    ensures var r, lo, hi := PopularMenu(orders, menus, d), DayStart(d), DayEnd(d);
      && (r.None? <==> forall o | o in orders :: !Joined(o, menus, lo, hi))
      && (r.Some? ==> exists o :: o in orders && Joined(o, menus, lo, hi) && NameOf(menus, o.menuId) == r.value)
      && (r.Some? ==> forall o | o in orders && Joined(o, menus, lo, hi) ::
            QuantityForName(orders, menus, lo, hi, r.value) >=
            QuantityForName(orders, menus, lo, hi, NameOf(menus, o.menuId)))
  {
    var lo, hi := DayStart(d), DayEnd(d);
    var names := JoinedNames(orders, menus, lo, hi);
    JoinedNamesOfJoinedRows(orders, menus, lo, hi);
    JoinedRowsAreNamed(orders, menus, lo, hi);
    if names != [] {
      var weight := NameWeight(orders, menus, lo, hi);
      var best := Heaviest(names, weight);
      assert forall n | n in names :: weight(best) >= weight(n);
      var o :| o in orders && Joined(o, menus, lo, hi) && NameOf(menus, o.menuId) == best;
    }
  }

  // ----- Daily reports ----------------------------------------------------------

  /** One iteration of the day loop. The count is over the range's orders
      (so capped at 23:59:59 on the end day); the sales are over the whole
      day, to 23:59:59.999999. */
  function DayReport(orders: seq<Order>, menus: seq<Menu>, lo: int, hi: int, d: int): DailySalesReport {
    DailySalesReport(
      d,
      CountLiveIn(orders, Max(lo, DayStart(d)), Min(hi, DayEnd(d))),
      SalesLiveIn(orders, DayStart(d), DayEnd(d)),
      PopularMenu(orders, menus, d))
  }

  /** The list the loop builds: one report per day from `first` to `last`. */
  function DailyReports(orders: seq<Order>, menus: seq<Menu>, lo: int, hi: int, first: int, last: int)
    : (r: seq<DailySalesReport>)
    decreases last - first + 1
    ensures |r| == if first <= last then last - first + 1 else 0
    ensures forall i {:trigger r[i]} :: 0 <= i < |r| ==> r[i] == DayReport(orders, menus, lo, hi, first + i)
  {
    if last < first then []
    else
      var prev := DailyReports(orders, menus, lo, hi, first, last - 1);
      var r := prev + [DayReport(orders, menus, lo, hi, last)];
      assert forall i :: 0 <= i < |prev| ==> r[i] == prev[i];
      r
  }

  function DayOrders(r: DailySalesReport): int { r.totalOrders }
  function DaySales(r: DailySalesReport): int { r.totalSales }

  // ----- Menu reports: GROUP BY Menu.id ORDER BY SUM(total_price) DESC ------

  /** Each menu id of the joined rows, once. */
  function JoinedMenuIds(orders: seq<Order>, menus: seq<Menu>, lo: int, hi: int): (r: seq<int>)
    ensures forall i, j :: 0 <= i < j < |r| ==> r[i] != r[j]
    ensures forall i :: 0 <= i < |r| ==> r[i] in MenuIds(menus)
    ensures forall i :: 0 <= i < |r| ==> exists o :: o in orders && Joined(o, menus, lo, hi) && o.menuId == r[i]
    ensures forall o | o in orders && Joined(o, menus, lo, hi) :: o.menuId in r
  {
    if orders == [] then []
    else
      var rest := JoinedMenuIds(orders[1..], menus, lo, hi);
      if Joined(orders[0], menus, lo, hi) && orders[0].menuId !in rest then [orders[0].menuId] + rest
      else rest
  }

  /** SUM(quantity) and SUM(total_price) of the window's non-cancelled orders
      of one menu. */
  function QuantityOfMenu(orders: seq<Order>, lo: int, hi: int, id: int): int {
    if orders == [] then 0
    else (if InWindow(orders[0], lo, hi) && Live(orders[0]) && orders[0].menuId == id
          then orders[0].quantity else 0)
         + QuantityOfMenu(orders[1..], lo, hi, id)
  }

  function SalesOfMenu(orders: seq<Order>, lo: int, hi: int, id: int): int {
    if orders == [] then 0
    else (if InWindow(orders[0], lo, hi) && Live(orders[0]) && orders[0].menuId == id
          then orders[0].totalPrice else 0)
         + SalesOfMenu(orders[1..], lo, hi, id)
  }

  function MenuRow(orders: seq<Order>, menus: seq<Menu>, lo: int, hi: int, id: int): MenuSalesReport
    requires id in MenuIds(menus)
  {
    MenuSalesReport(id, NameOf(menus, id), QuantityOfMenu(orders, lo, hi, id), SalesOfMenu(orders, lo, hi, id))
  }

  /** One row per group, in the order of the ids. */
  function MenuRows(orders: seq<Order>, menus: seq<Menu>, lo: int, hi: int, ids: seq<int>)
    : (r: seq<MenuSalesReport>)
    requires forall i :: 0 <= i < |ids| ==> ids[i] in MenuIds(menus)
    ensures |r| == |ids|
    ensures forall i :: 0 <= i < |r| ==> r[i] == MenuRow(orders, menus, lo, hi, ids[i])
  {
    if ids == [] then []
    else [MenuRow(orders, menus, lo, hi, ids[0])] + MenuRows(orders, menus, lo, hi, ids[1..])
  }

  function ReportSales(r: MenuSalesReport): int { r.totalSales }
  function ReportMenuId(r: MenuSalesReport): int { r.menuId }

  /** What every row built from the joined ids is, and that each joined
      row's menu gets one. */
  lemma MenuRowsOfJoinedIds(orders: seq<Order>, menus: seq<Menu>, lo: int, hi: int)
    ensures var rows := MenuRows(orders, menus, lo, hi, JoinedMenuIds(orders, menus, lo, hi));
      && (forall x | x in rows :: x.menuId in MenuIds(menus) && x == MenuRow(orders, menus, lo, hi, x.menuId))
      && (forall o | o in orders && Joined(o, menus, lo, hi) :: exists x :: x in rows && x.menuId == o.menuId)
  {
    var ids := JoinedMenuIds(orders, menus, lo, hi);
    var rows := MenuRows(orders, menus, lo, hi, ids);
    forall x | x in rows ensures x.menuId in MenuIds(menus) && x == MenuRow(orders, menus, lo, hi, x.menuId) {
      var i :| 0 <= i < |rows| && rows[i] == x;
      assert x == MenuRow(orders, menus, lo, hi, ids[i]);
    }
    forall o | o in orders && Joined(o, menus, lo, hi) ensures exists x :: x in rows && x.menuId == o.menuId {
      var i :| 0 <= i < |ids| && ids[i] == o.menuId;
      assert rows[i] in rows;
    }
  }

  /** Every row built from the joined ids belongs to a joined order. */
  lemma JoinedRowsBacked(orders: seq<Order>, menus: seq<Menu>, lo: int, hi: int)
    ensures var rows := MenuRows(orders, menus, lo, hi, JoinedMenuIds(orders, menus, lo, hi));
      forall x | x in rows :: exists o :: o in orders && Joined(o, menus, lo, hi) && o.menuId == x.menuId
  {
    var ids := JoinedMenuIds(orders, menus, lo, hi);
    var rows := MenuRows(orders, menus, lo, hi, ids);
    forall x | x in rows ensures exists o :: o in orders && Joined(o, menus, lo, hi) && o.menuId == x.menuId {
      var i :| 0 <= i < |rows| && rows[i] == x;
      assert x.menuId == ids[i];
    }
  }

  /** No two rows built from the joined ids share a menu id. */
  lemma JoinedRowsDistinct(orders: seq<Order>, menus: seq<Menu>, lo: int, hi: int)
    ensures var rows := MenuRows(orders, menus, lo, hi, JoinedMenuIds(orders, menus, lo, hi));
      forall i, j :: 0 <= i < j < |rows| ==> ReportMenuId(rows[i]) != ReportMenuId(rows[j])
  {
    var ids := JoinedMenuIds(orders, menus, lo, hi);
    var rows := MenuRows(orders, menus, lo, hi, ids);
    forall i, j | 0 <= i < j < |rows| ensures ReportMenuId(rows[i]) != ReportMenuId(rows[j]) {
      assert rows[i].menuId == ids[i] && rows[j].menuId == ids[j];
    }
  }

  /** The grouped rows before ranking. */
  function GroupedRows(orders: seq<Order>, menus: seq<Menu>, lo: int, hi: int): seq<MenuSalesReport> {
    MenuRows(orders, menus, lo, hi, JoinedMenuIds(orders, menus, lo, hi))
  }

  /** Ranking the grouped rows keeps every row and no other. */
  lemma RankedRowsAreGroups(orders: seq<Order>, menus: seq<Menu>, lo: int, hi: int)
    ensures var r := SortDesc(GroupedRows(orders, menus, lo, hi), ReportSales);
      && (forall x | x in r :: x.menuId in MenuIds(menus) && x == MenuRow(orders, menus, lo, hi, x.menuId))
      && (forall o | o in orders && Joined(o, menus, lo, hi) :: exists x :: x in r && x.menuId == o.menuId)
      && (forall x | x in r :: exists o :: o in orders && Joined(o, menus, lo, hi) && o.menuId == x.menuId)
  {
    var rows := GroupedRows(orders, menus, lo, hi);
    MenuRowsOfJoinedIds(orders, menus, lo, hi);
    JoinedRowsBacked(orders, menus, lo, hi);
    SortDescSameRows(rows, ReportSales);
  }

  /** Ranking the grouped rows keeps their menu ids distinct. */
  lemma RankedRowsDistinct(orders: seq<Order>, menus: seq<Menu>, lo: int, hi: int)
    ensures var r := SortDesc(GroupedRows(orders, menus, lo, hi), ReportSales);
      forall i, j :: 0 <= i < j < |r| ==> ReportMenuId(r[i]) != ReportMenuId(r[j])
  {
    var rows := GroupedRows(orders, menus, lo, hi);
    JoinedRowsDistinct(orders, menus, lo, hi);
    PermutationKeepsDistinctIds(rows, SortDesc(rows, ReportSales), ReportMenuId);
  }

  /** The per-menu ranking: one row per menu that has a joined row, best
      selling first. */
  function MenuReports(orders: seq<Order>, menus: seq<Menu>, lo: int, hi: int): (r: seq<MenuSalesReport>)
    ensures SortedDesc(r, ReportSales)
    ensures forall x | x in r :: x.menuId in MenuIds(menus) && x == MenuRow(orders, menus, lo, hi, x.menuId)
    ensures forall o | o in orders && Joined(o, menus, lo, hi) :: exists x :: x in r && x.menuId == o.menuId
    ensures forall x | x in r :: exists o :: o in orders && Joined(o, menus, lo, hi) && o.menuId == x.menuId
    ensures forall i, j :: 0 <= i < j < |r| ==> r[i].menuId != r[j].menuId
  {
    RankedRowsAreGroups(orders, menus, lo, hi);
    RankedRowsDistinct(orders, menus, lo, hi);
    SortDesc(GroupedRows(orders, menus, lo, hi), ReportSales)
  }

  // ----- The handler ---------------------------------------------------------

  /** The handler. Nothing is written; the report is a function of the
      tables, today, the period and the two date parameters. */
  method GetSalesReport(orders: seq<Order>, menus: seq<Menu>, today: int, period: string,
                        startDate: DateParam, endDate: DateParam) returns (r: Result<SalesReport>)
    ensures r.Err? <==> startDate.Malformed? || endDate.Malformed?
    ensures r.Err? ==> r.error == BadRequest(INVALID_DATE)
    ensures r.Ok? ==> r.value.period == period
    ensures r.Ok? && startDate.On? ==> r.value.startDay == startDate.day
    ensures r.Ok? && startDate.Omitted? && period == "daily" ==> r.value.startDay == today - 7
    ensures r.Ok? && startDate.Omitted? && period == "weekly" ==> r.value.startDay == today - 30
    ensures r.Ok? && startDate.Omitted? && period != "daily" && period != "weekly" ==>
              r.value.startDay == today - 90
    ensures r.Ok? && endDate.On? ==> r.value.endDay == endDate.day
    ensures r.Ok? && endDate.Omitted? ==> r.value.endDay == today
    ensures r.Ok? ==>
      var rep := r.value;
      var lo, hi := DayStart(rep.startDay), DayLastSecond(rep.endDay);
      && rep.dailyReports == DailyReports(orders, menus, lo, hi, rep.startDay, rep.endDay)
      && rep.menuReports == MenuReports(orders, menus, lo, hi)
      && rep.totalSales == SalesLiveIn(orders, lo, hi)
      && rep.totalOrders == CountLiveIn(orders, lo, hi)
    ensures r.Ok? ==>
      var rep := r.value;
      && |rep.dailyReports| == (if rep.startDay <= rep.endDay then rep.endDay - rep.startDay + 1 else 0)
      && (forall i :: 0 <= i < |rep.dailyReports| ==> rep.dailyReports[i].day == rep.startDay + i)
      && SortedDesc(rep.menuReports, ReportSales)
  {
    if startDate.Malformed? || endDate.Malformed? {
      return Err(BadRequest(INVALID_DATE));
    }
    var startDay := if startDate.On? then startDate.day else today - DefaultLookback(period);
    var endDay := if endDate.On? then endDate.day else today;
    var lo, hi := DayStart(startDay), DayLastSecond(endDay);

    var days: seq<DailySalesReport> := [];
    var current := startDay;
    while current <= endDay
      invariant startDay <= current
      invariant current <= endDay + 1 || current == startDay
      invariant days == DailyReports(orders, menus, lo, hi, startDay, current - 1)
      decreases endDay - current + 1
    {
      assert DailyReports(orders, menus, lo, hi, startDay, current) ==
             days + [DayReport(orders, menus, lo, hi, current)];
      days := days + [DayReport(orders, menus, lo, hi, current)];
      current := current + 1;
    }
    assert days == DailyReports(orders, menus, lo, hi, startDay, endDay) by {
      if current == startDay {
        assert days == [] && DailyReports(orders, menus, lo, hi, startDay, endDay) == [];
      }
    }

    r := Ok(SalesReport(period, startDay, endDay, days, MenuReports(orders, menus, lo, hi),
                        SalesLiveIn(orders, lo, hi), CountLiveIn(orders, lo, hi)));
  }

  // ----- What the report adds up to -------------------------------------------

  /** The daily counts up to day `last` add up to the count of the range up
      to the end of that day. */
  lemma {:induction false} DailyOrdersPrefix(orders: seq<Order>, menus: seq<Menu>, first: int, last: int, end: int)
    requires first - 1 <= last <= end
    ensures var lo, hi := DayStart(first), DayLastSecond(end);
      SumKey(DailyReports(orders, menus, lo, hi, first, last), DayOrders) ==
      CountLiveIn(orders, lo, Min(hi, DayEnd(last)))
    decreases last - first + 1
  {
    var lo, hi := DayStart(first), DayLastSecond(end);
    if last < first {
      EmptyWindow(orders, lo, Min(hi, DayEnd(last)));
    } else {
      var prev := DailyReports(orders, menus, lo, hi, first, last - 1);
      var today := DayReport(orders, menus, lo, hi, last);
      DailyOrdersPrefix(orders, menus, first, last - 1, end);
      assert DailyReports(orders, menus, lo, hi, first, last) == prev + [today];
      SumKeyAppend(prev, today, DayOrders);
      assert Max(lo, DayStart(last)) == DayStart(last);
      assert Min(hi, DayEnd(last - 1)) == DayStart(last) - 1;
      assert DayOrders(today) == CountLiveIn(orders, DayStart(last), Min(hi, DayEnd(last)));
      SplitWindow(orders, lo, DayStart(last), Min(hi, DayEnd(last)));
    }
  }

  /** The daily sales up to day `last` add up to the sales from the start of
      the range to the end of that day. */
  lemma {:induction false} DailySalesPrefix(orders: seq<Order>, menus: seq<Menu>, lo: int, hi: int, first: int, last: int)
    requires first - 1 <= last
    ensures SumKey(DailyReports(orders, menus, lo, hi, first, last), DaySales) ==
            SalesLiveIn(orders, DayStart(first), DayEnd(last))
    decreases last - first + 1
  {
    if last < first {
      EmptyWindow(orders, DayStart(first), DayEnd(last));
    } else {
      DailySalesPrefix(orders, menus, lo, hi, first, last - 1);
      SumKeyAppend(DailyReports(orders, menus, lo, hi, first, last - 1),
                   DayReport(orders, menus, lo, hi, last), DaySales);
      SplitWindow(orders, DayStart(first), DayStart(last), DayEnd(last));
    }
  }

  /** The daily counts add up to `total_orders`, while the daily sales add up
      to `total_sales` plus the sales of the end day's last 999999
      microseconds, which the range bound leaves out. */
  lemma DailyTotals(orders: seq<Order>, menus: seq<Menu>, first: int, last: int)
    requires first <= last
    ensures var lo, hi := DayStart(first), DayLastSecond(last);
      var days := DailyReports(orders, menus, lo, hi, first, last);
      && SumKey(days, DayOrders) == CountLiveIn(orders, lo, hi)
      && SumKey(days, DaySales) == SalesLiveIn(orders, lo, hi) + SalesLiveIn(orders, hi + 1, DayEnd(last))
  {
    var lo, hi := DayStart(first), DayLastSecond(last);
    DailyOrdersPrefix(orders, menus, first, last, last);
    DailySalesPrefix(orders, menus, lo, hi, first, last);
    SplitWindow(orders, lo, hi + 1, DayEnd(last));
  }

  /** An end date before the start date gives no daily reports, no menu
      reports and zero totals. */
  lemma EmptyRangeReport(orders: seq<Order>, menus: seq<Menu>, first: int, last: int)
    requires last < first
    ensures var lo, hi := DayStart(first), DayLastSecond(last);
      && DailyReports(orders, menus, lo, hi, first, last) == []
      && MenuReports(orders, menus, lo, hi) == []
      && SalesLiveIn(orders, lo, hi) == 0 && CountLiveIn(orders, lo, hi) == 0
  {
    var lo, hi := DayStart(first), DayLastSecond(last);
    EmptyWindow(orders, lo, hi);
    NoJoinedRowsNoIds(orders, menus, lo, hi);
  }

  /** A window without joined rows has no menu groups. */
  lemma {:induction false} NoJoinedRowsNoIds(orders: seq<Order>, menus: seq<Menu>, lo: int, hi: int)
    requires hi < lo
    ensures JoinedMenuIds(orders, menus, lo, hi) == []
  {
    if orders != [] {
      NoJoinedRowsNoIds(orders[1..], menus, lo, hi);
    }
  }

  /** A concrete case of the gap: one order at 23:59:59.5 on the only day of
      the range is in that day's sales but not in its count, and not in the
      range totals. */
  lemma LastSecondGap(o: Order, menus: seq<Menu>, day: int)
    requires o.status == PENDING && o.totalPrice == 500
    requires o.orderedAt == DayLastSecond(day) + 500_000
    ensures var lo, hi := DayStart(day), DayLastSecond(day);
      var days := DailyReports([o], menus, lo, hi, day, day);
      && |days| == 1 && days[0].totalSales == 500 && days[0].totalOrders == 0
      && SalesLiveIn([o], lo, hi) == 0 && CountLiveIn([o], lo, hi) == 0
  {
    var lo, hi := DayStart(day), DayLastSecond(day);
    assert [o][1..] == [];
    assert Max(lo, DayStart(day)) == lo && Min(hi, DayEnd(day)) == hi;
    assert SalesLiveIn([o], DayStart(day), DayEnd(day)) == 500;
    assert CountLiveIn([o], lo, hi) == 0;
    assert DailyReports([o], menus, lo, hi, day, day)[0] == DayReport([o], menus, lo, hi, day);
  }

  // ----- The menu ranking accounts for the joined sales ---------------------

  /** SUM(total_price) over the joined rows. */
  function JoinedSales(orders: seq<Order>, menus: seq<Menu>, lo: int, hi: int): int {
    if orders == [] then 0
    else (if Joined(orders[0], menus, lo, hi) then orders[0].totalPrice else 0)
         + JoinedSales(orders[1..], menus, lo, hi)
  }

  /** Σ over a list of menu ids of each menu's sales. */
  function SalesOverIds(orders: seq<Order>, lo: int, hi: int, ids: seq<int>): int {
    if ids == [] then 0 else SalesOfMenu(orders, lo, hi, ids[0]) + SalesOverIds(orders, lo, hi, ids[1..])
  }

  lemma {:induction false} MenuRowsSales(orders: seq<Order>, menus: seq<Menu>, lo: int, hi: int, ids: seq<int>)
    requires forall i :: 0 <= i < |ids| ==> ids[i] in MenuIds(menus)
    ensures SumKey(MenuRows(orders, menus, lo, hi, ids), ReportSales) == SalesOverIds(orders, lo, hi, ids)
  {
    if ids != [] {
      var rows := MenuRows(orders, menus, lo, hi, ids);
      assert rows[1..] == MenuRows(orders, menus, lo, hi, ids[1..]);
      MenuRowsSales(orders, menus, lo, hi, ids[1..]);
    }
  }

  /** Over distinct ids, one more leading order adds its total once if its
      menu is among the ids. */
  lemma {:induction false} SalesOverIdsCons(orders: seq<Order>, lo: int, hi: int, ids: seq<int>)
    requires orders != []
    requires forall i, j :: 0 <= i < j < |ids| ==> ids[i] != ids[j]
    ensures var o := orders[0];
      SalesOverIds(orders, lo, hi, ids) ==
      SalesOverIds(orders[1..], lo, hi, ids) +
      (if InWindow(o, lo, hi) && Live(o) && o.menuId in ids then o.totalPrice else 0)
  {
    if ids != [] {
      SalesOverIdsCons(orders, lo, hi, ids[1..]);
      assert orders[0].menuId == ids[0] ==> orders[0].menuId !in ids[1..];
      assert ids == [ids[0]] + ids[1..];
    }
  }

  lemma {:induction false} SalesOverJoinedIds(orders: seq<Order>, menus: seq<Menu>, lo: int, hi: int, ids: seq<int>)
    requires forall i, j :: 0 <= i < j < |ids| ==> ids[i] != ids[j]
    requires forall i :: 0 <= i < |ids| ==> ids[i] in MenuIds(menus)
    requires forall o | o in orders && Joined(o, menus, lo, hi) :: o.menuId in ids
    ensures SalesOverIds(orders, lo, hi, ids) == JoinedSales(orders, menus, lo, hi)
  {
    if orders == [] {
      SalesOverIdsEmpty(lo, hi, ids);
    } else {
      SalesOverIdsCons(orders, lo, hi, ids);
      assert forall o | o in orders[1..] :: o in orders;
      SalesOverJoinedIds(orders[1..], menus, lo, hi, ids);
      assert orders[0] in orders;
    }
  }

  lemma {:induction false} SalesOverIdsEmpty(lo: int, hi: int, ids: seq<int>)
    ensures SalesOverIds([], lo, hi, ids) == 0
  {
    if ids != [] {
      SalesOverIdsEmpty(lo, hi, ids[1..]);
    }
  }

  /** When every non-cancelled order of the window has its menu row (as
      `Db.Valid` guarantees), the joined sales are the range's sales. */
  lemma {:induction false} JoinedSalesAreAllSales(orders: seq<Order>, menus: seq<Menu>, lo: int, hi: int)
    requires forall o | o in orders :: o.menuId in MenuIds(menus)
    ensures JoinedSales(orders, menus, lo, hi) == SalesLiveIn(orders, lo, hi)
  {
    if orders != [] {
      assert orders[0] in orders;
      assert forall o | o in orders[1..] :: o in orders;
      JoinedSalesAreAllSales(orders[1..], menus, lo, hi);
    }
  }

  /** The per-menu ranking accounts for every sale of the range: its sales
      add up to `total_sales` when every order's menu exists. */
  lemma MenuReportsAddUp(orders: seq<Order>, menus: seq<Menu>, lo: int, hi: int)
    requires forall o | o in orders :: o.menuId in MenuIds(menus)
    ensures SumKey(MenuReports(orders, menus, lo, hi), ReportSales) == SalesLiveIn(orders, lo, hi)
  {
    var ids := JoinedMenuIds(orders, menus, lo, hi);
    MenuRowsSales(orders, menus, lo, hi, ids);
    SalesOverJoinedIds(orders, menus, lo, hi, ids);
    JoinedSalesAreAllSales(orders, menus, lo, hi);
  }
}
