/** The monthly report page: the first-to-last-day range it asks the backend
    for, the year and month it sends with the chart request, month-by-month
    navigation and the total. */
module MonthlySales {
  import opened Calendar
  import opened DateText
  import opened EcmaDate
  import opened Text
  import opened Sales
  import opened MonthSteps

  /** `formatDate(d)`: the local `YYYY-MM-DD` of the Date holding time value `t`. */
  function FormatDate(t: int, host: int): (s: string)
    ensures var d := LocalDate(t, host);
      1000 <= d.year <= 9999 ==> DateLayout(s, d)
  {
    var d := LocalDate(t, host);
    if 1000 <= d.year <= 9999 then YmdLayout(d); Ymd(d) else Ymd(d)
  }

  /** `getMonthRange(date)`: the local year and month of the instant 5h30 later,
      and the first and last day of that month.  The Date constructor reads the
      years 0..99 as 1900..1999, so such a year lands in the twentieth century. */
  function GetMonthRange(t: int, host: int): (r: (string, string))
    ensures var d := LocalDate(t + IstOffsetMs, host); var y := FullYearArg(d.year);
      r == (Ymd(Date(y, d.month, 1)), Ymd(Date(y, d.month, DaysInMonth(y, d.month))))
  {
    var ist := LocalDate(t + IstOffsetMs, host);
    var year := ist.year;
    var month := ist.month - 1;
    var startDate := LocalPartsValue(year, month, 1, host);
    var endDate := LocalPartsValue(year, month + 1, 0, host);
    MonthStartParts(year, month, host);
    MonthEndParts(year, month, host);
    (FormatDate(startDate, host), FormatDate(endDate, host))
  }

  /** The range holds the day it was computed from, unless that day's year was
      read as a twentieth-century one. */
  lemma MonthRangeHoldsAnchor(t: int, host: int)
    requires !(0 <= LocalDate(t + IstOffsetMs, host).year <= 99)
    ensures var d := LocalDate(t + IstOffsetMs, host);
      DayNumber(Date(d.year, d.month, 1)) <= Day(t + IstOffsetMs + host)
        <= DayNumber(Date(d.year, d.month, DaysInMonth(d.year, d.month)))
  {
    var d := LocalDate(t + IstOffsetMs, host);
    assert DayNumber(d) == Day(t + IstOffsetMs + host);
  }

  /** For four-digit years the range starts with the `YYYY-MM-DD` string of
      the month's first day. */
  lemma MonthRangeStart(t: int, host: int)
    requires var y := FullYearArg(LocalDate(t + IstOffsetMs, host).year); 1000 <= y <= 9999
    ensures var d := LocalDate(t + IstOffsetMs, host); var y := FullYearArg(d.year);
      DateLayout(GetMonthRange(t, host).0, Date(y, d.month, 1))
  {
    var d := LocalDate(t + IstOffsetMs, host);
    var a := Date(FullYearArg(d.year), d.month, 1);
    assert GetMonthRange(t, host).0 == Ymd(a);
    PairLayout(a, a);
  }

  /** For four-digit years the range ends with the `YYYY-MM-DD` string of the
      month's last day. */
  lemma MonthRangeEnd(t: int, host: int)
    requires var y := FullYearArg(LocalDate(t + IstOffsetMs, host).year); 1000 <= y <= 9999
    ensures var d := LocalDate(t + IstOffsetMs, host); var y := FullYearArg(d.year);
      DateLayout(GetMonthRange(t, host).1, Date(y, d.month, DaysInMonth(y, d.month)))
  {
    var d := LocalDate(t + IstOffsetMs, host);
    var y := FullYearArg(d.year);
    var b := Date(y, d.month, DaysInMonth(y, d.month));
    assert GetMonthRange(t, host).1 == Ymd(b);
    PairLayout(b, b);
  }

  /** For four-digit years both ends of the range share their `YYYY-MM` prefix. */
  lemma MonthRangeSameMonth(t: int, host: int)
    requires var y := FullYearArg(LocalDate(t + IstOffsetMs, host).year); 1000 <= y <= 9999
    ensures |GetMonthRange(t, host).0| == |GetMonthRange(t, host).1| == 10
    ensures GetMonthRange(t, host).0[..7] == GetMonthRange(t, host).1[..7]
  {
    var d := LocalDate(t + IstOffsetMs, host);
    var y := FullYearArg(d.year);
    var a, b := Date(y, d.month, 1), Date(y, d.month, DaysInMonth(y, d.month));
    assert GetMonthRange(t, host) == (Ymd(a), Ymd(b));
    PairLayout(a, b);
    SharedMonthPrefix(a, b);
  }

  /** The chart request's arguments: `start.slice(0, 4)` and `start.slice(5, 7)`. */
  function GraphQuery(start: string): (string, string) {
    (Slice(start, 0, 4), Slice(start, 5, 7))
  }

  /** For four-digit years the chart is asked for the range's year and month. */
  lemma GraphQueryIsYearAndMonth(t: int, host: int)
    requires var y := FullYearArg(LocalDate(t + IstOffsetMs, host).year); 1000 <= y <= 9999
    ensures var d := LocalDate(t + IstOffsetMs, host);
      var q := GraphQuery(GetMonthRange(t, host).0);
      |q.0| == 4 && AllDigits(q.0) && DigitsValue(q.0) == FullYearArg(d.year)
      && |q.1| == 2 && AllDigits(q.1) && DigitsValue(q.1) == d.month
  {
    MonthRangeStart(t, host);
  }

  /** The steps of the month navigation on a Date `date`: remember the day,
      go to the 1st, `setMonth(getMonth() + dir)`, then `setDate` to the
      remembered day held to the new month's length. */
  method MoveMonth(date: JsDate, dir: int, host: int)
    modifies date
    ensures date.time == ShiftMonthValue(old(date.time), dir, host)
  {
    ghost var t := date.time;
    var day := date.GetDate(host);
    var month := date.GetMonth(host) + dir;
    date.SetDate(1, host);
    ghost var first := date.time;
    date.SetMonth(month, host);
    ghost var moved := date.time;
    SetHeldDate(date, day, host);
    ShiftMonthValueFrom(t, dir, host, first, month, moved);
  }

  /** `changeMonth`'s step as written: `setMonth(getMonth() + dir)` on the
      Date, which keeps the day of the month and lets `setMonth` overflow. */
  method WrittenMoveMonth(date: JsDate, dir: int, host: int)
    modifies date
    ensures date.time == WrittenChangeMonth(old(date.time), dir, host)
  {
    var month := date.GetMonth(host) + dir;
    date.SetMonth(month, host);
  }

  /** 28 February 2023 at 20:00 on a UTC host: the page shows March, since
      its range reads the date 5h30 later, and the written "next month"
      moves the host's date to 28 March at 20:00, which still shows March. */
  lemma FebruaryEveningStaysInMarch()
    ensures LocalDate(1677614400000, 0) == Date(2023, 2, 28)
    ensures LocalDate(1677614400000 + IstOffsetMs, 0) == Date(2023, 3, 1)
    ensures LocalDate(WrittenChangeMonth(1677614400000, 1, 0) + IstOffsetMs, 0) == Date(2023, 3, 29)
  {
    var t := 1677614400000;
    assert DayFromYear(2023) == 19358;
    assert Day(t + 0) == 19416;
    LocalDateAt(t, 0, Date(2023, 2, 28));
    assert Day(t + IstOffsetMs + 0) == 19417;
    LocalDateAt(t + IstOffsetMs, 0, Date(2023, 3, 1));
    var w := SetMonthValue(t, 2, 0);
    assert WrittenChangeMonth(t, 1, 0) == w;
    assert TargetMonth(2023, 2) == (2023, 3);
    SetMonthKeepsDay(t, 2, 0);
    assert Day(w + 0) == 19444 && TimeWithinDay(w + 0) == 72000000;
    assert Day(w + IstOffsetMs + 0) == 19445;
    LocalDateAt(w + IstOffsetMs, 0, Date(2023, 3, 29));
  }

  /** `setDate(day)` with `day` held to the Date's own month. */
  method SetHeldDate(date: JsDate, day: int, host: int)
    modifies date
    ensures date.time == SetHeldDateValue(old(date.time), day, host)
  {
    var y, m := date.GetFullYear(host), date.GetMonth(host) + 1;
    date.SetDate(HeldDay(y, m, day), host);
  }

  /** The page's state: the anchor Date, the table's rows and the chart series. */
  class MonthlyPage {
    const host: int
    var currentMonth: JsDate
    var salesList: seq<Sale>
    var monthlyGraph: seq<Point>

    constructor (now: int, host: int)
      ensures this.host == host
      ensures currentMonth.time == now
      ensures salesList == [] && monthlyGraph == []
    {
      this.host := host;
      currentMonth := new JsDate(now);
      salesList := [];
      monthlyGraph := [];
    }

    /** The dates the page requests and the chart request's arguments. */
    function Range(): (r: (string, string))
      reads this, currentMonth
      ensures r == GetMonthRange(currentMonth.time, host)
    {
      GetMonthRange(currentMonth.time, host)
    }

    /** `changeMonth(dir)`, corrected: the held-day step applied to the wall
        clock the range is built from, 5h30 ahead of the host's clock, so the
        month shown moves by exactly `dir` (`IstShiftMonthValueDate`). */
    method ChangeMonth(dir: int)
      modifies this
      ensures fresh(currentMonth)
      ensures currentMonth.time == IstShiftMonthValue(old(currentMonth.time), dir, host)
      ensures salesList == old(salesList) && monthlyGraph == old(monthlyGraph)
    {
      var t := currentMonth.time;
      var shown := new JsDate(t + IstOffsetMs);
      MoveMonth(shown, dir, host);
      var moved := shown.time - IstOffsetMs;
      IstShiftFromShown(t, shown.time, dir, host);
      currentMonth := new JsDate(moved);
    }

    /** The end of `fetchMonthlySales`: both responses are stored, or, when
        either request threw, the table is emptied and the chart kept. */
    method ApplyFetch(sales: Reply<seq<Sale>>, graph: Reply<seq<Point>>)
      modifies this
      ensures sales.Ok? && graph.Ok? ==> salesList == sales.data && monthlyGraph == graph.data
      ensures !(sales.Ok? && graph.Ok?) ==> salesList == [] && monthlyGraph == old(monthlyGraph)
      ensures currentMonth == old(currentMonth)
    {
      if sales.Ok? && graph.Ok? {
        salesList := sales.data;
        monthlyGraph := graph.data;
      } else {
        salesList := [];
      }
    }

    /** `totalMonthlySales`. */
    function TotalMonthlySales(): (r: int)
      reads this
      ensures r == SumTotals(salesList)
      ensures salesList == [] ==> r == 0
    {
      Total(salesList)
    }

    /** The table: the sales in the order the backend sent them, numbered
        from 1; this page does not sort. */
    function TableRows(): (rows: seq<Row>)
      reads this
      ensures |rows| == |salesList|
      ensures forall i :: 0 <= i < |rows| ==> rows[i] == Row(i + 1, salesList[i])
    {
      NumberedRows(salesList)
    }
  }
}
