/** The weekly report page: the Sunday-to-Saturday range it asks the backend
    for, week-by-week navigation, the total, the bar chart's fallback series and
    the table sorted by amount. */
module WeeklySales {
  import opened Calendar
  import opened DateText
  import opened EcmaDate
  import opened Lists
  import opened Sales

  /** `formatISTDate(date)`: the local `YYYY-MM-DD` of the instant 5h30 later.
      On a UTC host that is the date in India; for four-digit years the string
      is ten characters with the date's year, month and day in place. */
  function FormatISTDate(t: int, host: int): (s: string)
    ensures var d := LocalDate(t + IstOffsetMs, host);
      1000 <= d.year <= 9999 ==> DateLayout(s, d)
  {
    var d := LocalDate(t + IstOffsetMs, host);
    if 1000 <= d.year <= 9999 then YmdLayout(d); Ymd(d) else Ymd(d)
  }

  /** Two instants format alike exactly when they fall on the same local day
      5h30 later; on a UTC host, exactly when they share an IST calendar day. */
  lemma FormatISTDateSameDay(t1: int, t2: int, host: int)
    requires 1000 <= LocalDate(t1 + IstOffsetMs, host).year <= 9999
    requires 1000 <= LocalDate(t2 + IstOffsetMs, host).year <= 9999
    ensures FormatISTDate(t1, host) == FormatISTDate(t2, host)
        <==> Day(t1 + IstOffsetMs + host) == Day(t2 + IstOffsetMs + host)
  {
    var d1, d2 := LocalDate(t1 + IstOffsetMs, host), LocalDate(t2 + IstOffsetMs, host);
    LayoutDetermines(FormatISTDate(t1, host), d1, d1);
    if FormatISTDate(t1, host) == FormatISTDate(t2, host) {
      LayoutDetermines(FormatISTDate(t1, host), d1, d2);
    }
  }

  /** The time value of the Date `getWeekRange` moves back to the week's start:
      the anchor less its local weekday in days. */
  function WeekStartValue(t: int, host: int): int {
    t - WeekDay(Day(t + host)) * 86400000
  }

  /** The two Dates `getWeekRange` builds: a copy of `date` moved back by its
      local weekday with `setDate`, and a copy of that moved six days on. */
  method WeekBounds(date: JsDate, host: int) returns (sunday: JsDate, saturday: JsDate)
    ensures fresh(sunday) && fresh(saturday)
    ensures sunday.time == WeekStartValue(date.time, host)
    ensures saturday.time == WeekStartValue(date.time, host) + 6 * 86400000
  {
    var day := date.GetDay(host);
    sunday := new JsDate.Copy(date);
    var back := date.GetDate(host) - day;
    assert back == LocalDate(sunday.time, host).day + -day;
    sunday.SetDate(back, host);
    assert sunday.time == date.time + -day * 86400000;
    assert -day * 86400000 == -(day * 86400000);
    assert day == WeekDay(Day(date.time + host));
    assert sunday.time == WeekStartValue(date.time, host);
    saturday := new JsDate.Copy(sunday);
    var on := sunday.GetDate(host) + 6;
    assert on == LocalDate(saturday.time, host).day + 6;
    saturday.SetDate(on, host);
  }

  /** `getWeekRange(date)` as written: both Dates are formatted with
      `formatISTDate`. */
  method GetWeekRange(date: JsDate, host: int) returns (start: string, end: string)
    ensures start == FormatISTDate(WeekStartValue(date.time, host), host)
    ensures end == FormatISTDate(WeekStartValue(date.time, host) + 6 * 86400000, host)
  {
    var sunday, saturday := WeekBounds(date, host);
    start := FormatISTDate(sunday.time, host);
    end := FormatISTDate(saturday.time, host);
  }

  /** The day number of the date `getWeekRange` reports as the week's start. */
  function WrittenWeekStart(t: int, host: int): int {
    DayNumber(LocalDate(WeekStartValue(t, host) + IstOffsetMs, host))
  }

  /** The reported start is the anchor's day 5h30 later minus its local weekday. */
  lemma WrittenWeekStartDay(t: int, host: int)
    ensures WrittenWeekStart(t, host) == Day(t + host + IstOffsetMs) - WeekDay(Day(t + host))
  {
    DayShift(t + host + IstOffsetMs, -WeekDay(Day(t + host)));
  }

  /** The reported end is six days after the reported start, so the range
      covers seven consecutive dates, and the anchor's day 5h30 later lies in it. */
  lemma WrittenWeekSpan(t: int, host: int)
    ensures DayNumber(LocalDate(WeekStartValue(t, host) + 6 * 86400000 + IstOffsetMs, host))
         == WrittenWeekStart(t, host) + 6
    ensures WrittenWeekStart(t, host) <= Day(t + host + IstOffsetMs) <= WrittenWeekStart(t, host) + 6
  {
    var s := WeekStartValue(t, host);
    DayShift(s + IstOffsetMs + host, 6);
    assert s + 6 * 86400000 + IstOffsetMs + host == s + IstOffsetMs + host + 6 * 86400000;
    WrittenWeekStartDay(t, host);
  }

  /** Adding 5h30 to a time of day `tod` on day `z` stays on day `z` before
      18:30 and reaches day `z + 1` from 18:30 on. */
  lemma IstDayOf(z: int, tod: int)
    requires 0 <= tod < 86400000
    ensures Day(z * 86400000 + tod + IstOffsetMs) == if tod < 86400000 - IstOffsetMs then z else z + 1
  {
    if tod >= 86400000 - IstOffsetMs {
      assert z * 86400000 + tod + IstOffsetMs == (z + 1) * 86400000 + (tod + IstOffsetMs - 86400000);
    }
  }

  /** Stepping back from day `z` by its weekday reaches a Sunday. */
  lemma BackToSunday(z: int)
    ensures WeekDay(z - WeekDay(z)) == 0
    ensures WeekDay(z + 1 - WeekDay(z)) == 1
  {
    var q := (z + 4) / 7;
    assert z + 4 == 7 * q + WeekDay(z);
  }

  /** The weekday of the reported start: a Sunday only while the local time of
      day is before 18:30; from 18:30 on, the reported week starts on a Monday. */
  lemma WrittenWeekStartWeekday(t: int, host: int)
    ensures WeekDay(WrittenWeekStart(t, host))
         == if TimeWithinDay(t + host) < 86400000 - IstOffsetMs then 0 else 1
  {
    WrittenWeekStartDay(t, host);
    var z := Day(t + host);
    var tod := TimeWithinDay(t + host);
    assert t + host + IstOffsetMs == z * 86400000 + tod + IstOffsetMs;
    IstDayOf(z, tod);
    BackToSunday(z);
  }

  lemma EleventhOfMarchNumber()
    ensures Valid(Date(2024, 3, 11)) && DayNumber(Date(2024, 3, 11)) == 19793
  {
    assert DayFromYear(2024) == 19723;
  }

  lemma EleventhOfMarchText()
    ensures Ymd(Date(2024, 3, 11)) == "2024-03-11"
  {
    assert Digits(20) == "20";
    assert Digits(202) == "202";
    assert YearText(2024) == "2024";
    assert Digits(3) == "3";
    assert seq(1, _ => '0') == "0";
    assert Pad2(3) == "03";
    assert Digits(11) == "11";
    assert Pad2(11) == "11";
  }

  /** Saturday 16 March 2024 at 19:00 UTC on a UTC host: the reported week
      starts on Monday 11 March. */
  lemma SaturdayEveningStartsOnMonday()
    ensures WeekDay(WrittenWeekStart(1710615600000, 0)) == 1
    ensures FormatISTDate(WeekStartValue(1710615600000, 0), 0) == "2024-03-11"
  {
    var t := 1710615600000;
    assert Day(t) == 19798;
    assert TimeWithinDay(t) == 68400000;
    WrittenWeekStartWeekday(t, 0);
    WrittenWeekStartDay(t, 0);
    assert Day(t + IstOffsetMs) == 19799;
    assert WrittenWeekStart(t, 0) == 19793;
    EleventhOfMarchNumber();
    CivilAt(19793, Date(2024, 3, 11));
    assert LocalDate(WeekStartValue(t, 0) + IstOffsetMs, 0) == Date(2024, 3, 11);
    EleventhOfMarchText();
  }

  /** The Sunday that starts the IST calendar week holding instant `t`. */
  function IstWeekStart(t: int): (z: int)
    ensures WeekDay(z) == 0
    ensures z <= Day(t + IstOffsetMs) <= z + 6
  {
    var d := Day(t + IstOffsetMs);
    var q := (d + 4) / 7;
    assert d + 4 == 7 * q + WeekDay(d);
    d - WeekDay(d)
  }

  /** No other Sunday has the instant's IST day within its seven days. */
  lemma IstWeekStartUnique(t: int, z: int)
    requires WeekDay(z) == 0 && z <= Day(t + IstOffsetMs) <= z + 6
    ensures z == IstWeekStart(t)
  {
    var s := IstWeekStart(t);
    var qz, qs := (z + 4) / 7, (s + 4) / 7;
    assert z + 4 == 7 * qz && s + 4 == 7 * qs;
  }

  /** Moving the anchor by whole weeks moves the week's start by as many weeks. */
  lemma IstWeekStartShift(t: int, n: int)
    ensures IstWeekStart(t + 7 * n * 86400000) == IstWeekStart(t) + 7 * n
  {
    DayShift(t + IstOffsetMs, 7 * n);
    assert t + 7 * n * 86400000 + IstOffsetMs == t + IstOffsetMs + (7 * n) * 86400000;
    WeekDayPeriodic(IstWeekStart(t), n);
    IstWeekStartUnique(t + 7 * n * 86400000, IstWeekStart(t) + 7 * n);
  }

  /** The IST week's range: its Sunday and its Saturday as `YYYY-MM-DD`. */
  function IstWeekRange(t: int): (string, string) {
    var z := IstWeekStart(t);
    (Ymd(CivilFromDays(z)), Ymd(CivilFromDays(z + 6)))
  }

  /** The range starts with the `YYYY-MM-DD` string of the week's Sunday when
      its year has four digits; IstWeekStart places the instant's IST day in
      the seven days from that Sunday. */
  lemma IstWeekRangeStart(t: int)
    ensures var a := CivilFromDays(IstWeekStart(t));
      1000 <= a.year <= 9999 ==> DateLayout(IstWeekRange(t).0, a)
  {
    var a := CivilFromDays(IstWeekStart(t));
    assert IstWeekRange(t).0 == Ymd(a);
    PairLayout(a, a);
  }

  /** The range ends with the `YYYY-MM-DD` string of the date six days after
      that Sunday when its year has four digits. */
  lemma IstWeekRangeEnd(t: int)
    ensures var b := CivilFromDays(IstWeekStart(t) + 6);
      1000 <= b.year <= 9999 ==> DateLayout(IstWeekRange(t).1, b)
  {
    var b := CivilFromDays(IstWeekStart(t) + 6);
    assert IstWeekRange(t).1 == Ymd(b);
    PairLayout(b, b);
  }

  /** The range's last day is a Saturday. */
  lemma IstWeekEndsSaturday(t: int)
    ensures WeekDay(DayNumber(CivilFromDays(IstWeekStart(t) + 6))) == 6
  {
    SixDaysAfterSunday(IstWeekStart(t));
  }

  lemma SixDaysAfterSunday(z: int)
    requires WeekDay(z) == 0
    ensures WeekDay(z + 6) == 6
  {
    var q := (z + 4) / 7;
    assert z + 6 + 4 == 7 * q + 6;
  }

  /** On a UTC host, before 18:30 UTC, `getWeekRange` reports the IST week. */
  lemma WrittenWeekAgreesBeforeEvening(t: int)
    requires TimeWithinDay(t) < 86400000 - IstOffsetMs
    ensures WrittenWeekStart(t, 0) == IstWeekStart(t)
  {
    WrittenWeekStartDay(t, 0);
    WrittenWeekStartWeekday(t, 0);
    WrittenWeekSpan(t, 0);
    IstWeekStartUnique(t, WrittenWeekStart(t, 0));
  }

  function DayLabel(w: int): string
    requires 0 <= w <= 6
  {
    ["Sun", "Mon", "Tue", "Wed", "Thu", "Fri", "Sat"][w]
  }

  /** The chart's data: the backend's series, or seven zero bars Sun..Sat when
      that series is empty. */
  function ChartData(graph: seq<Point>): (r: seq<Point>)
    ensures |graph| > 0 ==> r == graph
    ensures |graph| == 0 ==> |r| == 7 && forall i :: 0 <= i < 7 ==> r[i] == Point(DayLabel(i), 0)
  {
    if |graph| > 0 then graph
    else seq(7, i requires 0 <= i < 7 => Point(DayLabel(i), 0))
  }

  /** The fallback bars line up with the days of the IST week: bar `i` is
      labelled with the weekday of the week's `i`-th day. */
  lemma FallbackFollowsWeek(t: int, i: int)
    requires 0 <= i < 7
    ensures ChartData([])[i].key == DayLabel(WeekDay(IstWeekStart(t) + i))
  {
    var z := IstWeekStart(t);
    var q := (z + 4) / 7;
    assert z + 4 == 7 * q;
    assert z + i + 4 == 7 * q + i;
  }

  /** The page's state: the anchor Date, the table's rows and the chart series.
      The range it asks for is the IST week of the anchor. */
  class WeeklyPage {
    const host: int
    var currentWeekStart: JsDate
    var salesList: array<Sale>
    var weeklyGraph: seq<Point>

    /** The page as first rendered at instant `now`: empty table and chart. */
    constructor (now: int, host: int)
      ensures this.host == host
      ensures currentWeekStart.time == now
      ensures salesList[..] == [] && weeklyGraph == []
    {
      this.host := host;
      currentWeekStart := new JsDate(now);
      salesList := new Sale[0];
      weeklyGraph := [];
    }

    /** The dates the page requests and shows. */
    function Range(): (r: (string, string))
      reads this, currentWeekStart
      ensures r == IstWeekRange(currentWeekStart.time)
    {
      IstWeekRange(currentWeekStart.time)
    }

    /** `changeWeek(weeks)`: a copy of the anchor moved by 7 * weeks days. */
    method ChangeWeek(weeks: int)
      modifies this
      ensures fresh(currentWeekStart)
      ensures currentWeekStart.time == old(currentWeekStart.time) + 7 * weeks * 86400000
      ensures salesList == old(salesList) && weeklyGraph == old(weeklyGraph)
    {
      var newWeek := new JsDate.Copy(currentWeekStart);
      newWeek.SetDate(newWeek.GetDate(host) + weeks * 7, host);
      currentWeekStart := newWeek;
    }

    /** The end of `fetchWeeklySales`: both responses are stored, or, when
        either request threw, both lists are emptied. */
    method ApplyFetch(sales: Reply<seq<Sale>>, graph: Reply<seq<Point>>)
      modifies this
      ensures fresh(salesList)
      ensures sales.Ok? && graph.Ok? ==> salesList[..] == sales.data && weeklyGraph == graph.data
      ensures !(sales.Ok? && graph.Ok?) ==> salesList[..] == [] && weeklyGraph == []
      ensures currentWeekStart == old(currentWeekStart)
    {
      if sales.Ok? && graph.Ok? {
        var data := sales.data;
        salesList := new Sale[|data|](i requires 0 <= i < |data| => data[i]);
        weeklyGraph := graph.data;
      } else {
        salesList := new Sale[0];
        weeklyGraph := [];
      }
    }

    /** `totalWeeklySales`. */
    function TotalWeeklySales(): (r: int)
      reads this, salesList
      ensures r == SumTotals(salesList[..])
      ensures salesList.Length == 0 ==> r == 0
    {
      Total(salesList[..])
    }

    /** The table: `salesList` sorted in place by amount, largest first, then
        numbered from 1.  Sorting does not change the total. */
    method TableRows() returns (rows: seq<Row>)
      modifies salesList
      ensures multiset(salesList[..]) == multiset(old(salesList[..]))
      ensures forall i, j :: 0 <= i < j < salesList.Length ==> salesList[i].totalPrice >= salesList[j].totalPrice
      ensures SameTieOrder(salesList[..], old(salesList[..]), ByTotalDesc)
      ensures rows == NumberedRows(salesList[..])
      ensures TotalWeeklySales() == old(TotalWeeklySales())
    {
      rows := RankRows(salesList);
    }
  }
}
