/** ECMAScript `Date` objects as the report pages use them: a time value in
    milliseconds since the epoch, local getters that read the host's time zone,
    and the setters `setDate`/`setMonth`, which rebuild the time value through
    MakeDay and MakeDate (section 21.4.1 of ECMA-262).  The host zone is a fixed
    offset `host` in milliseconds ahead of UTC (LocalTime(t) = t + host). */
module EcmaDate {
  import opened Calendar


  /** India Standard Time is UTC+05:30: 5.5 * 60 * 60 * 1000 milliseconds. */
  const IstOffsetMs: int := 19800000

  /** ECMAScript's Day(t): the day number holding time value `t` (floor division). */
  function Day(t: int): int {
    t / 86400000
  }

  function TimeWithinDay(t: int): (r: int)
    ensures 0 <= r < 86400000
  {
    t % 86400000
  }

  /** Moving a time value by whole days moves its day number by as many days
      and keeps its time of day. */
  lemma DayShift(x: int, n: int)
    ensures Day(x + n * 86400000) == Day(x) + n
    ensures TimeWithinDay(x + n * 86400000) == TimeWithinDay(x)
  {
    var q, r := x / 86400000, x % 86400000;
    assert x + n * 86400000 == (q + n) * 86400000 + r;
  }

  /** The civil date that the local getters (`getFullYear`, `getMonth`,
      `getDate`) read from time value `t` on a host at offset `host`. */
  function LocalDate(t: int, host: int): (d: Date)
    ensures Valid(d)
    ensures DayNumber(d) == Day(t + host)
  {
    CivilFromDays(Day(t + host))
  }

  /** ECMAScript's MakeDay: `month` is 0-based and may lie outside 0..11, in
      which case it carries into the year; `date` may overflow the month. */
  function MakeDay(year: int, month: int, date: int): int {
    DayNumber(Date(year + month / 12, month % 12 + 1, 1)) + date - 1
  }

  function MakeDate(day: int, time: int): int {
    day * 86400000 + time
  }

  /** The time value `setDate(date)` leaves in a Date whose time value was `t`:
      the local year, month and time of day are kept, so the time value moves
      by the difference in days (SetDateIsMakeDate relates this to MakeDay). */
  function SetDateValue(t: int, date: int, host: int): int {
    t + (date - LocalDate(t, host).day) * 86400000
  }

  /** The time value `setMonth(month)` leaves in a Date whose time value was `t`:
      year and day-of-month are kept, the month is replaced. */
  function SetMonthValue(t: int, month: int, host: int): int {
    var l := LocalDate(t, host);
    MakeDate(MakeDay(l.year, month, l.day), TimeWithinDay(t + host)) - host
  }

  /** The Date constructor's year argument: years 0..99 denote 1900..1999. */
  function FullYearArg(y: int): int {
    if 0 <= y <= 99 then 1900 + y else y
  }

  /** The time value of `new Date(year, month, date)`: local midnight. */
  function LocalPartsValue(year: int, month: int, date: int, host: int): int {
    MakeDate(MakeDay(FullYearArg(year), month, date), 0) - host
  }

  /** A rebuilt local time value lands on day `z` at time of day `tod`. */
  lemma LocalOfMakeDate(z: int, tod: int, host: int)
    requires 0 <= tod < 86400000
    ensures Day(MakeDate(z, tod) - host + host) == z
    ensures TimeWithinDay(MakeDate(z, tod) - host + host) == tod
  {
    assert MakeDate(z, tod) - host + host == z * 86400000 + tod;
  }

  /** MakeDay on a month index within 0..11 is the day number of that date. */
  lemma MakeDayInYear(year: int, month: int, date: int)
    requires 0 <= month <= 11
    ensures MakeDay(year, month, date) == DayNumber(Date(year, month + 1, date))
  {
    assert month / 12 == 0 && month % 12 == month;
  }

  /** Rebuilding a time value from its day number shifted by `n` and its time
      of day moves it by `n` days. */
  lemma MakeDateShift(x: int, n: int)
    ensures MakeDate(Day(x) + n, TimeWithinDay(x)) == x + n * 86400000
  {
    var q, r := x / 86400000, x % 86400000;
    assert x == q * 86400000 + r;
    assert (q + n) * 86400000 == q * 86400000 + n * 86400000;
  }

  /** `setDate(date)` is ECMA-262's MakeDate(MakeDay(year, month, date),
      TimeWithinDay) on the local time, converted back to a time value. */
  lemma SetDateIsMakeDate(t: int, date: int, host: int)
    ensures var l := LocalDate(t, host);
      SetDateValue(t, date, host)
        == MakeDate(MakeDay(l.year, l.month - 1, date), TimeWithinDay(t + host)) - host
  {
    var l := LocalDate(t, host);
    var n := date - l.day;
    MakeDayInYear(l.year, l.month - 1, date);
    assert MakeDay(l.year, l.month - 1, date) == Day(t + host) + n;
    MakeDateShift(t + host, n);
  }

  /** A time value whose local day number is that of the valid date `d` reads
      back as `d`. */
  lemma LocalDateAt(t: int, host: int, d: Date)
    requires Valid(d) && DayNumber(d) == Day(t + host)
    ensures LocalDate(t, host) == d
  {
    CivilAt(Day(t + host), d);
  }

  /** `setDate(c)` for a day `c` of the Date's own month lands on that day at
      the same local time of day. */
  lemma SetDateInMonth(x: int, c: int, host: int)
    requires var l := LocalDate(x, host); 1 <= c <= DaysInMonth(l.year, l.month)
    ensures var l := LocalDate(x, host);
      LocalDate(SetDateValue(x, c, host), host) == Date(l.year, l.month, c)
    ensures TimeWithinDay(SetDateValue(x, c, host) + host) == TimeWithinDay(x + host)
  {
    var l := LocalDate(x, host);
    var k := c - l.day;
    var v := x + k * 86400000;
    assert SetDateValue(x, c, host) == v;
    DayShift(x + host, k);
    assert v + host == x + host + k * 86400000;
    var d := Date(l.year, l.month, c);
    assert DayNumber(d) == DayNumber(l) + k;
    LocalDateAt(v, host, d);
  }

  /** The month `setMonth(month)` targets, as a (year, 1-based month) pair. */
  function TargetMonth(year: int, month: int): (r: (int, int))
    ensures 1 <= r.1 <= 12
  {
    (year + month / 12, month % 12 + 1)
  }

  /** `setMonth(month)` lands on day number MakeDay(year, month, day) at the
      same local time of day. */
  lemma SetMonthDay(t: int, month: int, host: int)
    ensures var l := LocalDate(t, host);
      Day(SetMonthValue(t, month, host) + host) == MakeDay(l.year, month, l.day)
    ensures TimeWithinDay(SetMonthValue(t, month, host) + host) == TimeWithinDay(t + host)
  {
    var l := LocalDate(t, host);
    LocalOfMakeDate(MakeDay(l.year, month, l.day), TimeWithinDay(t + host), host);
  }

  /** When the day of month exists in the target month, `setMonth` lands on that
      day of the target month, at the same local time of day. */
  lemma SetMonthKeepsDay(t: int, month: int, host: int)
    requires var l := LocalDate(t, host);
      l.day <= DaysInMonth(TargetMonth(l.year, month).0, TargetMonth(l.year, month).1)
    ensures var l := LocalDate(t, host); var tm := TargetMonth(l.year, month);
      LocalDate(SetMonthValue(t, month, host), host) == Date(tm.0, tm.1, l.day)
    ensures TimeWithinDay(SetMonthValue(t, month, host) + host) == TimeWithinDay(t + host)
  {
    var l := LocalDate(t, host);
    var tm := TargetMonth(l.year, month);
    SetMonthDay(t, month, host);
    CivilAt(MakeDay(l.year, month, l.day), Date(tm.0, tm.1, l.day));
  }

  /** The month after (y, m). */
  function NextMonth(y: int, m: int): (r: (int, int))
    requires 1 <= m <= 12
    ensures 1 <= r.1 <= 12
  {
    if m < 12 then (y, m + 1) else (y + 1, 1)
  }

  /** Days past the end of a month count on into the next month. */
  lemma MonthOverflowNumber(y: int, m: int, day: int)
    requires 1 <= m <= 12
    ensures var nm := NextMonth(y, m);
      DayNumber(Date(y, m, day)) == DayNumber(Date(nm.0, nm.1, day - DaysInMonth(y, m)))
  {
    MonthsTile(y, m);
    if m == 12 {
      DayFromYearStep(y);
    }
  }

  /** When the day of month does not exist in the target month, `setMonth`
      overflows into the following month by the excess. */
  lemma SetMonthOverflow(t: int, month: int, host: int)
    requires var l := LocalDate(t, host);
      l.day > DaysInMonth(TargetMonth(l.year, month).0, TargetMonth(l.year, month).1)
    ensures var l := LocalDate(t, host); var tm := TargetMonth(l.year, month);
      var nm := NextMonth(tm.0, tm.1);
      LocalDate(SetMonthValue(t, month, host), host)
        == Date(nm.0, nm.1, l.day - DaysInMonth(tm.0, tm.1))
  {
    var l := LocalDate(t, host);
    var tm := TargetMonth(l.year, month);
    var nm := NextMonth(tm.0, tm.1);
    var excess := l.day - DaysInMonth(tm.0, tm.1);
    SetMonthDay(t, month, host);
    MonthOverflowNumber(tm.0, tm.1, l.day);
    assert 1 <= excess <= 3;
    CivilAt(MakeDay(l.year, month, l.day), Date(nm.0, nm.1, excess));
  }

  /** `new Date(year, month, date)` read back through the local getters. */
  lemma LocalPartsDate(year: int, month: int, date: int, host: int)
    ensures Day(LocalPartsValue(year, month, date, host) + host)
         == MakeDay(FullYearArg(year), month, date)
  {
    LocalOfMakeDate(MakeDay(FullYearArg(year), month, date), 0, host);
  }

  /** A JavaScript Date object: a mutable time value. */
  class JsDate {
    var time: int

    /** `new Date(t)` for a time value `t`. */
    constructor (t: int)
      ensures time == t
    {
      time := t;
    }

    /** `new Date(other)`: a copy holding the same time value. */
    constructor Copy(other: JsDate)
      ensures time == other.time
    {
      time := other.time;
    }

    /** `new Date(year, month, date)` on a host at offset `host`. */
    constructor FromLocalParts(year: int, month: int, date: int, host: int)
      ensures time == LocalPartsValue(year, month, date, host)
    {
      time := LocalPartsValue(year, month, date, host);
    }

    function GetFullYear(host: int): int
      reads this
    {
      LocalDate(time, host).year
    }

    function GetMonth(host: int): (m: int)
      reads this
      ensures 0 <= m <= 11
    {
      LocalDate(time, host).month - 1
    }

    function GetDate(host: int): (d: int)
      reads this
      ensures 1 <= d <= 31
    {
      LocalDate(time, host).day
    }

    function GetDay(host: int): (w: int)
      reads this
      ensures 0 <= w <= 6
    {
      WeekDay(Day(time + host))
    }

    method SetDate(date: int, host: int)
      modifies this
      ensures time == SetDateValue(old(time), date, host)
    {
      time := SetDateValue(time, date, host);
    }

    method SetMonth(month: int, host: int)
      modifies this
      ensures time == SetMonthValue(old(time), month, host)
    {
      time := SetMonthValue(time, month, host);
    }
  }
}
