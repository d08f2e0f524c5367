/** Month arithmetic on local dates: the first and last day of a month built
    with the Date constructor, and the two ways of stepping a Date by whole
    months, `setMonth` alone and `setDate(1)`/`setMonth`/`setDate` with the day
    held to the target month. */
module MonthSteps {
  import opened Calendar
  import opened EcmaDate

  /** `new Date(year, month, 1)` is the first of that month. */
  lemma MonthStartParts(year: int, month: int, host: int)
    requires 0 <= month <= 11
    ensures LocalDate(LocalPartsValue(year, month, 1, host), host)
         == Date(FullYearArg(year), month + 1, 1)
  {
    var y := FullYearArg(year);
    LocalPartsDate(year, month, 1, host);
    MakeDayInYear(y, month, 1);
    CivilAt(MakeDay(y, month, 1), Date(y, month + 1, 1));
  }

  /** `new Date(year, month + 1, 0)` is the last day of the month: day 0 of the
      next month steps back one day, from January of the next year in December. */
  lemma MonthEndParts(year: int, month: int, host: int)
    requires 0 <= month <= 11
    ensures var y := FullYearArg(year);
      LocalDate(LocalPartsValue(year, month + 1, 0, host), host)
        == Date(y, month + 1, DaysInMonth(y, month + 1))
  {
    var y := FullYearArg(year);
    var last := Date(y, month + 1, DaysInMonth(y, month + 1));
    LocalPartsDate(year, month + 1, 0, host);
    MonthsTile(y, month + 1);
    if month < 11 {
      MakeDayInYear(y, month + 1, 0);
    } else {
      assert (month + 1) / 12 == 1 && (month + 1) % 12 == 0;
      DayFromYearStep(y);
    }
    assert MakeDay(y, month + 1, 0) == DayNumber(last);
    CivilAt(MakeDay(y, month + 1, 0), last);
  }

  /** `changeMonth(dir)` as written: `setMonth(getMonth() + dir)` on a copy,
      keeping the day of the month even where the target month is shorter. */
  function WrittenChangeMonth(t: int, dir: int, host: int): int {
    SetMonthValue(t, LocalDate(t, host).month - 1 + dir, host)
  }

  /** Where the day exists in the target month, the written navigation moves
      the month index by `dir` and keeps the day and the time of day. */
  lemma WrittenChangeMonthKeepsDay(t: int, dir: int, host: int)
    requires var l := LocalDate(t, host); var tm := TargetMonth(l.year, l.month - 1 + dir);
      l.day <= DaysInMonth(tm.0, tm.1)
    ensures var l := LocalDate(t, host); var r := LocalDate(WrittenChangeMonth(t, dir, host), host);
      MonthIndex(r) == MonthIndex(l) + dir && r.day == l.day
    ensures TimeWithinDay(WrittenChangeMonth(t, dir, host) + host) == TimeWithinDay(t + host)
  {
    var l := LocalDate(t, host);
    var m := l.month - 1 + dir;
    var w := SetMonthValue(t, m, host);
    assert WrittenChangeMonth(t, dir, host) == w;
    var tm := TargetMonth(l.year, m);
    SetMonthKeepsDay(t, m, host);
    TargetMonthIndex(l.year, m);
    var r := LocalDate(w, host);
    assert r == Date(tm.0, tm.1, l.day);
  }

  /** Where the day does not exist in the target month, the written navigation
      overshoots into the month after it. */
  lemma WrittenChangeMonthOvershoots(t: int, dir: int, host: int)
    requires var l := LocalDate(t, host); var tm := TargetMonth(l.year, l.month - 1 + dir);
      l.day > DaysInMonth(tm.0, tm.1)
    ensures var l := LocalDate(t, host); var r := LocalDate(WrittenChangeMonth(t, dir, host), host);
      MonthIndex(r) == MonthIndex(l) + dir + 1
  {
    var l := LocalDate(t, host);
    var m := l.month - 1 + dir;
    var w := SetMonthValue(t, m, host);
    assert WrittenChangeMonth(t, dir, host) == w;
    var tm := TargetMonth(l.year, m);
    var nm := NextMonth(tm.0, tm.1);
    SetMonthOverflow(t, m, host);
    TargetMonthIndex(l.year, m);
    var r := LocalDate(w, host);
    assert r == Date(nm.0, nm.1, l.day - DaysInMonth(tm.0, tm.1));
  }

  /** 31 January 2024 at midnight UTC, on a UTC host: the next month is shown
      as March, because `setMonth(1)` keeps day 31 and February 2024 has 29. */
  lemma JanuaryThirtyFirstSkipsFebruary()
    ensures LocalDate(1706659200000, 0) == Date(2024, 1, 31)
    ensures LocalDate(WrittenChangeMonth(1706659200000, 1, 0), 0) == Date(2024, 3, 2)
  {
    var t := 1706659200000;
    JanuaryThirtyFirst();
    var w := SetMonthValue(t, 1, 0);
    assert WrittenChangeMonth(t, 1, 0) == w;
    SetMonthOverflow(t, 1, 0);
    assert TargetMonth(2024, 1) == (2024, 2);
    assert DaysInMonth(2024, 2) == 29;
    assert NextMonth(2024, 2) == (2024, 3);
  }

  /** The time value 1706659200000 is midnight UTC of 31 January 2024. */
  lemma JanuaryThirtyFirst()
    ensures LocalDate(1706659200000, 0) == Date(2024, 1, 31)
  {
    assert Day(1706659200000 + 0) == 19753;
    assert DayFromYear(2024) == 19723;
    LocalDateAt(1706659200000, 0, Date(2024, 1, 31));
  }

  /** A month's position on a single scale: twelve per year. */
  function MonthIndex(d: Date): int {
    12 * d.year + d.month - 1
  }

  /** `setMonth`'s target is `month` months after January of `year`. */
  lemma TargetMonthIndex(year: int, month: int)
    ensures var tm := TargetMonth(year, month); 12 * tm.0 + tm.1 - 1 == 12 * year + month
  {
  }

  /** The month navigation the page evidently intends: `n` months on, keeping
      the day of the month but holding it to the target month's last day. */
  function ShiftMonth(d: Date, n: int): (r: Date)
    requires Valid(d)
    ensures Valid(r)
    ensures MonthIndex(r) == MonthIndex(d) + n
    ensures r.day == if d.day <= DaysInMonth(r.year, r.month) then d.day else DaysInMonth(r.year, r.month)
  {
    var tm := TargetMonth(d.year, d.month - 1 + n);
    TargetMonthIndex(d.year, d.month - 1 + n);
    Date(tm.0, tm.1, HeldDay(tm.0, tm.1, d.day))
  }

  /** Moving `n` months and back again returns to the same date whenever the
      day existed in the month passed through. */
  lemma ShiftMonthRoundTrip(d: Date, n: int)
    requires Valid(d)
    requires d.day <= DaysInMonth(ShiftMonth(d, n).year, ShiftMonth(d, n).month)
    ensures ShiftMonth(ShiftMonth(d, n), -n) == d
  {
    var e := ShiftMonth(ShiftMonth(d, n), -n);
    assert MonthIndex(e) == MonthIndex(d);
    var q, r := (MonthIndex(d)) / 12, MonthIndex(d) % 12;
    assert e.year == d.year by {
      assert 12 * e.year + (e.month - 1) == 12 * d.year + (d.month - 1);
    }
  }

  /** The day `day` held to the length of month (y, m). */
  function HeldDay(y: int, m: int, day: int): (c: int)
    requires 1 <= m <= 12
    ensures c <= day && c <= DaysInMonth(y, m)
    ensures c == day || c == DaysInMonth(y, m)
  {
    if day <= DaysInMonth(y, m) then day else DaysInMonth(y, m)
  }

  /** `setDate` to day `day` held to the length of the Date's own month. */
  function SetHeldDateValue(x: int, day: int, host: int): int {
    var l := LocalDate(x, host);
    SetDateValue(x, HeldDay(l.year, l.month, day), host)
  }

  lemma SetHeldDate(x: int, day: int, host: int)
    requires 1 <= day
    ensures var l := LocalDate(x, host);
      LocalDate(SetHeldDateValue(x, day, host), host) == Date(l.year, l.month, HeldDay(l.year, l.month, day))
    ensures TimeWithinDay(SetHeldDateValue(x, day, host) + host) == TimeWithinDay(x + host)
  {
    var l := LocalDate(x, host);
    SetDateInMonth(x, HeldDay(l.year, l.month, day), host);
  }

  /** The time value the intended navigation leaves: `setDate(1)`, then
      `setMonth(getMonth() + dir)`, then `setDate` to the kept day held to the
      new month's length. */
  function ShiftMonthValue(t: int, dir: int, host: int): int {
    var l := LocalDate(t, host);
    SetHeldDateValue(SetMonthValue(SetDateValue(t, 1, host), l.month - 1 + dir, host), l.day, host)
  }

  /** The navigation's value, given the Date after its first two steps. */
  lemma ShiftMonthValueFrom(t: int, dir: int, host: int, first: int, month: int, moved: int)
    requires first == SetDateValue(t, 1, host)
    requires month == LocalDate(t, host).month - 1 + dir
    requires moved == SetMonthValue(first, month, host)
    ensures ShiftMonthValue(t, dir, host) == SetHeldDateValue(moved, LocalDate(t, host).day, host)
  {
  }

  /** From the 1st of a month, `setMonth(month)` and the held `setDate(day)`
      land on `day` of the target month, held to its length. */
  lemma MonthThenHeldDay(first: int, month: int, day: int, host: int)
    requires LocalDate(first, host).day == 1 && 1 <= day
    ensures var tm := TargetMonth(LocalDate(first, host).year, month);
      LocalDate(SetHeldDateValue(SetMonthValue(first, month, host), day, host), host)
        == Date(tm.0, tm.1, HeldDay(tm.0, tm.1, day))
    ensures TimeWithinDay(SetHeldDateValue(SetMonthValue(first, month, host), day, host) + host)
         == TimeWithinDay(first + host)
  {
    var moved := SetMonthValue(first, month, host);
    SetMonthKeepsDay(first, month, host);
    SetHeldDate(moved, day, host);
  }

  /** The intended navigation moves the local date by ShiftMonth and keeps the
      local time of day. */
  lemma ShiftMonthValueDate(t: int, dir: int, host: int)
    ensures LocalDate(ShiftMonthValue(t, dir, host), host) == ShiftMonth(LocalDate(t, host), dir)
    ensures TimeWithinDay(ShiftMonthValue(t, dir, host) + host) == TimeWithinDay(t + host)
  {
    var l := LocalDate(t, host);
    var first := SetDateValue(t, 1, host);
    SetDateInMonth(t, 1, host);
    var month := l.month - 1 + dir;
    MonthThenHeldDay(first, month, l.day, host);
    ShiftMonthValueFrom(t, dir, host, first, month, SetMonthValue(first, month, host));
  }

  /** The navigation on the month the page shows: the held-day step applied
      to the wall clock 5h30 later, which is the date the month range reads,
      and then taken back by the same 5h30. */
  function IstShiftMonthValue(t: int, dir: int, host: int): int {
    ShiftMonthValue(t + IstOffsetMs, dir, host) - IstOffsetMs
  }

  /** The step taken on a Date already holding the IST wall clock, read back. */
  lemma IstShiftFromShown(t: int, shown: int, dir: int, host: int)
    requires shown == ShiftMonthValue(t + IstOffsetMs, dir, host)
    ensures shown - IstOffsetMs == IstShiftMonthValue(t, dir, host)
  {
  }

  /** The shown date moves by `ShiftMonth`, so the shown month moves by
      exactly `dir` whatever the time of day. */
  lemma IstShiftMonthValueDate(t: int, dir: int, host: int)
    ensures LocalDate(IstShiftMonthValue(t, dir, host) + IstOffsetMs, host)
         == ShiftMonth(LocalDate(t + IstOffsetMs, host), dir)
    ensures MonthIndex(LocalDate(IstShiftMonthValue(t, dir, host) + IstOffsetMs, host))
         == MonthIndex(LocalDate(t + IstOffsetMs, host)) + dir
  {
    ShiftMonthValueDate(t + IstOffsetMs, dir, host);
    assert IstShiftMonthValue(t, dir, host) + IstOffsetMs == ShiftMonthValue(t + IstOffsetMs, dir, host);
  }
}
