/** Proleptic Gregorian civil dates and their day numbers (days since 1970-01-01),
    as the ECMAScript Date built-ins compute them (DayFromYear, MonthFromTime,
    DateFromTime and WeekDay in section 21.4.1 of ECMA-262). */
module Calendar {

  /** A civil date; `month` runs 1..12 (ECMAScript's month index plus one). */
  datatype Date = Date(year: int, month: int, day: int)

  predicate IsLeapYear(y: int) {
    y % 4 == 0 && (y % 100 != 0 || y % 400 == 0)
  }

  function DaysInYear(y: int): (n: int)
    ensures n == 365 || n == 366
    ensures n == 366 <==> IsLeapYear(y)
  {
    if IsLeapYear(y) then 366 else 365
  }

  function DaysInMonth(y: int, m: int): (n: int)
    requires 1 <= m <= 12
    ensures 28 <= n <= 31
    ensures m == 2 ==> (n == 29 <==> IsLeapYear(y))
    ensures m != 2 ==> (n == 30 <==> m in {4, 6, 9, 11})
  {
    if m == 2 then (if IsLeapYear(y) then 29 else 28)
    else if m == 4 || m == 6 || m == 9 || m == 11 then 30
    else 31
  }

  /** Every month's length: 28 or 29 for February as the year is common or
      leap, 30 for April, June, September and November, 31 for the rest. */
  lemma MonthLengths(y: int, m: int)
    requires 1 <= m <= 12
    ensures m == 2 && IsLeapYear(y) ==> DaysInMonth(y, m) == 29
    ensures m == 2 && !IsLeapYear(y) ==> DaysInMonth(y, m) == 28
    ensures m == 4 || m == 6 || m == 9 || m == 11 ==> DaysInMonth(y, m) == 30
    ensures m == 1 || m == 3 || m == 5 || m == 7 || m == 8 || m == 10 || m == 12 ==> DaysInMonth(y, m) == 31
  {
  }

  predicate Valid(d: Date) {
    1 <= d.month <= 12 && 1 <= d.day <= DaysInMonth(d.year, d.month)
  }

  /** Number of days of year `y` before the first of month `m`. */
  function DaysBeforeMonth(y: int, m: int): int
    requires 1 <= m <= 12
  {
    var common :=
      if m == 1 then 0 else if m == 2 then 31 else if m == 3 then 59
      else if m == 4 then 90 else if m == 5 then 120 else if m == 6 then 151
      else if m == 7 then 181 else if m == 8 then 212 else if m == 9 then 243
      else if m == 10 then 273 else if m == 11 then 304 else 334;
    if m > 2 && IsLeapYear(y) then common + 1 else common
  }

  lemma MonthsTile(y: int, m: int)
    requires 1 <= m <= 12
    ensures m < 12 ==> DaysBeforeMonth(y, m) + DaysInMonth(y, m) == DaysBeforeMonth(y, m + 1)
    ensures m == 12 ==> DaysBeforeMonth(y, m) + DaysInMonth(y, m) == DaysInYear(y)
  {
  }

  /** ECMAScript's DayFromYear: the day number of January 1 of year `y`. */
  function DayFromYear(y: int): int {
    365 * (y - 1970) + (y - 1969) / 4 - (y - 1901) / 100 + (y - 1601) / 400
  }

  /** The day number of `d`; the day-of-month may lie outside the month, which is
      how ECMAScript's MakeDay normalises overflowing dates. */
  function DayNumber(d: Date): int
    requires 1 <= d.month <= 12
  {
    DayFromYear(d.year) + DaysBeforeMonth(d.year, d.month) + d.day - 1
  }

  // The three leap-rule terms of DayFromYear step up exactly at multiples of 4, 100, 400.
  lemma StepAt4(y: int)
    ensures (y - 1968) / 4 - (y - 1969) / 4 == if y % 4 == 0 then 1 else 0
  {
    var q, r := y / 4, y % 4;
    if r == 0 {
      assert y - 1969 == 4 * (q - 493) + 3;
      assert y - 1968 == 4 * (q - 492);
    } else {
      assert y - 1969 == 4 * (q - 492) + (r - 1);
      assert y - 1968 == 4 * (q - 492) + r;
    }
  }

  lemma StepAt100(y: int)
    ensures (y - 1900) / 100 - (y - 1901) / 100 == if y % 100 == 0 then 1 else 0
  {
    var q, r := y / 100, y % 100;
    if r == 0 {
      assert y - 1901 == 100 * (q - 20) + 99;
      assert y - 1900 == 100 * (q - 19);
    } else {
      assert y - 1901 == 100 * (q - 19) + (r - 1);
      assert y - 1900 == 100 * (q - 19) + r;
    }
  }

  lemma StepAt400(y: int)
    ensures (y - 1600) / 400 - (y - 1601) / 400 == if y % 400 == 0 then 1 else 0
  {
    var q, r := y / 400, y % 400;
    if r == 0 {
      assert y - 1601 == 400 * (q - 5) + 399;
      assert y - 1600 == 400 * (q - 4);
    } else {
      assert y - 1601 == 400 * (q - 4) + (r - 1);
      assert y - 1600 == 400 * (q - 4) + r;
    }
  }

  /** Consecutive years abut: year `y` has exactly DaysInYear(y) days. */
  lemma DayFromYearStep(y: int)
    ensures DayFromYear(y + 1) == DayFromYear(y) + DaysInYear(y)
  {
    StepAt4(y);
    StepAt100(y);
    StepAt400(y);
    DivisorsNest(y);
    assert DayFromYear(y + 1) - DayFromYear(y)
        == 365 + ((y - 1968) / 4 - (y - 1969) / 4) - ((y - 1900) / 100 - (y - 1901) / 100)
           + ((y - 1600) / 400 - (y - 1601) / 400);
  }

  /** A multiple of 400 is a multiple of 100, which is a multiple of 4. */
  lemma DivisorsNest(y: int)
    ensures y % 400 == 0 ==> y % 100 == 0
    ensures y % 100 == 0 ==> y % 4 == 0
  {
    if y % 400 == 0 {
      var k := 4 * (y / 400);
      MultipleRemainder(k, 100);
      assert y == 100 * k;
    }
    if y % 100 == 0 {
      var k := 25 * (y / 100);
      MultipleRemainder(k, 4);
      assert y == 4 * k;
    }
  }

  lemma MultipleRemainder(k: int, n: int)
    requires n == 4 || n == 100
    ensures (n * k) % n == 0
  {
  }

  lemma {:induction false} DayFromYearMonotone(y1: int, y2: int)
    requires y1 < y2
    ensures DayFromYear(y1) + DaysInYear(y1) <= DayFromYear(y2)
    decreases y2 - y1
  {
    DayFromYearStep(y1);
    if y1 + 1 < y2 {
      DayFromYearMonotone(y1 + 1, y2);
    }
  }

  /** January 1 of year 400*era + 100*c + 4*q + r + 1, counted from 0001-01-01. */
  lemma DayFromYearCycles(era: int, c: int, q: int, r: int)
    requires 0 <= c <= 3 && 0 <= q <= 24 && 0 <= r <= 3
    ensures DayFromYear(400 * era + 100 * c + 4 * q + r + 1)
         == DayFromYear(1) + 146097 * era + 36524 * c + 1461 * q + 365 * r
  {
    var y := 400 * era + 100 * c + 4 * q + r + 1;
    assert DayFromYear(1) == -719162;
    assert y - 1969 == 4 * (100 * era + 25 * c + q - 492) + r;
    assert (y - 1969) / 4 == 100 * era + 25 * c + q - 492;
    assert y - 1901 == 100 * (4 * era + c - 19) + (4 * q + r);
    assert (y - 1901) / 100 == 4 * era + c - 19;
    assert y - 1601 == 400 * (era - 4) + (100 * c + 4 * q + r);
    assert (y - 1601) / 400 == era - 4;
  }

  /** The month holding day-of-year `doy`, searching upwards from month `m`. */
  function MonthFrom(y: int, doy: int, m: int): (r: int)
    requires 1 <= m <= 12
    requires DaysBeforeMonth(y, m) <= doy < DaysInYear(y)
    ensures m <= r <= 12
    ensures DaysBeforeMonth(y, r) <= doy < DaysBeforeMonth(y, r) + DaysInMonth(y, r)
    decreases 12 - m
  {
    MonthsTile(y, m);
    if m == 12 || doy < DaysBeforeMonth(y, m + 1) then m else MonthFrom(y, doy, m + 1)
  }

  /** A day count from 0001-01-01 split into 400-year eras, centuries of the
      era, four-year cycles of the century, years of the cycle and a day of
      that year. */
  datatype YearSplit = YearSplit(era: int, c: int, q: int, r: int, doy: int)

  /** The year a split lands in. */
  function SplitYear(p: YearSplit): int {
    400 * p.era + 100 * p.c + 4 * p.q + p.r + 1
  }

  /** A year that closes a four-year cycle is a leap year unless it closes a
      century that does not close an era. */
  lemma CycleEndIsLeap(era: int, c: int, q: int)
    requires 0 <= c <= 3 && 0 <= q <= 24
    requires q == 24 ==> c == 3
    ensures IsLeapYear(400 * era + 100 * c + 4 * q + 4)
  {
    var y := 400 * era + 100 * c + 4 * q + 4;
    if q == 24 {
      assert y == 400 * (era + 1);
    } else {
      assert y == 4 * (100 * era + 25 * c + q + 1);
      assert y == 100 * (4 * era + c) + (4 * q + 4);
      assert y % 100 == 4 * q + 4;
    }
  }

  function SplitDays(n: int): (p: YearSplit)
    ensures n == 146097 * p.era + 36524 * p.c + 1461 * p.q + 365 * p.r + p.doy
    ensures 0 <= p.c <= 3 && 0 <= p.q <= 24 && 0 <= p.r <= 3
    ensures 0 <= p.doy < DaysInYear(SplitYear(p))
  {
    var era := n / 146097;
    var doe := n % 146097;
    var c := if doe / 36524 < 3 then doe / 36524 else 3;
    var doc := doe - 36524 * c;
    assert 0 <= doc <= 36524;
    assert c < 3 ==> doc < 36524;
    var q := doc / 1461;
    var doq := doc % 1461;
    var r := if doq / 365 < 3 then doq / 365 else 3;
    var doy := doq - 365 * r;
    assert 0 <= q <= 24 && 0 <= doy <= 365;
    assert doy == 365 ==> q < 24 || c == 3;
    if doy == 365 then
      CycleEndIsLeap(era, c, q);
      YearSplit(era, c, q, r, doy)
    else
      YearSplit(era, c, q, r, doy)
  }

  /** The date counted out from day number `z` by eras, centuries, four-year
      cycles, years and months. */
  function CountedDate(z: int): (d: Date)
    ensures Valid(d)
    ensures DayNumber(d) == z
  {
    var p := SplitDays(z - DayFromYear(1));
    var y := SplitYear(p);
    DayFromYearCycles(p.era, p.c, p.q, p.r);
    var m := MonthFrom(y, p.doy, 1);
    Date(y, m, p.doy - DaysBeforeMonth(y, m) + 1)
  }

  /** Day numbers of valid dates are distinct. */
  lemma DayNumberInjective(a: Date, b: Date)
    requires Valid(a) && Valid(b)
    requires DayNumber(a) == DayNumber(b)
    ensures a == b
  {
    MonthsTile(a.year, 12);
    MonthsTile(b.year, 12);
    if a.year < b.year {
      DayFromYearMonotone(a.year, b.year);
      assert false;
    } else if b.year < a.year {
      DayFromYearMonotone(b.year, a.year);
      assert false;
    }
  }

  lemma DayNumbersDistinct()
    ensures forall a: Date, b: Date :: Valid(a) && Valid(b) && DayNumber(a) == DayNumber(b) ==> a == b
  {
    forall a: Date, b: Date | Valid(a) && Valid(b) && DayNumber(a) == DayNumber(b)
      ensures a == b
    {
      DayNumberInjective(a, b);
    }
  }

  lemma CivilExists(z: int)
    ensures exists d :: Valid(d) && DayNumber(d) == z
  {
    var d := CountedDate(z);
  }

  /** The civil date of day number `z` (ECMAScript's YearFromTime,
      MonthFromTime and DateFromTime): the one valid date with that number. */
  function CivilFromDays(z: int): (d: Date)
    ensures Valid(d)
    ensures DayNumber(d) == z
  {
    CivilExists(z);
    DayNumbersDistinct();
    var d :| Valid(d) && DayNumber(d) == z;
    d
  }

  /** CivilFromDays inverts DayNumber on valid dates. */
  lemma CivilOfDayNumber(d: Date)
    requires Valid(d)
    ensures CivilFromDays(DayNumber(d)) == d
  {
    DayNumberInjective(CivilFromDays(DayNumber(d)), d);
  }

  /** The only valid date with day number `z` is CivilFromDays(z). */
  lemma CivilAt(z: int, d: Date)
    requires Valid(d) && DayNumber(d) == z
    ensures CivilFromDays(z) == d
  {
    CivilOfDayNumber(d);
  }

  /** Two day numbers give the same civil date exactly when they are equal. */
  lemma CivilFromDaysInjective(z1: int, z2: int)
    ensures CivilFromDays(z1) == CivilFromDays(z2) <==> z1 == z2
  {
  }

  /** The calendar date that follows `d`. */
  function NextDate(d: Date): (n: Date)
    requires Valid(d)
    ensures Valid(n)
  {
    if d.day < DaysInMonth(d.year, d.month) then Date(d.year, d.month, d.day + 1)
    else if d.month < 12 then Date(d.year, d.month + 1, 1)
    else Date(d.year + 1, 1, 1)
  }

  lemma NextDateNumber(d: Date)
    requires Valid(d)
    ensures DayNumber(NextDate(d)) == DayNumber(d) + 1
  {
    MonthsTile(d.year, d.month);
    if d.day == DaysInMonth(d.year, d.month) && d.month == 12 {
      DayFromYearStep(d.year);
    }
  }

  /** One day later is the next calendar date, across month and year ends. */
  lemma NextDay(z: int)
    ensures CivilFromDays(z + 1) == NextDate(CivilFromDays(z))
  {
    var d := CivilFromDays(z);
    NextDateNumber(d);
    CivilAt(z + 1, NextDate(d));
  }

  /** ECMAScript's WeekDay: 0 is Sunday; day 0 (1970-01-01) was a Thursday. */
  function WeekDay(z: int): (w: int)
    ensures 0 <= w <= 6
  {
    (z + 4) % 7
  }

  lemma WeekDayPeriodic(z: int, k: int)
    ensures WeekDay(z + 7 * k) == WeekDay(z)
  {
    var q, r := (z + 4) / 7, (z + 4) % 7;
    assert z + 7 * k + 4 == 7 * (q + k) + r;
  }
}
