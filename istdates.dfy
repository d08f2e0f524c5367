/** The date the pages ask the backend for "today" and for a chosen day: the
    calendar date in India Standard Time (UTC+5:30, no daylight saving), as a
    `YYYY-MM-DD` string. */
module IstDates {
  import opened Calendar
  import opened DateText
  import opened EcmaDate

  /** The IST calendar date of time value `t`: the UTC date of the instant
      5h30 later. */
  function IstDate(t: int): (d: Date)
    ensures Valid(d) && DayNumber(d) == Day(t + IstOffsetMs)
  {
    CivilFromDays(Day(t + IstOffsetMs))
  }

  /** The date the page requests: `toISOString().slice(0, 10)` of the instant
      5h30 later, which reads the UTC fields and so does not depend on the
      host's zone.  For years 0..9999 it is `YYYY-MM-DD` of the IST date. */
  function IstDateKey(t: int): (s: string)
    ensures |s| == 10
    ensures 0 <= IstDate(t).year <= 9999 ==> DateLayout(s, IstDate(t))
  {
    var d := IstDate(t);
    if 0 <= d.year <= 9999 then IsoDateKeyLayout(d); IsoDateKey(d) else IsoDateKey(d)
  }

  /** Two instants request the same date exactly when they share an IST day. */
  lemma IstDateKeySameDay(t1: int, t2: int)
    requires 0 <= IstDate(t1).year <= 9999 && 0 <= IstDate(t2).year <= 9999
    ensures IstDateKey(t1) == IstDateKey(t2) <==> Day(t1 + IstOffsetMs) == Day(t2 + IstOffsetMs)
  {
    IsoDateKeyInjective(IstDate(t1), IstDate(t2));
    CivilFromDaysInjective(Day(t1 + IstOffsetMs), Day(t2 + IstOffsetMs));
  }

  /** One day later requests the next calendar date, across month and year ends. */
  lemma IstDateNextDay(t: int)
    ensures IstDate(t + 86400000) == NextDate(IstDate(t))
  {
    var z := Day(t + IstOffsetMs);
    assert Day(t + 86400000 + IstOffsetMs) == z + 1 by {
      DayShift(t + IstOffsetMs, 1);
      assert t + 86400000 + IstOffsetMs == t + IstOffsetMs + 1 * 86400000;
    }
    assert IstDate(t + 86400000) == CivilFromDays(z + 1);
    assert IstDate(t) == CivilFromDays(z);
    NextDay(z);
  }

  /** For four-digit years the requested date is the string the weekly and
      monthly pages build for the same instant on a UTC host. */
  lemma IstDateKeyIsLocalYmd(t: int)
    requires 1000 <= IstDate(t).year <= 9999
    ensures IstDateKey(t) == Ymd(LocalDate(t + IstOffsetMs, 0))
  {
    IsoDateKeyIsYmd(IstDate(t));
  }
}
