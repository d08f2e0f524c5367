/** Decimal rendering of numbers and dates: JavaScript's `String(n)`,
    `padStart(2, "0")`, the `YYYY-MM-DD` template used by the report pages, and the
    date part of `Date.prototype.toISOString` (calendar-date extended format of
    ISO 8601, with the expanded six-digit years of ECMA-262 outside 0..9999). */
module DateText {
  import opened Calendar

  predicate IsDigit(c: char) {
    '0' <= c <= '9'
  }

  predicate AllDigits(s: string) {
    forall i :: 0 <= i < |s| ==> IsDigit(s[i])
  }

  function DigitChar(n: int): (c: char)
    requires 0 <= n <= 9
    ensures IsDigit(c)
  {
    ('0' as int + n) as char
  }

  /** Decimal digits of `n` without leading zeros, as `String(n)` gives them. */
  function Digits(n: nat): (s: string)
    ensures |s| >= 1 && AllDigits(s)
    ensures n < 10 <==> |s| == 1
  {
    if n < 10 then [DigitChar(n)] else Digits(n / 10) + [DigitChar(n % 10)]
  }

  /** The number a string of decimal digits denotes. */
  function DigitsValue(s: string): nat
    requires AllDigits(s)
  {
    if s == [] then 0
    else DigitsValue(s[..|s| - 1]) * 10 + (s[|s| - 1] as int - '0' as int)
  }

  /** Reading the digits back gives the number. */
  lemma {:induction false} DigitsRoundTrip(n: nat)
    ensures DigitsValue(Digits(n)) == n
  {
    if n >= 10 {
      var s := Digits(n);
      assert s[..|s| - 1] == Digits(n / 10);
      DigitsRoundTrip(n / 10);
    }
  }

  lemma {:induction false} DigitsLength(n: nat)
    ensures n < 100 ==> |Digits(n)| <= 2
    ensures 1000 <= n <= 9999 ==> |Digits(n)| == 4
    ensures n <= 9999 ==> |Digits(n)| <= 4
  {
    if n >= 10 {
      DigitsLength(n / 10);
    }
  }

  /** `s.padStart(width, fill)`. */
  function PadStart(s: string, width: nat, fill: char): (r: string)
    ensures |r| == if |s| >= width then |s| else width
    ensures r[|r| - |s|..] == s
    ensures forall i :: 0 <= i < |r| - |s| ==> r[i] == fill
  {
    if |s| >= width then s else seq(width - |s|, _ => fill) + s
  }

  /** Leading zeros do not change the value. */
  lemma {:induction false} ZeroPaddedValue(s: string, width: nat)
    requires AllDigits(s)
    ensures AllDigits(PadStart(s, width, '0'))
    ensures DigitsValue(PadStart(s, width, '0')) == DigitsValue(s)
    decreases |s|
  {
    var r := PadStart(s, width, '0');
    if |s| >= width {
    } else if s == [] {
      ZerosValue(r);
    } else {
      var s' := s[..|s| - 1];
      var w' := width - 1;
      assert r[..|r| - 1] == PadStart(s', w', '0');
      ZeroPaddedValue(s', w');
    }
  }

  lemma {:induction false} ZerosValue(z: string)
    requires forall i :: 0 <= i < |z| ==> z[i] == '0'
    ensures AllDigits(z) && DigitsValue(z) == 0
    decreases |z|
  {
    if z != [] {
      ZerosValue(z[..|z| - 1]);
    }
  }

  /** A month or day of month as two digits. */
  function Pad2(n: nat): (s: string)
    requires n < 100
    ensures |s| == 2 && AllDigits(s) && DigitsValue(s) == n
  {
    DigitsLength(n);
    DigitsRoundTrip(n);
    ZeroPaddedValue(Digits(n), 2);
    PadStart(Digits(n), 2, '0')
  }

  /** A year as template literals render `getFullYear()`: no padding, a minus
      sign for years before year 0. */
  function YearText(y: int): string {
    if y < 0 then "-" + Digits(-y) else Digits(y)
  }

  /** The `${year}-${month}-${day}` string with zero-padded month and day. */
  function Ymd(d: Date): string
    requires Valid(d)
  {
    YearText(d.year) + "-" + Pad2(d.month) + "-" + Pad2(d.day)
  }

  /** The year field of `toISOString`: four digits for years 0..9999, otherwise a
      sign and at least six digits. */
  function IsoYear(y: int): (s: string)
    ensures |s| >= 4
  {
    if 0 <= y <= 9999 then PadStart(Digits(y), 4, '0')
    else (if y < 0 then "-" else "+") + PadStart(Digits(if y < 0 then -y else y), 6, '0')
  }

  /** `toISOString().slice(0, 10)` for a time value whose UTC date is `d`.  The
      date part is at least ten characters long, so the time-of-day part that
      follows it in the full string never reaches the slice. */
  function IsoDateKey(d: Date): (s: string)
    requires Valid(d)
    ensures |s| == 10
  {
    var full := IsoYear(d.year) + "-" + Pad2(d.month) + "-" + Pad2(d.day);
    full[..10]
  }

  /** The layout of `YYYY-MM-DD` built from a four-digit year field. */
  predicate DateLayout(s: string, d: Date) {
    |s| == 10 && s[4] == '-' && s[7] == '-'
    && AllDigits(s[..4]) && AllDigits(s[5..7]) && AllDigits(s[8..])
    && DigitsValue(s[..4]) == d.year
    && DigitsValue(s[5..7]) == d.month
    && DigitsValue(s[8..]) == d.day
  }

  /** Where the pieces of `yt-mm-dd` sit in the joined string. */
  lemma JoinedParts(yt: string, mm: string, dd: string)
    requires |yt| == 4 && |mm| == 2 && |dd| == 2
    ensures var s := yt + "-" + mm + "-" + dd;
      |s| == 10 && s[..4] == yt && s[4] == '-' && s[5..7] == mm && s[7] == '-' && s[8..] == dd
  {
    var s := yt + "-" + mm + "-" + dd;
    assert s[..4] == yt;
    assert s[5..7] == mm;
    assert s[8..] == dd;
  }

  lemma FourDigitYearLayout(yt: string, d: Date)
    requires Valid(d) && |yt| == 4 && AllDigits(yt) && DigitsValue(yt) == d.year
    ensures DateLayout(yt + "-" + Pad2(d.month) + "-" + Pad2(d.day), d)
  {
    var mm, dd := Pad2(d.month), Pad2(d.day);
    JoinedParts(yt, mm, dd);
  }

  /** For four-digit years, Ymd is exactly `YYYY-MM-DD` and can be read back. */
  lemma YmdLayout(d: Date)
    requires Valid(d) && 1000 <= d.year <= 9999
    ensures DateLayout(Ymd(d), d)
  {
    DigitsLength(d.year);
    DigitsRoundTrip(d.year);
    FourDigitYearLayout(Digits(d.year), d);
  }

  /** Each of two Ymd strings is laid out as its date when its year has four digits. */
  lemma PairLayout(a: Date, b: Date)
    requires Valid(a) && Valid(b)
    ensures 1000 <= a.year <= 9999 ==> DateLayout(Ymd(a), a)
    ensures 1000 <= b.year <= 9999 ==> DateLayout(Ymd(b), b)
  {
    if 1000 <= a.year <= 9999 {
      YmdLayout(a);
    }
    if 1000 <= b.year <= 9999 {
      YmdLayout(b);
    }
  }

  /** Dates of the same year and month have Ymd strings with the same
      first seven characters. */
  lemma SharedMonthPrefix(a: Date, b: Date)
    requires Valid(a) && Valid(b) && a.year == b.year && a.month == b.month
    requires 1000 <= a.year <= 9999
    ensures |Ymd(a)| == |Ymd(b)| == 10 && Ymd(a)[..7] == Ymd(b)[..7]
  {
    DigitsLength(a.year);
    var p := YearText(a.year) + "-" + Pad2(a.month);
    PrefixOfJoined(p, "-", Pad2(a.day));
    PrefixOfJoined(p, "-", Pad2(b.day));
  }

  lemma PrefixOfJoined(p: string, q: string, r: string)
    ensures |p + q + r| == |p| + |q| + |r| && (p + q + r)[..|p|] == p
  {
    assert (p + q + r)[..|p|] == p;
  }

  /** The year field of `toISOString` for years 0..9999: four digits. */
  lemma IsoYearFourDigits(y: int)
    requires 0 <= y <= 9999
    ensures |IsoYear(y)| == 4 && AllDigits(IsoYear(y)) && DigitsValue(IsoYear(y)) == y
    ensures 1000 <= y ==> IsoYear(y) == Digits(y)
  {
    DigitsLength(y);
    DigitsRoundTrip(y);
    ZeroPaddedValue(Digits(y), 4);
  }

  /** For years 0..9999 the ISO key is `YYYY-MM-DD` and can be read back. */
  lemma IsoDateKeyLayout(d: Date)
    requires Valid(d) && 0 <= d.year <= 9999
    ensures DateLayout(IsoDateKey(d), d)
  {
    IsoYearFourDigits(d.year);
    var s := IsoYear(d.year) + "-" + Pad2(d.month) + "-" + Pad2(d.day);
    FourDigitYearLayout(IsoYear(d.year), d);
    TakeAll(s);
    assert IsoDateKey(d) == s[..10];
  }

  /** For four-digit years the ISO key and the template string agree. */
  lemma IsoDateKeyIsYmd(d: Date)
    requires Valid(d) && 1000 <= d.year <= 9999
    ensures IsoDateKey(d) == Ymd(d)
  {
    IsoYearFourDigits(d.year);
    assert YearText(d.year) == IsoYear(d.year);
    var s := IsoYear(d.year) + "-" + Pad2(d.month) + "-" + Pad2(d.day);
    assert Ymd(d) == s;
    TakeAll(s);
    assert IsoDateKey(d) == s[..10];
  }

  lemma TakeAll(s: string)
    ensures s[..|s|] == s
  {
  }

  /** A string laid out as a date determines the date. */
  lemma LayoutDetermines(s: string, a: Date, b: Date)
    requires DateLayout(s, a) && DateLayout(s, b)
    ensures a == b
  {
  }

  /** Four-digit-year dates and their Ymd strings correspond one to one. */
  lemma YmdInjective(a: Date, b: Date)
    requires Valid(a) && Valid(b) && 1000 <= a.year <= 9999 && 1000 <= b.year <= 9999
    ensures Ymd(a) == Ymd(b) <==> a == b
  {
    YmdLayout(a);
    YmdLayout(b);
  }

  /** Dates of years 0..9999 and their ISO keys correspond one to one. */
  lemma IsoDateKeyInjective(a: Date, b: Date)
    requires Valid(a) && Valid(b) && 0 <= a.year <= 9999 && 0 <= b.year <= 9999
    ensures IsoDateKey(a) == IsoDateKey(b) <==> a == b
  {
    IsoDateKeyLayout(a);
    IsoDateKeyLayout(b);
  }
}
