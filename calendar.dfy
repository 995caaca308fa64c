/**
 * The proleptic Gregorian calendar as JavaScript's `Date` and the store's
 * DATE columns use it: dates with a 0-based month (0 = January, as
 * `getMonth()` returns it), day numbers counted from 1970-01-01, weekdays
 * (0 = Sunday, as `getDay()` returns it), the small day and month overflows
 * that `setDate`/`setMonth` normalise, and the `YYYY-MM-DD` text form.
 */
module Calendar {
  import opened Common

  datatype Date = Date(year: int, month: int, day: int)

  /** A (year, month) pair with a 0-based month. */
  datatype YearMonth = YearMonth(year: int, month: int)

  predicate IsLeap(y: int) {
    (y % 4 == 0 && y % 100 != 0) || y % 400 == 0
  }

  function DaysInMonth(y: int, m: int): (n: int)
    requires 0 <= m < 12
    ensures 28 <= n <= 31
  {
    if m == 1 then (if IsLeap(y) then 29 else 28)
    else if m == 3 || m == 5 || m == 8 || m == 10 then 30
    else 31
  }

  /** February has 29 days exactly in a leap year and 28 otherwise; every other month has 30 or 31. */
  lemma MonthLengths(y: int, m: int)
    requires 0 <= m < 12
    ensures m == 1 ==> (DaysInMonth(y, m) == 29 <==> IsLeap(y)) && DaysInMonth(y, m) <= 29
    ensures m != 1 ==> DaysInMonth(y, m) >= 30
  {
  }

  predicate ValidDate(d: Date) {
    0 <= d.month < 12 && 1 <= d.day <= DaysInMonth(d.year, d.month)
  }

  predicate ValidMonth(ym: YearMonth) {
    0 <= ym.month < 12
  }

  /** The month after `ym`, rolling December over into January of the next year. */
  function NextMonth(ym: YearMonth): (r: YearMonth)
    requires ValidMonth(ym)
    ensures ValidMonth(r)
  {
    if ym.month == 11 then YearMonth(ym.year + 1, 0) else YearMonth(ym.year, ym.month + 1)
  }

  /** The month before `ym`, rolling January back into December of the previous year. */
  function PrevMonth(ym: YearMonth): (r: YearMonth)
    requires ValidMonth(ym)
    ensures ValidMonth(r)
  {
    if ym.month == 0 then YearMonth(ym.year - 1, 11) else YearMonth(ym.year, ym.month - 1)
  }

  lemma NextPrevInverse(ym: YearMonth)
    requires ValidMonth(ym)
    ensures PrevMonth(NextMonth(ym)) == ym && NextMonth(PrevMonth(ym)) == ym
  {
  }

  function DaysBeforeMonth(y: int, m: int): int
    requires 0 <= m <= 12
    decreases m
  {
    if m == 0 then 0 else DaysBeforeMonth(y, m - 1) + DaysInMonth(y, m - 1)
  }

  /** Leap years strictly before year `y`, up to a constant. */
  function LeapsBefore(y: int): int {
    (y - 1) / 4 - (y - 1) / 100 + (y - 1) / 400
  }

  /** Day number of the first of January of year `y`. */
  function YearStart(y: int): int {
    365 * (y - 1970) + LeapsBefore(y) - LeapsBefore(1970)
  }

  /**
   * Day number (0 = 1970-01-01) of day `d` of month `m` of year `y`; like
   * JavaScript's Date constructor it accepts a day outside the month.
   */
  function DayNumber(y: int, m: int, d: int): int
    requires 0 <= m < 12
  {
    YearStart(y) + DaysBeforeMonth(y, m) + d - 1
  }

  function DayNumberOf(d: Date): int
    requires 0 <= d.month < 12
  {
    DayNumber(d.year, d.month, d.day)
  }

  /** Day of the week of a day number: 0 = Sunday ... 6 = Saturday; 1970-01-01 was a Thursday. */
  function Weekday(n: int): (w: int)
    ensures 0 <= w < 7
  {
    (n + 4) % 7
  }

  lemma WeekdayShift(n: int, k: int)
    requires k >= 0
    ensures Weekday(n + k) == (Weekday(n) + k) % 7
  {
  }

  lemma DivStep(y: int)
    ensures y / 4 - (y - 1) / 4 == (if y % 4 == 0 then 1 else 0)
    ensures y / 100 - (y - 1) / 100 == (if y % 100 == 0 then 1 else 0)
    ensures y / 400 - (y - 1) / 400 == (if y % 400 == 0 then 1 else 0)
  {
  }

  lemma YearLength(y: int)
    ensures DaysBeforeMonth(y, 12) == if IsLeap(y) then 366 else 365
    ensures YearStart(y + 1) == YearStart(y) + DaysBeforeMonth(y, 12)
  {
    assert DaysBeforeMonth(y, 1) == 31;
    assert DaysBeforeMonth(y, 2) == 31 + DaysInMonth(y, 1);
    assert DaysBeforeMonth(y, 3) == 62 + DaysInMonth(y, 1);
    assert DaysBeforeMonth(y, 4) == 92 + DaysInMonth(y, 1);
    assert DaysBeforeMonth(y, 5) == 123 + DaysInMonth(y, 1);
    assert DaysBeforeMonth(y, 6) == 153 + DaysInMonth(y, 1);
    assert DaysBeforeMonth(y, 7) == 184 + DaysInMonth(y, 1);
    assert DaysBeforeMonth(y, 8) == 215 + DaysInMonth(y, 1);
    assert DaysBeforeMonth(y, 9) == 245 + DaysInMonth(y, 1);
    assert DaysBeforeMonth(y, 10) == 276 + DaysInMonth(y, 1);
    assert DaysBeforeMonth(y, 11) == 306 + DaysInMonth(y, 1);
    DivStep(y);
  }

  /** The day after the last day of a month is the first day of the next month. */
  lemma MonthBoundary(ym: YearMonth)
    requires ValidMonth(ym)
    ensures DayNumber(ym.year, ym.month, DaysInMonth(ym.year, ym.month) + 1)
         == DayNumber(NextMonth(ym).year, NextMonth(ym).month, 1)
  {
    if ym.month == 11 {
      YearLength(ym.year);
    }
  }

  /**
   * JavaScript's normalisation of a day that runs at most four weeks past
   * either end of its month into a valid date of the neighbouring month.
   */
  function Normalize(y: int, m: int, d: int): (r: Date)
    requires 0 <= m < 12 && -27 <= d <= DaysInMonth(y, m) + 28
    ensures ValidDate(r)
    ensures DayNumberOf(r) == DayNumber(y, m, d)
  {
    if d < 1 then
      var p := PrevMonth(YearMonth(y, m));
      MonthBoundary(p);
      Date(p.year, p.month, d + DaysInMonth(p.year, p.month))
    else if d > DaysInMonth(y, m) then
      var n := NextMonth(YearMonth(y, m));
      MonthBoundary(YearMonth(y, m));
      Date(n.year, n.month, d - DaysInMonth(y, m))
    else
      Date(y, m, d)
  }

  /** `setDate(getDate() + k)` for a shift of at most four weeks. */
  function AddDays(d: Date, k: int): (r: Date)
    requires ValidDate(d) && -27 <= k <= 28
    ensures ValidDate(r)
    ensures DayNumberOf(r) == DayNumberOf(d) + k
  {
    Normalize(d.year, d.month, d.day + k)
  }

  /** Chronological order of dates (the store's `<` on DATE values). */
  predicate Before(a: Date, b: Date) {
    a.year < b.year || (a.year == b.year && (a.month < b.month || (a.month == b.month && a.day < b.day)))
  }

  // ---------------------------------------------------------------------
  // The `YYYY-MM-DD` text form
  // ---------------------------------------------------------------------

  function DigitChar(k: int): char
    requires 0 <= k < 10
  {
    ('0' as int + k) as char
  }

  predicate IsDigit(c: char) {
    '0' <= c <= '9'
  }

  function DigitOf(c: char): (k: nat)
    requires IsDigit(c)
    ensures k < 10
  {
    c as int - '0' as int
  }

  /** Decimal digits of a natural number, without leading zeros (`String(n)`). */
  function NatText(n: nat): (r: string)
    ensures |r| >= 1
    ensures forall i :: 0 <= i < |r| ==> IsDigit(r[i])
    decreases n
  {
    if n < 10 then [DigitChar(n)] else NatText(n / 10) + [DigitChar(n % 10)]
  }

  /** `String(n)` for any integer. */
  function IntText(n: int): string {
    if n < 0 then "-" + NatText(-n) else NatText(n)
  }

  /** `padStart(2, '0')`. */
  function PadStart2(s: string): string {
    if |s| < 2 then seq(2 - |s|, _ => '0') + s else s
  }

  /** The value of a string of decimal digits. */
  function DigitsValue(s: string): nat
    requires forall i :: 0 <= i < |s| ==> IsDigit(s[i])
    decreases |s|
  {
    if s == [] then 0
    else
      assert IsDigit(s[|s| - 1]);
      DigitsValue(s[..|s| - 1]) * 10 + DigitOf(s[|s| - 1])
  }

  /** A date as `YYYY-MM-DD` with a 1-based month, month and day padded to two digits. */
  function IsoText(d: Date): string {
    IntText(d.year) + "-" + PadStart2(IntText(d.month + 1)) + "-" + PadStart2(IntText(d.day))
  }

  /** Reads back a `YYYY-MM-DD` text with a four-digit year. */
  function ParseIso(s: string): Option<Date> {
    if |s| == 10 && s[4] == '-' && s[7] == '-'
       && (forall i :: 0 <= i < 4 ==> IsDigit(s[i]))
       && IsDigit(s[5]) && IsDigit(s[6]) && IsDigit(s[8]) && IsDigit(s[9])
    then
      Some(Date(DigitsValue(s[..4]), DigitsValue(s[5..7]) - 1, DigitsValue(s[8..10])))
    else
      None
  }

  lemma {:induction false} NatTextValue(n: nat)
    ensures DigitsValue(NatText(n)) == n
    decreases n
  {
    if n >= 10 {
      var t := NatText(n / 10) + [DigitChar(n % 10)];
      assert t[..|t| - 1] == NatText(n / 10);
      NatTextValue(n / 10);
    }
  }

  /** Reading one more digit multiplies what was read by ten and adds it. */
  lemma {:induction false} LeadingDigitsAppend(s: string, c: char, acc: nat)
    requires forall i :: 0 <= i < |s| ==> IsDigit(s[i])
    requires IsDigit(c)
    ensures LeadingDigits(s + [c], acc) == LeadingDigits(s, acc) * 10 + DigitOf(c)
    decreases |s|
  {
    if s != [] {
      assert (s + [c])[1..] == s[1..] + [c];
      LeadingDigitsAppend(s[1..], c, acc * 10 + (s[0] as int - '0' as int));
    }
  }

  /**
   * An integer sent as its decimal text (a form field built from a number)
   * reads back as the same integer through PHP's `intval`.
   */
  lemma {:induction false} IntvalOfIntText(n: int)
    ensures Intval(IntText(n)) == n
  {
    var m: nat := if n < 0 then -n else n;
    NatTextRead(m);
    var t := NatText(m);
    assert IsDigit(t[0]);
    if n < 0 {
      assert ("-" + t)[1..] == t;
    }
  }

  lemma {:induction false} NatTextRead(n: nat)
    ensures LeadingDigits(NatText(n), 0) == n
    decreases n
  {
    if n >= 10 {
      NatTextRead(n / 10);
      LeadingDigitsAppend(NatText(n / 10), DigitChar(n % 10), 0);
    }
  }

  lemma NatTextLength(n: nat)
    ensures n < 10 ==> |NatText(n)| == 1
    ensures 10 <= n < 100 ==> |NatText(n)| == 2
    ensures 100 <= n < 1000 ==> |NatText(n)| == 3
    ensures 1000 <= n < 10000 ==> |NatText(n)| == 4
  {
    if n >= 10 {
      NatTextLength(n / 10);
    }
  }

  lemma Pad2Text(k: int)
    requires 1 <= k <= 99
    ensures |PadStart2(IntText(k))| == 2
    ensures forall i :: 0 <= i < 2 ==> IsDigit(PadStart2(IntText(k))[i])
    ensures DigitsValue(PadStart2(IntText(k))) == k
  {
    NatTextLength(k);
    NatTextValue(k);
    var t := NatText(k);
    if k < 10 {
      var p := PadStart2(t);
      assert p == "0" + t;
      assert p[..1] == "0";
      assert p[..0] == [];
    }
  }

  /** Reading back the text of a date with a four-digit year gives the date. */
  lemma IsoRoundTrip(d: Date)
    requires ValidDate(d) && 1000 <= d.year <= 9999
    ensures |IsoText(d)| == 10
    ensures ParseIso(IsoText(d)) == Some(d)
  {
    var y := IntText(d.year);
    var m := PadStart2(IntText(d.month + 1));
    var dd := PadStart2(IntText(d.day));
    NatTextLength(d.year);
    NatTextValue(d.year);
    Pad2Text(d.month + 1);
    Pad2Text(d.day);
    var s := IsoText(d);
    assert s == y + "-" + m + "-" + dd;
    assert s[..4] == y;
    assert s[5..7] == m;
    assert s[8..10] == dd;
    assert s[5] == m[0] && s[6] == m[1] && s[8] == dd[0] && s[9] == dd[1];
  }

  /** Two dates with four-digit years have the same text exactly when they are equal. */
  lemma IsoInjective(a: Date, b: Date)
    requires ValidDate(a) && 1000 <= a.year <= 9999
    requires ValidDate(b) && 1000 <= b.year <= 9999
    ensures IsoText(a) == IsoText(b) <==> a == b
  {
    IsoRoundTrip(a);
    IsoRoundTrip(b);
  }
}
