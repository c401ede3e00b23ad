/** Calendar dates as the dashboard uses them: a record's occurrence date, the
    first-of-month key of the trend chart, and their text form `YYYY-MM-DD`.
    A date is a (year, month, day) triple with the month counted from 1, as
    `getMonth() + 1` gives it; time instants are counted in the proleptic
    Gregorian calendar from 1970-01-01. */
module Dates {
  import opened Seqs
  import opened Text

  datatype Date = Date(year: int, month: int, day: int)

  /** The default bounds of the date pickers. */
  const DATE_MIN: CalendarDate := Date(2014, 1, 1)
  const DATE_MAX: CalendarDate := Date(2020, 12, 31)

  const MS_PER_DAY := 86400000

  predicate IsLeap(y: int) { y % 4 == 0 && (y % 100 != 0 || y % 400 == 0) }

  function DaysInYear(y: int): nat { if IsLeap(y) then 366 else 365 }

  function DaysInMonth(y: int, m: int): nat
    requires 1 <= m <= 12
  {
    if m == 2 then (if IsLeap(y) then 29 else 28)
    else if m == 4 || m == 6 || m == 9 || m == 11 then 30
    else 31
  }

  /** A real calendar day: what a successful `parseDate` produces. */
  predicate Valid(d: Date)
  {
    1 <= d.month <= 12 && 1 <= d.day <= DaysInMonth(d.year, d.month)
  }

  /** A date that a successful `parseDate` can produce. */
  type CalendarDate = d: Date | Valid(d) witness Date(1970, 1, 1)

  /** Days from 1970-01-01 to January 1st of year `y`. */
  function DaysBeforeYear(y: int): int
  {
    365 * (y - 1970) + (y - 1) / 4 - (y - 1) / 100 + (y - 1) / 400 - 477
  }

  /** Days from January 1st to the first day of month `m` of year `y`. */
  function DaysBeforeMonth(y: int, m: int): nat
    requires 1 <= m <= 12
  {
    [0, 31, 59, 90, 120, 151, 181, 212, 243, 273, 304, 334][m - 1] + (if m > 2 && IsLeap(y) then 1 else 0)
  }

  /** The day ordinal of a date, 0 for 1970-01-01. */
  function DayNumber(d: Date): int
    requires Valid(d)
  {
    DaysBeforeYear(d.year) + DaysBeforeMonth(d.year, d.month) + d.day - 1
  }

  /** `getTime()` of the date at midnight (UTC; the local offset is not modelled). */
  function Millis(d: Date): int
    requires Valid(d)
  {
    DayNumber(d) * MS_PER_DAY
  }

  /** Lexicographic order on (year, month, day): the calendar order. */
  predicate Before(a: Date, b: Date)
  {
    a.year < b.year || (a.year == b.year && (a.month < b.month || (a.month == b.month && a.day < b.day)))
  }

  lemma YearLength(y: int)
    ensures DaysBeforeYear(y + 1) == DaysBeforeYear(y) + DaysInYear(y)
  {
    var a := y / 4 - (y - 1) / 4;
    var b := y / 100 - (y - 1) / 100;
    var c := y / 400 - (y - 1) / 400;
    assert DaysBeforeYear(y + 1) - DaysBeforeYear(y) == 365 + a - b + c by {
      assert y + 1 - 1 == y;
    }
    assert 365 + a - b + c == DaysInYear(y) by {
      QuotientStep(y, 4);
      QuotientStep(y, 100);
      QuotientStep(y, 400);
      Multiples(y);
      LeapDays(y, a, b, c);
    }
  }

  lemma Multiples(y: int)
    ensures y % 400 == 0 ==> y % 100 == 0
    ensures y % 100 == 0 ==> y % 4 == 0
  {
    if y % 400 == 0 {
      CenturyOf400(y);
    }
    if y % 100 == 0 {
      LeapOfCentury(y);
    }
  }

  lemma CenturyOf400(y: int)
    requires y % 400 == 0
    ensures y % 100 == 0
  {
    var k := y / 400;
    assert y == 100 * (4 * k);
  }

  lemma LeapOfCentury(y: int)
    requires y % 100 == 0
    ensures y % 4 == 0
  {
    var k := y / 100;
    assert y == 4 * (25 * k);
  }

  lemma LeapDays(y: int, a: int, b: int, c: int)
    requires a == (if y % 4 == 0 then 1 else 0)
    requires b == (if y % 100 == 0 then 1 else 0)
    requires c == (if y % 400 == 0 then 1 else 0)
    requires y % 400 == 0 ==> y % 100 == 0
    requires y % 100 == 0 ==> y % 4 == 0
    ensures 365 + a - b + c == DaysInYear(y)
  {
  }

  /** Going from `y - 1` to `y` adds one to the quotient exactly when `y` is a multiple. */
  lemma QuotientStep(y: int, n: int)
    requires n == 4 || n == 100 || n == 400
    ensures y / n - (y - 1) / n == (if y % n == 0 then 1 else 0)
  {
    var q := y / n;
    var r := y % n;
    if r == 0 {
      assert y - 1 == n * (q - 1) + (n - 1);
    } else {
      assert y - 1 == n * q + (r - 1);
    }
  }

  lemma MonthsFitInYear(y: int, m: int)
    requires 1 <= m <= 12
    ensures DaysBeforeMonth(y, m) + DaysInMonth(y, m) <= DaysInYear(y)
  {
  }

  lemma {:induction false} YearsIncrease(y1: int, y2: int)
    requires y1 < y2
    ensures DaysBeforeYear(y1) + DaysInYear(y1) <= DaysBeforeYear(y2)
    decreases y2 - y1
  {
    YearLength(y1);
    if y1 + 1 < y2 {
      YearsIncrease(y1 + 1, y2);
    }
  }

  lemma MonthsIncrease(y: int, m1: int, m2: int)
    requires 1 <= m1 < m2 <= 12
    ensures DaysBeforeMonth(y, m1) + DaysInMonth(y, m1) <= DaysBeforeMonth(y, m2)
  {
  }

  /** Day numbers follow the calendar: comparing two parsed dates as time instants,
      as the filter's `>=` and `<=` on `Date` objects do, is comparing them as days. */
  lemma {:induction false} DayNumberMonotonic(a: Date, b: Date)
    requires Valid(a) && Valid(b)
    ensures Before(a, b) ==> DayNumber(a) < DayNumber(b)
    ensures a == b <==> DayNumber(a) == DayNumber(b)
  {
    if a.year < b.year {
      MonthsFitInYear(a.year, a.month);
      YearsIncrease(a.year, b.year);
    } else if b.year < a.year {
      MonthsFitInYear(b.year, b.month);
      YearsIncrease(b.year, a.year);
    } else if a.month < b.month {
      MonthsIncrease(a.year, a.month, b.month);
    } else if b.month < a.month {
      MonthsIncrease(a.year, b.month, a.month);
    }
  }

  /** The year `new Date(y, m, d)` gives a date built from its parts: a year from 0
      to 99 is read as 1900 plus the year, any other year is kept. */
  function FullYear(y: int): int
  {
    if 0 <= y <= 99 then 1900 + y else y
  }

  /** `floorMonth`: the first day of the date's month, rebuilt from its year and
      month, so a year from 0 to 99 moves to the twentieth century. */
  function FloorMonth(d: Date): (r: Date)
    requires Valid(d)
    ensures Valid(r) && r.day == 1 && r.month == d.month
    ensures !(0 <= d.year <= 99) ==> r.year == d.year
    ensures 0 <= d.year <= 99 ==> r.year == d.year + 1900
  {
    Date(FullYear(d.year), d.month, 1)
  }

  /** Flooring twice is flooring once. Outside the years 0 to 99 the month of a date
      starts on or before it, at most 30 days earlier; inside them the floored date
      lies after the date. */
  lemma FloorMonthBounds(d: Date)
    requires Valid(d)
    ensures FloorMonth(FloorMonth(d)) == FloorMonth(d)
    ensures !(0 <= d.year <= 99) ==> DayNumber(FloorMonth(d)) <= DayNumber(d) < DayNumber(FloorMonth(d)) + 31
    ensures 0 <= d.year <= 99 ==> DayNumber(d) < DayNumber(FloorMonth(d))
  {
    if 0 <= d.year <= 99 {
      DayNumberMonotonic(d, FloorMonth(d));
    }
  }

  /** Two dates get the same first-of-month time stamp exactly when their months
      agree and their years agree once read as `new Date` reads them. */
  lemma MonthKeyInjective(a: Date, b: Date)
    requires Valid(a) && Valid(b)
    ensures Millis(FloorMonth(a)) == Millis(FloorMonth(b)) <==> (FullYear(a.year) == FullYear(b.year) && a.month == b.month)
    ensures !(0 <= a.year <= 99) && !(0 <= b.year <= 99) ==>
      (Millis(FloorMonth(a)) == Millis(FloorMonth(b)) <==> (a.year == b.year && a.month == b.month))
  {
    DayNumberMonotonic(FloorMonth(a), FloorMonth(b));
  }

  /** Dates of year 50 and of year 1950 in the same month share a month key. */
  lemma MonthKeyCentury()
    ensures Millis(FloorMonth(Date(50, 3, 4))) == Millis(FloorMonth(Date(1950, 3, 10)))
    ensures FloorMonth(Date(50, 3, 4)) == Date(1950, 3, 1)
  {
  }

  /** Two-digit field as `String(n).padStart(2, '0')` writes it. */
  function Pad2(n: nat): (s: string)
  {
    PadStart(NatToString(n), 2, '0')
  }

  /** `fmtDate`: `YYYY-MM-DD`, or the empty string when there is no date. */
  function FmtDate(d: Option<Date>): (s: string)
    requires d.Some? ==> Valid(d.value)
    ensures d.None? <==> s == ""
  {
    match d
    case None => ""
    case Some(x) => IntToString(x.year) + "-" + Pad2(x.month) + "-" + Pad2(x.day)
  }

  lemma {:induction false} Pad2Value(n: nat)
    requires 1 <= n <= 99
    ensures |Pad2(n)| == 2
    ensures forall i :: 0 <= i < 2 ==> IsDigit(Pad2(n)[i])
    ensures DecimalValue(Pad2(n)) == n
  {
    var t := NatToString(n);
    NatToStringRoundTrip(n);
    if n < 10 {
      var p := Pad2(n);
      assert p == ['0'] + t;
      assert p[..1] == ['0'];
      assert DecimalValue(p[..1][..0]) == 0;
    }
  }

  predicate AllDigits(s: string) { forall i :: 0 <= i < |s| ==> IsDigit(s[i]) }

  /** Reads `Y-MM-DD` text, the year of any number of digits: the inverse of `fmtDate`
      for dates whose year is written without a sign. */
  function ReadDate(s: string): Option<Date>
  {
    if |s| >= 7 && s[|s| - 3] == '-' && s[|s| - 6] == '-'
       && AllDigits(s[..|s| - 6]) && AllDigits(s[|s| - 5..|s| - 3]) && AllDigits(s[|s| - 2..])
    then Some(Date(DecimalValue(s[..|s| - 6]), DecimalValue(s[|s| - 5..|s| - 3]), DecimalValue(s[|s| - 2..])))
    else None
  }

  /** `fmtDate` loses nothing: reading its text back gives the date, and a year of
      four digits gives exactly ten characters. */
  lemma FmtDateRoundTrip(d: Date)
    requires Valid(d) && d.year >= 0
    ensures ReadDate(FmtDate(Some(d))) == Some(d)
    ensures 1000 <= d.year <= 9999 ==> |FmtDate(Some(d))| == 10
  {
    var y := NatToString(d.year);
    Pad2Value(d.month);
    Pad2Value(d.day);
    NatToStringRoundTrip(d.year);
    assert FmtDate(Some(d)) == y + "-" + Pad2(d.month) + "-" + Pad2(d.day);
    ReadFields(y, Pad2(d.month), Pad2(d.day));
    if 1000 <= d.year <= 9999 {
      NatToStringLength(d.year);
    }
  }

  lemma ReadFields(y: string, p: string, q: string)
    requires |y| >= 1 && |p| == 2 && |q| == 2 && AllDigits(y) && AllDigits(p) && AllDigits(q)
    ensures |y + "-" + p + "-" + q| == |y| + 6
    ensures ReadDate(y + "-" + p + "-" + q) == Some(Date(DecimalValue(y), DecimalValue(p), DecimalValue(q)))
  {
    var s := y + "-" + p + "-" + q;
    FieldsOf(y, p, q);
    assert s[..|s| - 6] == y && s[|s| - 5..|s| - 3] == p && s[|s| - 2..] == q;
    assert AllDigits(s[..|s| - 6]) && AllDigits(s[|s| - 5..|s| - 3]) && AllDigits(s[|s| - 2..]);
  }

  lemma FieldsOf(y: string, p: string, q: string)
    requires |p| == 2 && |q| == 2
    ensures var s := y + "-" + p + "-" + q;
      && |s| == |y| + 6 && s[|s| - 3] == '-' && s[|s| - 6] == '-'
      && s[..|s| - 6] == y && s[|s| - 5..|s| - 3] == p && s[|s| - 2..] == q
  {
  }

  lemma NatToStringLength(n: nat)
    requires 1000 <= n <= 9999
    ensures |NatToString(n)| == 4
  {
    var a := n / 10;
    var b := a / 10;
    var c := b / 10;
    assert 100 <= a <= 999 && 10 <= b <= 99 && 1 <= c <= 9;
    assert |NatToString(b)| == 2 by {
      assert NatToString(b) == NatToString(c) + [DigitChar(b % 10)];
    }
    assert |NatToString(a)| == 3 by {
      assert NatToString(a) == NatToString(b) + [DigitChar(a % 10)];
    }
    assert NatToString(n) == NatToString(a) + [DigitChar(n % 10)];
  }
}
