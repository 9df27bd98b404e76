/** The proleptic Gregorian calendar of Python's `datetime.date`: day numbers
    (`toordinal`), weekdays, one-day steps, `strftime("%Y-%m-%d")` and
    `strptime(..., "%Y-%m-%d")`. */
module Calendar {
  import opened Common
  import opened Strings

  datatype Ymd = Ymd(year: int, month: int, day: int)

  /** `_is_leap`: every fourth year, except centuries not divisible by 400. */
  predicate IsLeap(y: int) {
    y % 4 == 0 && (y % 100 != 0 || y % 400 == 0)
  }

  /** `_days_in_month`. */
  function DaysInMonth(y: int, m: int): int
    requires 1 <= m <= 12
  {
    if m == 2 then (if IsLeap(y) then 29 else 28)
    else if m == 4 || m == 6 || m == 9 || m == 11 then 30
    else 31
  }

  /** A year from 1 on, a month 1..12, and a day that exists in that month. */
  predicate ValidYmd(d: Ymd) {
    d.year >= 1 && 1 <= d.month <= 12 && 1 <= d.day <= DaysInMonth(d.year, d.month)
  }

  /** A calendar date. Python caps the year at 9999; the model checks that cap
      where Python raises, so the type itself leaves the year unbounded. */
  type Date = d: Ymd | ValidYmd(d) witness Ymd(1, 1, 1)

  function DaysInYear(y: int): int {
    if IsLeap(y) then 366 else 365
  }

  /** Days in all years before `y`, counted year by year. */
  function DaysBeforeYear(y: int): nat
    requires y >= 1
    decreases y
  {
    if y == 1 then 0 else DaysBeforeYear(y - 1) + DaysInYear(y - 1)
  }

  /** The year-by-year count agrees with `_days_before_year`'s closed form. */
  lemma DivStep4(p: int)
    requires p >= 1
    ensures p / 4 - (p - 1) / 4 == (if p % 4 == 0 then 1 else 0)
  {
  }

  lemma DivStep100(p: int)
    requires p >= 1
    ensures p / 100 - (p - 1) / 100 == (if p % 100 == 0 then 1 else 0)
  {
  }

  lemma DivStep400(p: int)
    requires p >= 1
    ensures p / 400 - (p - 1) / 400 == (if p % 400 == 0 then 1 else 0)
  {
  }

  lemma LeapCount(p: int)
    ensures DaysInYear(p) == 365 + (if p % 4 == 0 then 1 else 0) - (if p % 100 == 0 then 1 else 0) + (if p % 400 == 0 then 1 else 0)
  {
    if p % 400 == 0 {
      assert p == 400 * (p / 400);
      assert p == 100 * (4 * (p / 400));
      assert p == 4 * (100 * (p / 400));
    } else if p % 100 == 0 {
      assert p == 100 * (p / 100);
      assert p == 4 * (25 * (p / 100));
    }
  }

  /** The year-by-year count agrees with `_days_before_year`'s closed form. */
  lemma {:induction false} DaysBeforeYearClosedForm(y: int)
    requires y >= 1
    ensures DaysBeforeYear(y) == (y - 1) * 365 + (y - 1) / 4 - (y - 1) / 100 + (y - 1) / 400
    decreases y
  {
    if y > 1 {
      DaysBeforeYearClosedForm(y - 1);
      DivStep4(y - 1);
      DivStep100(y - 1);
      DivStep400(y - 1);
      LeapCount(y - 1);
    }
  }

  /** `_days_before_month`: days in the months of year `y` before month `m`. */
  function DaysBeforeMonth(y: int, m: int): int
    requires 1 <= m <= 12
  {
    [0, 31, 59, 90, 120, 151, 181, 212, 243, 273, 304, 334][m - 1] + (if m > 2 && IsLeap(y) then 1 else 0)
  }

  /** `date.toordinal()`: 0001-01-01 is day 1. */
  function Ordinal(d: Date): (n: int)
    ensures n >= 1
  {
    DaysBeforeYear(d.year) + DaysBeforeMonth(d.year, d.month) + d.day
  }

  /** `date.weekday()`: Monday is 0 and Sunday is 6. */
  function Weekday(d: Date): int {
    (Ordinal(d) + 6) % 7
  }

  lemma MonthStep(y: int, m: int)
    requires 1 <= m < 12
    ensures DaysBeforeMonth(y, m + 1) == DaysBeforeMonth(y, m) + DaysInMonth(y, m)
  {
  }

  lemma YearStep(y: int)
    requires y >= 1
    ensures DaysBeforeYear(y + 1) == DaysBeforeYear(y) + DaysBeforeMonth(y, 12) + DaysInMonth(y, 12)
  {
  }

  /** `d + timedelta(days=1)`, without Python's year-9999 cap. */
  function Next(d: Date): (r: Date)
    ensures Ordinal(r) == Ordinal(d) + 1
  {
    if d.day < DaysInMonth(d.year, d.month) then Ymd(d.year, d.month, d.day + 1)
    else if d.month < 12 then
      MonthStep(d.year, d.month);
      Ymd(d.year, d.month + 1, 1)
    else
      YearStep(d.year);
      Ymd(d.year + 1, 1, 1)
  }

  /** `d - timedelta(days=1)`; only 0001-01-01 has no predecessor. */
  function Prev(d: Date): (r: Date)
    requires Ordinal(d) > 1
    ensures Ordinal(r) == Ordinal(d) - 1
  {
    if d.day > 1 then Ymd(d.year, d.month, d.day - 1)
    else if d.month > 1 then
      MonthStep(d.year, d.month - 1);
      Ymd(d.year, d.month - 1, DaysInMonth(d.year, d.month - 1))
    else
      assert d.year > 1;
      YearStep(d.year - 1);
      Ymd(d.year - 1, 12, 31)
  }

  /** `d + timedelta(days=n)`. */
  function AddDays(d: Date, n: nat): (r: Date)
    ensures Ordinal(r) == Ordinal(d) + n
    decreases n
  {
    if n == 0 then d else AddDays(Next(d), n - 1)
  }

  /** `d - timedelta(days=n)`. */
  function SubDays(d: Date, n: nat): (r: Date)
    requires Ordinal(d) > n
    ensures Ordinal(r) == Ordinal(d) - n
    decreases n
  {
    if n == 0 then d else SubDays(Prev(d), n - 1)
  }

  /** Calendar order: year first, then month, then day. */
  predicate Before(a: Date, b: Date) {
    a.year < b.year
    || (a.year == b.year && a.month < b.month)
    || (a.year == b.year && a.month == b.month && a.day < b.day)
  }

  lemma {:induction false} DaysBeforeYearMonotone(a: int, b: int)
    requires 1 <= a <= b
    ensures DaysBeforeYear(a) <= DaysBeforeYear(b)
    decreases b - a
  {
    if a < b {
      YearStep(a);
      DaysBeforeYearMonotone(a + 1, b);
    }
  }

  lemma DayOfYearBound(d: Date)
    ensures Ordinal(d) <= DaysBeforeYear(d.year + 1)
  {
    YearStep(d.year);
  }

  /** Day numbers follow calendar order, in both directions. */
  lemma OrdinalOrder(a: Date, b: Date)
    ensures Ordinal(a) < Ordinal(b) <==> Before(a, b)
  {
    if Before(a, b) {
      BeforeOrdinal(a, b);
    } else if Before(b, a) {
      BeforeOrdinal(b, a);
    } else {
      assert a == b;
    }
  }

  lemma BeforeOrdinal(a: Date, b: Date)
    requires Before(a, b)
    ensures Ordinal(a) < Ordinal(b)
  {
    if a.year < b.year {
      DayOfYearBound(a);
      DaysBeforeYearMonotone(a.year + 1, b.year);
    } else if a.month < b.month {
      assert DaysBeforeMonth(a.year, a.month) + a.day <= DaysBeforeMonth(a.year, b.month);
    }
  }

  lemma YearMonotone(a: Date, b: Date)
    requires Ordinal(a) <= Ordinal(b)
    ensures a.year <= b.year
  {
    OrdinalOrder(b, a);
  }

  /** Distinct dates have distinct day numbers. */
  lemma OrdinalInjective(a: Date, b: Date)
    requires Ordinal(a) == Ordinal(b)
    ensures a == b
  {
    OrdinalOrder(a, b);
    OrdinalOrder(b, a);
  }

  /** The fields of `%Y-%m-%d`: year, month and day, zero-padded to four, two
      and two digits. */
  function Fields(d: Date): (string, string, string)
    requires d.year <= 9999
  {
    (Pad(d.year, 4), Pad(d.month, 2), Pad(d.day, 2))
  }

  /** `d.strftime("%Y-%m-%d")` for a year of at most four digits. */
  function Format(d: Date): (s: string)
    requires d.year <= 9999
    ensures |s| == 10 && s[4] == '-' && s[7] == '-'
  {
    var f := Fields(d);
    f.0 + ("-" + (f.1 + ("-" + f.2)))
  }

  lemma DashLess(x: string, y: string)
    ensures LexLess("-" + x, "-" + y) <==> LexLess(x, y)
  {
    LexLessConcat("-", x, "-", y);
  }

  /** Three fields joined by `-`, the first two of fixed widths, compare
      field by field. */
  lemma FieldsLess(x1: string, x2: string, x3: string, y1: string, y2: string, y3: string)
    requires |x1| == |y1| && |x2| == |y2|
    ensures LexLess(x1 + ("-" + (x2 + ("-" + x3))), y1 + ("-" + (y2 + ("-" + y3))))
            <==> LexLess(x1, y1) || (x1 == y1 && (LexLess(x2, y2) || (x2 == y2 && LexLess(x3, y3))))
  {
    var rx, ry := x2 + ("-" + x3), y2 + ("-" + y3);
    LexLessConcat(x1, "-" + rx, y1, "-" + ry);
    DashLess(rx, ry);
    LexLessConcat(x2, "-" + x3, y2, "-" + y3);
    DashLess(x3, y3);
  }

  /** Padded numbers of one width compare, and are equal, as the numbers are. */
  lemma PadCompare(x: nat, y: nat, w: nat)
    requires x < Pow10(w) && y < Pow10(w)
    ensures LexLess(Pad(x, w), Pad(y, w)) <==> x < y
    ensures Pad(x, w) == Pad(y, w) <==> x == y
  {
    PadOrder(x, y, w);
    if Pad(x, w) == Pad(y, w) {
      PadInjective(x, y, w);
    }
  }

  /** Field-by-field string order of two triples. */
  predicate FieldsBefore(x: (string, string, string), y: (string, string, string)) {
    LexLess(x.0, y.0) || (x.0 == y.0 && (LexLess(x.1, y.1) || (x.1 == y.1 && LexLess(x.2, y.2))))
  }

  lemma FormatFieldsBefore(a: Date, b: Date)
    requires a.year <= 9999 && b.year <= 9999
    ensures LexLess(Format(a), Format(b)) <==> FieldsBefore(Fields(a), Fields(b))
  {
    var x, y := Fields(a), Fields(b);
    FieldsLess(x.0, x.1, x.2, y.0, y.1, y.2);
  }

  /** Each field of two dates compares as the numbers do. */
  lemma FieldsCompare(a: Date, b: Date)
    requires a.year <= 9999 && b.year <= 9999
    ensures var x, y := Fields(a), Fields(b);
            && (LexLess(x.0, y.0) <==> a.year < b.year) && (x.0 == y.0 <==> a.year == b.year)
            && (LexLess(x.1, y.1) <==> a.month < b.month) && (x.1 == y.1 <==> a.month == b.month)
            && (LexLess(x.2, y.2) <==> a.day < b.day) && (x.2 == y.2 <==> a.day == b.day)
  {
    PadCompare4(a.year, b.year);
    PadCompare2(a.month, b.month);
    PadCompare2(a.day, b.day);
  }

  lemma PadCompare4(x: nat, y: nat)
    requires x <= 9999 && y <= 9999
    ensures LexLess(Pad(x, 4), Pad(y, 4)) <==> x < y
    ensures Pad(x, 4) == Pad(y, 4) <==> x == y
  {
    assert Pow10(4) == 10000;
    PadCompare(x, y, 4);
  }

  lemma PadCompare2(x: nat, y: nat)
    requires x <= 99 && y <= 99
    ensures LexLess(Pad(x, 2), Pad(y, 2)) <==> x < y
    ensures Pad(x, 2) == Pad(y, 2) <==> x == y
  {
    assert Pow10(2) == 100;
    PadCompare(x, y, 2);
  }

  lemma FieldsBeforeIsBefore(a: Date, b: Date)
    requires a.year <= 9999 && b.year <= 9999
    ensures FieldsBefore(Fields(a), Fields(b)) <==> Before(a, b)
  {
    FieldsCompare(a, b);
  }

  /** Rendered dates compare as strings in calendar order. */
  lemma FormatBefore(a: Date, b: Date)
    requires a.year <= 9999 && b.year <= 9999
    ensures LexLess(Format(a), Format(b)) <==> Before(a, b)
  {
    FormatFieldsBefore(a, b);
    FieldsBeforeIsBefore(a, b);
  }

  /** `YYYY-MM-DD` strings sort as strings exactly as the dates sort on the calendar. */
  lemma FormatOrder(a: Date, b: Date)
    requires a.year <= 9999 && b.year <= 9999
    ensures LexLess(Format(a), Format(b)) <==> Ordinal(a) < Ordinal(b)
  {
    FormatBefore(a, b);
    OrdinalOrder(a, b);
  }

  /** Distinct dates render differently, so comparing rendered dates (as the
      source does) is comparing dates. */
  lemma FormatInjective(a: Date, b: Date)
    requires a.year <= 9999 && b.year <= 9999
    requires Format(a) == Format(b)
    ensures a == b
  {
    FormatOrder(a, b);
    FormatOrder(b, a);
    LexLessIrreflexive(Format(a));
    OrdinalInjective(a, b);
  }

  /** The month field `%m` accepts: `01`..`12`, or a single digit `1`..`9`. */
  predicate MonthField(f: string) {
    (|f| == 2 && AllDigits(f) && 1 <= ParseDigits(f) <= 12)
    || (|f| == 1 && '1' <= f[0] <= '9')
  }

  /** The day field `%d` accepts: `01`..`31`, a single digit `1`..`9`, or a space
      and a digit ` 1`..` 9`. */
  predicate DayField(f: string) {
    (|f| == 2 && AllDigits(f) && 1 <= ParseDigits(f) <= 31)
    || (|f| == 1 && '1' <= f[0] <= '9')
    || (|f| == 2 && f[0] == ' ' && '1' <= f[1] <= '9')
  }

  function FieldValue(f: string): nat
    requires MonthField(f) || DayField(f)
  {
    if f[0] == ' ' then DigitValue(f[1]) else ParseDigits(f)
  }

  /** `datetime.strptime(s, "%Y-%m-%d").date()`: a four-digit year, a month and a
      day field separated by `-`, nothing else, naming a date that exists; None
      stands for the ValueError raised otherwise. */
  function ParseDate(s: string): (r: Option<Date>)
    ensures r.Some? ==> r.value.year <= 9999
  {
    var parts := Split(s, '-');
    if |parts| == 3 && |parts[0]| == 4 && AllDigits(parts[0]) && MonthField(parts[1]) && DayField(parts[2]) then
      ParseDigitsBound(parts[0]);
      var ymd := Ymd(ParseDigits(parts[0]), FieldValue(parts[1]), FieldValue(parts[2]));
      if ValidYmd(ymd) then Some(ymd) else None
    else None
  }

  /** A rendered date splits on `-` into its three padded fields. */
  lemma SplitFormat(d: Date)
    requires d.year <= 9999
    ensures Split(Format(d), '-') == [Fields(d).0, Fields(d).1, Fields(d).2]
  {
    var f := Fields(d);
    DigitsHaveNoDash(f.0);
    DigitsHaveNoDash(f.1);
    DigitsHaveNoDash(f.2);
    SplitThree(f.0, f.1, f.2);
  }

  lemma SplitThree(x: string, y: string, z: string)
    requires '-' !in x && '-' !in y && '-' !in z
    ensures Split(x + ("-" + (y + ("-" + z))), '-') == [x, y, z]
  {
    calc {
      Split(x + ("-" + (y + ("-" + z))), '-');
      { assert x + ("-" + (y + ("-" + z))) == x + ['-'] + (y + ['-'] + z); }
      Split(x + ['-'] + (y + ['-'] + z), '-');
      { SplitAfterPiece(x, y + ['-'] + z, '-'); }
      [x] + Split(y + ['-'] + z, '-');
      { SplitAfterPiece(y, z, '-'); SplitNoSeparator(z, '-'); }
      [x] + ([y] + [z]);
    }
  }

  lemma DigitsHaveNoDash(s: string)
    requires AllDigits(s)
    ensures '-' !in s
  {
    assert forall k :: 0 <= k < |s| ==> IsDigit(s[k]);
  }

  /** Parsing a rendered date gives the date back. */
  lemma ParseFormat(d: Date)
    requires d.year <= 9999
    ensures ParseDate(Format(d)) == Some(d)
  {
    SplitFormat(d);
    var parts := Split(Format(d), '-');
    assert MonthField(parts[1]) && FieldValue(parts[1]) == d.month;
    assert DayField(parts[2]) && FieldValue(parts[2]) == d.day;
  }
}
