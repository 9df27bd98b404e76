/** `get_date_ranges` (util.py): the day, week and month periods covering the
    days from `mindate` to `maxdate`, each listed once, in order. */
module DateRanges {
  import opened Common
  import opened Strings
  import opened Calendar

  datatype Period = DayPeriod | WeekPeriod | MonthPeriod

  /** The period names the loop recognises; every other string is illegal. */
  function ParsePeriod(p: string): Option<Period> {
    if p == "day" then Some(DayPeriod)
    else if p == "week" then Some(WeekPeriod)
    else if p == "month" then Some(MonthPeriod)
    else None
  }

  datatype DateRange = DateRange(start: Date, end: Date)

  /** The exceptions `get_date_ranges` can raise. */
  datatype RangeError =
    | BadDate(text: string)          // strptime: not a `%Y-%m-%d` date
    | IllegalPeriod(period: string)  // "Illegal period %s"
    | DateOverflow                   // date + timedelta beyond 9999-12-31
    | YearOutOfRange                 // date(10000, 1, 1)
    | YearBefore1900                 // Python 2's strftime refuses years before 1900

  /** A date Python can hold. */
  predicate Representable(d: Date) {
    d.year <= 9999
  }

  /** A range both of whose ends Python 2 can render. */
  predicate Printable(r: DateRange) {
    1900 <= r.start.year <= 9999 && 1900 <= r.end.year <= 9999
  }

  lemma WeekdayArith(n: int)
    requires n >= 1
    ensures 0 <= (n + 6) % 7 < n && (n + 6) % 7 < 7
    ensures (n - (n + 6) % 7 + 6) % 7 == 0
    ensures n - (n + 6) % 7 == 7 * ((n + 6) / 7) - 6
  {
  }

  predicate AllPrintable(rs: seq<DateRange>) {
    forall i {:trigger rs[i]} :: 0 <= i < |rs| ==> Printable(rs[i])
  }

  /** The Monday on or before `d`: `d - timedelta(days=d.weekday())`. */
  function WeekStart(d: Date): (r: Date)
    ensures Weekday(r) == 0
    ensures Ordinal(r) <= Ordinal(d) < Ordinal(r) + 7
  {
    var n, w := Ordinal(d), Weekday(d);
    WeekdayArith(n);
    assert w == (n + 6) % 7;
    var r := SubDays(d, w);
    assert Ordinal(r) == n - w;
    assert Weekday(r) == (n - w + 6) % 7;
    r
  }

  /** The first day of the month after the one holding `d`. */
  function NextMonthFirst(d: Date): (r: Date)
    ensures r.day == 1 && Ordinal(r) > 1
  {
    if d.month == 12 then Ymd(d.year + 1, 1, 1) else Ymd(d.year, d.month + 1, 1)
  }

  /** The range the loop body computes for day `d`:
      day: (d, d + 1 day); week: (Monday, Monday + 7 days), the end exclusive;
      month: (the 1st, the day before the next month's 1st), the end inclusive. */
  function PeriodOf(d: Date, p: Period): DateRange {
    match p
    case DayPeriod => DateRange(d, Next(d))
    case WeekPeriod =>
      var sd := WeekStart(d);
      DateRange(sd, AddDays(sd, 7))
    case MonthPeriod =>
      var sd: Date := Ymd(d.year, d.month, 1);
      DateRange(sd, Prev(NextMonthFirst(d)))
  }

  /** The loop body for day `d`, with the exceptions Python raises on the way. */
  function CheckedPeriodOf(d: Date, p: Period): (r: Result<DateRange, RangeError>)
    requires Representable(d)
    ensures r.Success? ==> r.value == PeriodOf(d, p) && Printable(r.value)
  {
    var range := PeriodOf(d, p);
    PeriodYears(d, p);
    if p == DayPeriod && IsLastDay(d) then Failure(DateOverflow)
    else if p == WeekPeriod && range.end.year > 9999 then Failure(DateOverflow)
    else if p == MonthPeriod && d.month == 12 && d.year == 9999 then Failure(YearOutOfRange)
    else if range.start.year < 1900 || range.end.year < 1900 then Failure(YearBefore1900)
    else Success(range)
  }

  /** When the loop body raises, and what: it succeeds exactly when both ends
      of the day's period are renderable and the day is not in December 9999;
      an end past 9999 overflows, December 9999 has no next month, and an end
      before 1900 cannot be rendered. */
  lemma CheckedPeriodOutcome(d: Date, p: Period)
    requires Representable(d)
    ensures var r := CheckedPeriodOf(d, p);
            && (r.Success? <==> Printable(PeriodOf(d, p)) && !DecemberOf9999(d, p))
            && (PeriodOf(d, p).end.year > 9999 ==> r == Failure(DateOverflow))
            && (DecemberOf9999(d, p) ==> r == Failure(YearOutOfRange))
            && (r.Failure? && PeriodOf(d, p).end.year <= 9999 && !DecemberOf9999(d, p) ==> r == Failure(YearBefore1900))
  {
    PeriodYears(d, p);
  }

  /** The month of December 9999, whose following month `date` cannot hold. */
  predicate DecemberOf9999(d: Date, p: Period) {
    p == MonthPeriod && d.year == 9999 && d.month == 12
  }

  lemma PeriodYears(d: Date, p: Period)
    ensures PeriodOf(d, p).start.year <= d.year
    ensures p == MonthPeriod ==> PeriodOf(d, p).end.year <= NextMonthFirst(d).year
    ensures p == DayPeriod ==> (PeriodOf(d, p).end.year > d.year <==> d.month == 12 && d.day == 31)
  {
    PeriodContains(d, p);
    YearMonotone(PeriodOf(d, p).start, d);
    if p == MonthPeriod {
      YearMonotone(PeriodOf(d, p).end, NextMonthFirst(d));
    }
  }

  /** A month range ends on the last day of its month, December included. */
  lemma MonthEnd(d: Date)
    ensures PeriodOf(d, MonthPeriod).end == Ymd(d.year, d.month, DaysInMonth(d.year, d.month))
  {
    var last: Date := Ymd(d.year, d.month, DaysInMonth(d.year, d.month));
    if d.month == 12 {
      YearStep(d.year);
    } else {
      MonthStep(d.year, d.month);
    }
    OrdinalInjective(PeriodOf(d, MonthPeriod).end, last);
  }

  /** `add_new_range`: append unless the last range starts on the same day.
      The source compares the rendered start strings; by `FormatInjective` that
      is the same test. */
  function AddNewRange(acc: seq<DateRange>, r: DateRange): (acc': seq<DateRange>)
    ensures acc' == acc || acc' == acc + [r]
  {
    if |acc| == 0 || acc[|acc| - 1].start != r.start then acc + [r] else acc
  }

  lemma AddNewRangeKeeps(acc: seq<DateRange>, r: DateRange)
    ensures |AddNewRange(acc, r)| >= |acc| && AddNewRange(acc, r)[..|acc|] == acc
    ensures AllPrintable(acc) && Printable(r) ==> AllPrintable(AddNewRange(acc, r))
  {
    var acc' := AddNewRange(acc, r);
    if AllPrintable(acc) && Printable(r) && acc' != acc {
      forall i | 0 <= i < |acc'|
        ensures Printable(acc'[i])
      {
        if i < |acc| {
          assert acc'[i] == acc[i];
        }
      }
    }
  }

  predicate IsLastDay(d: Date) {
    d.year == 9999 && d.month == 12 && d.day == 31
  }

  lemma NextRepresentable(d: Date)
    requires Representable(d) && !IsLastDay(d)
    ensures Representable(Next(d))
  {
  }

  /** The `while curtm <= maxtm` loop from day `cur` on, `acc` holding the ranges
      appended so far. */
  function Walk(cur: Date, last: Date, period: string, acc: seq<DateRange>): (r: Result<seq<DateRange>, RangeError>)
    requires Representable(cur)
    ensures r.Success? ==> |r.value| >= |acc| && r.value[..|acc|] == acc
    ensures r.Success? && AllPrintable(acc) ==> AllPrintable(r.value)
    decreases Ordinal(last) - Ordinal(cur)
  {
    if Ordinal(cur) > Ordinal(last) then Success(acc)
    else
      match ParsePeriod(period)
      case None => Failure(IllegalPeriod(period))
      case Some(p) =>
        match CheckedPeriodOf(cur, p)
        case Failure(e) => Failure(e)
        case Success(range) =>
          if IsLastDay(cur) then Failure(DateOverflow)
          else
            NextRepresentable(cur);
            AddNewRangeKeeps(acc, range);
            var acc' := AddNewRange(acc, range);
            var r := Walk(Next(cur), last, period, acc');
            assert r.Success? ==> r.value[..|acc|] == r.value[..|acc'|][..|acc|];
            r
  }

  /** `get_date_ranges(mindate, maxdate, period)`, with the ranges as dates. */
  function DateRangesOf(mindate: string, maxdate: string, period: string): (r: Result<seq<DateRange>, RangeError>)
    ensures ParseDate(mindate).None? ==> r == Failure(BadDate(mindate))
    ensures ParseDate(mindate).Some? && ParseDate(maxdate).None? ==> r == Failure(BadDate(maxdate))
    ensures ParseDate(mindate).Some? && ParseDate(maxdate).Some? ==>
              var lo, hi := ParseDate(mindate).value, ParseDate(maxdate).value;
              && (Ordinal(lo) > Ordinal(hi) ==> r == Success([]))
              && (Ordinal(lo) <= Ordinal(hi) && ParsePeriod(period).None? ==> r == Failure(IllegalPeriod(period)))
              && (r.Success? ==> AllPrintable(r.value))
  {
    match ParseDate(mindate)
    case None => Failure(BadDate(mindate))
    case Some(lo) =>
      match ParseDate(maxdate)
      case None => Failure(BadDate(maxdate))
      case Some(hi) => Walk(lo, hi, period, [])
  }

  /** The ranges rendered as `YYYY-MM-DD` string pairs, as the source returns them. */
  function Render(rs: seq<DateRange>): (out: seq<(string, string)>)
    requires AllPrintable(rs)
    ensures |out| == |rs|
    ensures forall i :: 0 <= i < |rs| ==> ParseDate(out[i].0) == Some(rs[i].start) && ParseDate(out[i].1) == Some(rs[i].end)
    ensures forall i :: 0 <= i < |rs| ==> |out[i].0| == 10 && |out[i].1| == 10
  {
    var out := seq(|rs|, i requires 0 <= i < |rs| && AllPrintable(rs) => (Format(rs[i].start), Format(rs[i].end)));
    RenderParses(rs, out);
    out
  }

  lemma RenderParses(rs: seq<DateRange>, out: seq<(string, string)>)
    requires AllPrintable(rs) && |out| == |rs|
    requires forall i :: 0 <= i < |rs| ==> out[i] == (Format(rs[i].start), Format(rs[i].end))
    ensures forall i :: 0 <= i < |rs| ==> ParseDate(out[i].0) == Some(rs[i].start) && ParseDate(out[i].1) == Some(rs[i].end)
    ensures forall i :: 0 <= i < |rs| ==> |out[i].0| == 10 && |out[i].1| == 10
  {
    forall i | 0 <= i < |rs|
      ensures ParseDate(out[i].0) == Some(rs[i].start) && ParseDate(out[i].1) == Some(rs[i].end)
      ensures |out[i].0| == 10 && |out[i].1| == 10
    {
      assert Printable(rs[i]);
      ParseFormat(rs[i].start);
      ParseFormat(rs[i].end);
    }
  }

  /** `get_date_ranges(mindate, maxdate, period)`. */
  function GetDateRanges(mindate: string, maxdate: string, period: string): (r: Result<seq<(string, string)>, RangeError>)
    ensures r.Failure? <==> DateRangesOf(mindate, maxdate, period).Failure?
    ensures r.Failure? ==> r.error == DateRangesOf(mindate, maxdate, period).error
    ensures r.Success? ==> r.value == Render(DateRangesOf(mindate, maxdate, period).value)
  {
    var rs :- DateRangesOf(mindate, maxdate, period);
    Success(Render(rs))
  }

  /** Dates from 1900 to 9998 never make the walk raise: two dates and a
      legal period in that span always give ranges. */
  lemma WalkSucceeds(mindate: string, maxdate: string, period: string)
    requires ParseDate(mindate).Some? && ParseDate(maxdate).Some? && ParsePeriod(period).Some?
    requires 1900 <= ParseDate(mindate).value.year && ParseDate(maxdate).value.year <= 9998
    ensures DateRangesOf(mindate, maxdate, period).Success?
    ensures GetDateRanges(mindate, maxdate, period).Success?
  {
    WalkFrom(ParseDate(mindate).value, ParseDate(maxdate).value, period, []);
  }

  lemma {:induction false} WalkFrom(cur: Date, last: Date, period: string, acc: seq<DateRange>)
    requires 1900 <= cur.year <= 9999 && last.year <= 9998 && ParsePeriod(period).Some?
    ensures Walk(cur, last, period, acc).Success?
    decreases Ordinal(last) - Ordinal(cur)
  {
    if Ordinal(cur) <= Ordinal(last) {
      YearMonotone(cur, last);
      var p := ParsePeriod(period).value;
      PeriodPrintable(cur, p);
      var range := CheckedPeriodOf(cur, p).value;
      YearMonotone(cur, Next(cur));
      WalkFrom(Next(cur), last, period, AddNewRange(acc, range));
    }
  }

  /** A day from 1900 to 9998 lies in a range Python can compute and print. */
  lemma PeriodPrintable(d: Date, p: Period)
    requires 1900 <= d.year <= 9998
    ensures Printable(PeriodOf(d, p)) && !DecemberOf9999(d, p)
    ensures CheckedPeriodOf(d, p).Success?
  {
    var r := PeriodOf(d, p);
    PeriodContains(d, p);
    PeriodYears(d, p);
    CheckedPeriodOutcome(d, p);
    YearMonotone(d, r.end);
    if p == WeekPeriod {
      WeekStartFrom1900(d);
      WeekEndTo9999(d);
    }
  }

  /** No Monday on or before a day of 1900 or later falls in 1899: 1900-01-01
      was a Monday. */
  lemma WeekStartFrom1900(d: Date)
    requires 1900 <= d.year
    ensures 1900 <= WeekStart(d).year
  {
    var jan: Date := Ymd(1900, 1, 1);
    OrdinalOrder(d, jan);
    Jan1900();
    WeekStartOrdinal(d);
    WeekNumberFloor(Ordinal(d));
    YearMonotone(jan, WeekStart(d));
  }

  /** 1900-01-01 is day 693596, a Monday. */
  lemma Jan1900()
    ensures Ordinal(Ymd(1900, 1, 1)) == 693596
  {
    DaysBeforeYearClosedForm(1900);
  }

  lemma WeekNumberFloor(n: int)
    requires n >= 693596
    ensures 7 * ((n + 6) / 7) - 6 >= 693596
  {
    FloorMonotone(693602, n + 6);
    MulMonotone(693602 / 7, (n + 6) / 7);
  }

  lemma WeekEndTo9999(d: Date)
    requires d.year <= 9998
    ensures AddDays(WeekStart(d), 7).year <= 9999
  {
    WithinWeekBefore(d, AddDays(WeekStart(d), 7), 9999);
  }

  /** A day at most a week after `d` falls no later than any year after `d`'s. */
  lemma WithinWeekBefore(d: Date, e: Date, y: int)
    requires 1 <= d.year < y && Ordinal(e) <= Ordinal(d) + 7
    ensures e.year <= y
  {
    DayOfYearBound(d);
    DaysBeforeYearMonotone(d.year + 1, y);
    YearStep(y);
    assert DaysBeforeYear(y) + 7 <= DaysBeforeYear(y + 1);
    OrdinalYearBound(e, y);
  }

  /** A day numbered no later than the end of year `y` falls in `y` or before. */
  lemma OrdinalYearBound(e: Date, y: int)
    requires y >= 1 && Ordinal(e) <= DaysBeforeYear(y + 1)
    ensures e.year <= y
  {
    if e.year > y {
      DaysBeforeYearMonotone(y + 1, e.year);
    }
  }

  // ---------------------------------------------------------------------------
  // The walk as "one range per day, then collapse repeated starts".

  /** The ranges the loop body computes for the `n` days from `d` on. */
  function Raw(d: Date, n: nat, p: Period): (r: seq<DateRange>)
    ensures |r| == n
    ensures forall i :: 0 <= i < n ==> r[i] == PeriodOf(AddDays(d, i), p)
    decreases n
  {
    if n == 0 then [] else [PeriodOf(d, p)] + Raw(Next(d), n - 1, p)
  }

  /** Feeding `xs` through `add_new_range` after `acc`. */
  function Collapse(acc: seq<DateRange>, xs: seq<DateRange>): seq<DateRange>
    decreases |xs|
  {
    if xs == [] then acc else Collapse(AddNewRange(acc, xs[0]), xs[1..])
  }

  function DaysIn(lo: Date, hi: Date): nat {
    if Ordinal(hi) < Ordinal(lo) then 0 else Ordinal(hi) - Ordinal(lo) + 1
  }

  /** A successful walk is the collapse of the per-day ranges. */
  lemma {:induction false} WalkIsCollapse(cur: Date, last: Date, period: string, acc: seq<DateRange>, p: Period)
    requires Representable(cur) && ParsePeriod(period) == Some(p)
    requires Walk(cur, last, period, acc).Success?
    ensures Walk(cur, last, period, acc).value == Collapse(acc, Raw(cur, DaysIn(cur, last), p))
    decreases Ordinal(last) - Ordinal(cur)
  {
    if Ordinal(cur) <= Ordinal(last) {
      var acc' := AddNewRange(acc, PeriodOf(cur, p));
      WalkStep(cur, last, period, acc, p);
      CollapseStep(cur, last, acc, p);
      WalkIsCollapse(Next(cur), last, period, acc', p);
    }
  }

  /** One day of a successful walk: the next day is representable and the
      walk goes on from it with that day's range added. */
  lemma WalkStep(cur: Date, last: Date, period: string, acc: seq<DateRange>, p: Period)
    requires Representable(cur) && ParsePeriod(period) == Some(p) && Ordinal(cur) <= Ordinal(last)
    requires Walk(cur, last, period, acc).Success?
    ensures Representable(Next(cur))
    ensures Walk(cur, last, period, acc) == Walk(Next(cur), last, period, AddNewRange(acc, PeriodOf(cur, p)))
  {
    NextRepresentable(cur);
  }

  /** One day of the collapse of the per-day ranges. */
  lemma CollapseStep(cur: Date, last: Date, acc: seq<DateRange>, p: Period)
    requires Ordinal(cur) <= Ordinal(last)
    ensures Collapse(acc, Raw(cur, DaysIn(cur, last), p))
         == Collapse(AddNewRange(acc, PeriodOf(cur, p)), Raw(Next(cur), DaysIn(Next(cur), last), p))
  {
    var raw := Raw(cur, DaysIn(cur, last), p);
    assert raw[1..] == Raw(Next(cur), DaysIn(Next(cur), last), p);
  }

  predicate StartsIncrease(rs: seq<DateRange>) {
    forall i, j :: 0 <= i < j < |rs| ==> Ordinal(rs[i].start) < Ordinal(rs[j].start)
  }

  predicate StartsNondecreasing(rs: seq<DateRange>) {
    forall i, j :: 0 <= i < j < |rs| ==> Ordinal(rs[i].start) <= Ordinal(rs[j].start)
  }

  lemma AppendIncreasing(acc: seq<DateRange>, x: DateRange)
    requires StartsIncrease(acc)
    requires acc != [] ==> Ordinal(acc[|acc| - 1].start) < Ordinal(x.start)
    ensures StartsIncrease(acc + [x])
  {
    var acc' := acc + [x];
    forall i, j | 0 <= i < j < |acc'|
      ensures Ordinal(acc'[i].start) < Ordinal(acc'[j].start)
    {
      if j == |acc| {
        assert acc'[i] == acc[i];
        if i < |acc| - 1 {
          assert Ordinal(acc[i].start) < Ordinal(acc[|acc| - 1].start);
        }
      } else {
        assert acc'[i] == acc[i] && acc'[j] == acc[j];
      }
    }
  }

  lemma {:induction false} CollapseIncreasing(acc: seq<DateRange>, xs: seq<DateRange>)
    requires StartsIncrease(acc) && StartsNondecreasing(xs)
    requires acc != [] && xs != [] ==> Ordinal(acc[|acc| - 1].start) <= Ordinal(xs[0].start)
    ensures StartsIncrease(Collapse(acc, xs))
    decreases |xs|
  {
    if xs != [] {
      var x := xs[0];
      var acc' := AddNewRange(acc, x);
      if acc' == acc + [x] {
        if acc != [] {
          assert acc[|acc| - 1].start != x.start;
          if Ordinal(acc[|acc| - 1].start) == Ordinal(x.start) {
            OrdinalInjective(acc[|acc| - 1].start, x.start);
          }
        }
        AppendIncreasing(acc, x);
      }
      assert acc' != [] && acc'[|acc'| - 1].start == x.start;
      assert StartsNondecreasing(xs[1..]) by {
        forall i, j | 0 <= i < j < |xs| - 1
          ensures Ordinal(xs[1..][i].start) <= Ordinal(xs[1..][j].start)
        {
          assert xs[1..][i] == xs[i + 1] && xs[1..][j] == xs[j + 1];
        }
      }
      if |xs| > 1 {
        assert Ordinal(x.start) <= Ordinal(xs[1..][0].start) by {
          assert xs[1..][0] == xs[1];
        }
      }
      CollapseIncreasing(acc', xs[1..]);
    }
  }

  /** Every range collapsing adds was one of its inputs. */
  lemma {:induction false} CollapseFrom(acc: seq<DateRange>, xs: seq<DateRange>)
    ensures |Collapse(acc, xs)| >= |acc| && Collapse(acc, xs)[..|acc|] == acc
    ensures forall k :: |acc| <= k < |Collapse(acc, xs)| ==> Collapse(acc, xs)[k] in xs
    decreases |xs|
  {
    if xs != [] {
      var acc' := AddNewRange(acc, xs[0]);
      CollapseFrom(acc', xs[1..]);
      var res := Collapse(acc, xs);
      forall k | |acc| <= k < |res|
        ensures res[k] in xs
      {
        if k >= |acc'| {
          assert res[k] in xs[1..];
        } else {
          assert res[k] == xs[0];
        }
      }
    }
  }

  /** A range is aligned for `p` when it is the range of its own start day. */
  predicate Aligned(r: DateRange, p: Period) {
    r == PeriodOf(r.start, p)
  }

  /** Collapsing drops a range only when an equal one is already in place. */
  lemma {:induction false} CollapseCovers(acc: seq<DateRange>, xs: seq<DateRange>, f: Date -> DateRange)
    requires AllAligned(acc, f) && AllAligned(xs, f)
    ensures AllIn(xs, Collapse(acc, xs)) && AllIn(acc, Collapse(acc, xs))
    decreases |xs|
  {
    if xs != [] {
      var acc' := AddNewRange(acc, xs[0]);
      AlignedStep(acc, xs[0], f);
      AlignedTail(xs, f);
      CollapseCovers(acc', xs[1..], f);
      var res := Collapse(acc, xs);
      assert res == Collapse(acc', xs[1..]);
      CoverStep(acc, acc', xs, res);
    }
  }

  /** Every range of `xs` occurs somewhere in `res`. */
  predicate AllIn(xs: seq<DateRange>, res: seq<DateRange>) {
    forall i :: 0 <= i < |xs| ==> xs[i] in res
  }

  predicate AllAligned(xs: seq<DateRange>, f: Date -> DateRange) {
    forall i :: 0 <= i < |xs| ==> AlignedBy(xs[i], f)
  }

  /** What the rest of the collapse keeps, together with the step just taken,
      covers `acc` and all of `xs`. */
  lemma CoverStep(acc: seq<DateRange>, acc': seq<DateRange>, xs: seq<DateRange>, res: seq<DateRange>)
    requires xs != [] && |acc'| >= |acc| && acc'[..|acc|] == acc
    requires acc' != [] && acc'[|acc'| - 1] == xs[0]
    requires AllIn(xs[1..], res) && AllIn(acc', res)
    ensures AllIn(xs, res) && AllIn(acc, res)
  {
    forall i | 0 <= i < |xs|
      ensures xs[i] in res
    {
      if i > 0 {
        assert xs[i] == xs[1..][i - 1];
      } else {
        assert xs[0] == acc'[|acc'| - 1];
      }
    }
    forall i | 0 <= i < |acc|
      ensures acc[i] in res
    {
      assert acc[i] == acc'[..|acc|][i];
    }
  }

  /** `r` is the range `f` gives its own start: `f` is the period of a day. */
  predicate AlignedBy(r: DateRange, f: Date -> DateRange) {
    r == f(r.start)
  }

  /** One `add_new_range` keeps every range aligned and ends on the new one. */
  lemma AlignedStep(acc: seq<DateRange>, x: DateRange, f: Date -> DateRange)
    requires AllAligned(acc, f) && AlignedBy(x, f)
    ensures var acc' := AddNewRange(acc, x);
            && |acc'| >= |acc| && acc'[..|acc|] == acc && acc' != [] && acc'[|acc'| - 1] == x
            && AllAligned(acc', f)
  {
    var acc' := AddNewRange(acc, x);
    AddNewRangeKeeps(acc, x);
    if acc' == acc {
      assert AlignedBy(acc[|acc| - 1], f);
    } else {
      assert forall i :: 0 <= i < |acc| ==> acc'[i] == acc[i];
    }
  }

  lemma AlignedTail(xs: seq<DateRange>, f: Date -> DateRange)
    requires xs != [] && AllAligned(xs, f)
    ensures AllAligned(xs[1..], f)
  {
    forall i | 0 <= i < |xs[1..]|
      ensures AlignedBy(xs[1..][i], f)
    {
      assert xs[1..][i] == xs[i + 1];
    }
  }

  /** When starts already strictly increase, collapsing keeps everything. */
  lemma {:induction false} CollapseStrict(acc: seq<DateRange>, xs: seq<DateRange>)
    requires StartsIncrease(acc + xs)
    ensures Collapse(acc, xs) == acc + xs
    decreases |xs|
  {
    if xs != [] {
      if acc != [] {
        assert (acc + xs)[|acc| - 1] == acc[|acc| - 1] && (acc + xs)[|acc|] == xs[0];
      }
      assert AddNewRange(acc, xs[0]) == acc + [xs[0]];
      assert acc + [xs[0]] + xs[1..] == acc + xs;
      CollapseStrict(acc + [xs[0]], xs[1..]);
    }
  }

  lemma FloorMonotone(x: int, y: int)
    requires x <= y
    ensures x / 7 <= y / 7
  {
  }

  /** The Monday on or before `d` is day `7q - 6` for `q` the week number. */
  lemma WeekStartOrdinal(d: Date)
    ensures Ordinal(WeekStart(d)) == 7 * ((Ordinal(d) + 6) / 7) - 6
  {
    var n := Ordinal(d);
    WeekdayArith(n);
    assert Ordinal(WeekStart(d)) == n - Weekday(d);
  }

  lemma WeekStartMonotone(a: Date, b: Date)
    requires Ordinal(a) <= Ordinal(b)
    ensures Ordinal(WeekStart(a)) <= Ordinal(WeekStart(b))
  {
    var x, y := Ordinal(a), Ordinal(b);
    WeekStartOrdinal(a);
    WeekStartOrdinal(b);
    FloorMonotone(x + 6, y + 6);
    MulMonotone((x + 6) / 7, (y + 6) / 7);
  }

  lemma MulMonotone(q: int, r: int)
    requires q <= r
    ensures 7 * q <= 7 * r
  {
  }

  lemma MonthStartMonotone(a: Date, b: Date)
    requires Ordinal(a) <= Ordinal(b)
    ensures Ordinal(PeriodOf(a, MonthPeriod).start) <= Ordinal(PeriodOf(b, MonthPeriod).start)
  {
    OrdinalOrder(b, a);
    OrdinalOrder(PeriodOf(b, MonthPeriod).start, PeriodOf(a, MonthPeriod).start);
  }

  /** Later days never have earlier period starts. */
  lemma StartMonotone(a: Date, b: Date, p: Period)
    requires Ordinal(a) <= Ordinal(b)
    ensures Ordinal(PeriodOf(a, p).start) <= Ordinal(PeriodOf(b, p).start)
  {
    match p
    case DayPeriod =>
    case WeekPeriod => WeekStartMonotone(a, b);
    case MonthPeriod => MonthStartMonotone(a, b);
  }

  /** Each range is the range of its own start day. */
  lemma PeriodOfAligned(d: Date, p: Period)
    ensures Aligned(PeriodOf(d, p), p)
  {
    match p
    case DayPeriod =>
    case WeekPeriod =>
      var sd := WeekStart(d);
      assert WeekStart(sd) == sd;
    case MonthPeriod =>
  }

  /** The range computed for a day contains it: from its start, up to the
      exclusive end for day and week, up to the inclusive end for month. */
  lemma PeriodContains(d: Date, p: Period)
    ensures Ordinal(PeriodOf(d, p).start) <= Ordinal(d)
    ensures p != MonthPeriod ==> Ordinal(d) < Ordinal(PeriodOf(d, p).end)
    ensures p == MonthPeriod ==> Ordinal(d) <= Ordinal(PeriodOf(d, p).end)
  {
    if p == MonthPeriod {
      MonthEnd(d);
      var first: Date := Ymd(d.year, d.month, 1);
      OrdinalOrder(first, d);
      OrdinalOrder(d, PeriodOf(d, MonthPeriod).end);
    }
  }

  lemma RawNondecreasing(d: Date, n: nat, p: Period)
    ensures StartsNondecreasing(Raw(d, n, p))
  {
    var raw := Raw(d, n, p);
    forall i, j | 0 <= i < j < n
      ensures Ordinal(raw[i].start) <= Ordinal(raw[j].start)
    {
      StartMonotone(AddDays(d, i), AddDays(d, j), p);
    }
  }

  lemma RawAligned(d: Date, n: nat, p: Period)
    ensures forall i :: 0 <= i < n ==> Aligned(Raw(d, n, p)[i], p)
  {
    forall i | 0 <= i < n
      ensures Aligned(Raw(d, n, p)[i], p)
    {
      PeriodOfAligned(AddDays(d, i), p);
    }
  }

  // ---------------------------------------------------------------------------
  // Properties of a successful partition.

  /** Range starts strictly increase: a start is never repeated. */
  lemma StartsStrictlyIncrease(lo: Date, hi: Date, period: string, p: Period)
    requires Representable(lo) && ParsePeriod(period) == Some(p)
    requires Walk(lo, hi, period, []).Success?
    ensures StartsIncrease(Walk(lo, hi, period, []).value)
  {
    WalkIsCollapse(lo, hi, period, [], p);
    RawNondecreasing(lo, DaysIn(lo, hi), p);
    CollapseIncreasing([], Raw(lo, DaysIn(lo, hi), p));
  }

  /** The collapsed per-day ranges hold the range of every day. */
  lemma RawCovered(d: Date, n: nat, p: Period)
    ensures forall i :: 0 <= i < n ==> PeriodOf(AddDays(d, i), p) in Collapse([], Raw(d, n, p))
  {
    var raw := Raw(d, n, p);
    RawAligned(d, n, p);
    var f := (x: Date) => PeriodOf(x, p);
    assert AllAligned(raw, f);
    CollapseCovers([], raw, f);
    forall i | 0 <= i < n
      ensures PeriodOf(AddDays(d, i), p) in Collapse([], raw)
    {
      assert raw[i] == PeriodOf(AddDays(d, i), p);
    }
  }

  /** `r` is the range computed for one of the `n` days from `d`. */
  predicate FromSomeDay(r: DateRange, d: Date, n: nat, p: Period) {
    exists i: nat :: i < n && r == PeriodOf(AddDays(d, i), p)
  }

  /** Every collapsed range is the range of one of the days. */
  lemma RawOrigin(d: Date, n: nat, p: Period, r: DateRange)
    requires r in Collapse([], Raw(d, n, p))
    ensures FromSomeDay(r, d, n, p)
  {
    var raw := Raw(d, n, p);
    var rs := Collapse([], raw);
    CollapseFrom([], raw);
    var k :| 0 <= k < |rs| && rs[k] == r;
    assert r in raw;
    var i :| 0 <= i < |raw| && raw[i] == r;
    assert r == PeriodOf(AddDays(d, i), p);
  }

  /** Every day from `lo` to `hi` lies in a listed range, namely the one whose
      start was computed for it; and every listed range is some such day's range. */
  lemma EveryDayCovered(lo: Date, hi: Date, period: string, p: Period)
    requires Representable(lo) && ParsePeriod(period) == Some(p)
    requires Walk(lo, hi, period, []).Success?
    ensures var rs := Walk(lo, hi, period, []).value;
            && (forall i :: 0 <= i < DaysIn(lo, hi) ==> PeriodOf(AddDays(lo, i), p) in rs)
            && (forall r :: r in rs ==> FromSomeDay(r, lo, DaysIn(lo, hi), p))
  {
    WalkIsCollapse(lo, hi, period, [], p);
    RawCovered(lo, DaysIn(lo, hi), p);
    forall r | r in Walk(lo, hi, period, []).value
      ensures FromSomeDay(r, lo, DaysIn(lo, hi), p)
    {
      RawOrigin(lo, DaysIn(lo, hi), p, r);
    }
  }

  lemma RawDayIncrease(d: Date, n: nat)
    ensures StartsIncrease(Raw(d, n, DayPeriod))
  {
    var raw := Raw(d, n, DayPeriod);
    forall i, j | 0 <= i < j < n
      ensures Ordinal(raw[i].start) < Ordinal(raw[j].start)
    {
      assert raw[i].start == AddDays(d, i) && raw[j].start == AddDays(d, j);
    }
  }

  /** With period `day` there is exactly one range per day, from that day to the
      next. */
  lemma DayRanges(lo: Date, hi: Date)
    requires Representable(lo)
    requires Walk(lo, hi, "day", []).Success?
    ensures var rs := Walk(lo, hi, "day", []).value;
            && |rs| == DaysIn(lo, hi)
            && forall i :: 0 <= i < |rs| ==> rs[i] == DateRange(AddDays(lo, i), Next(AddDays(lo, i)))
  {
    var n := DaysIn(lo, hi);
    var raw := Raw(lo, n, DayPeriod);
    WalkIsCollapse(lo, hi, "day", [], DayPeriod);
    RawDayIncrease(lo, n);
    assert [] + raw == raw;
    CollapseStrict([], raw);
    var rs := Walk(lo, hi, "day", []).value;
    assert rs == raw;
    forall i | 0 <= i < |rs|
      ensures rs[i] == DateRange(AddDays(lo, i), Next(AddDays(lo, i)))
    {
      assert rs[i] == PeriodOf(AddDays(lo, i), DayPeriod);
    }
  }

  /** One of the `n` days from `lo` lies in `[r.start, r.end)`. */
  predicate HoldsSomeDay(r: DateRange, lo: Date, n: nat) {
    exists i: nat :: i < n && Ordinal(r.start) <= Ordinal(AddDays(lo, i)) < Ordinal(r.end)
  }

  lemma WeekRangeShape(lo: Date, n: nat, r: DateRange)
    requires FromSomeDay(r, lo, n, WeekPeriod)
    ensures Weekday(r.start) == 0 && Ordinal(r.end) == Ordinal(r.start) + 7
    ensures HoldsSomeDay(r, lo, n)
  {
    var i: nat :| i < n && r == PeriodOf(AddDays(lo, i), WeekPeriod);
    PeriodContains(AddDays(lo, i), WeekPeriod);
  }

  /** With period `week` every range runs from a Monday to the Monday seven days
      later (exclusive), and holds one of the covered days. */
  lemma WeekRanges(lo: Date, hi: Date)
    requires Representable(lo)
    requires Walk(lo, hi, "week", []).Success?
    ensures forall r :: r in Walk(lo, hi, "week", []).value ==>
              && Weekday(r.start) == 0
              && Ordinal(r.end) == Ordinal(r.start) + 7
              && HoldsSomeDay(r, lo, DaysIn(lo, hi))
  {
    EveryDayCovered(lo, hi, "week", WeekPeriod);
    forall r | r in Walk(lo, hi, "week", []).value
      ensures Weekday(r.start) == 0 && Ordinal(r.end) == Ordinal(r.start) + 7
      ensures HoldsSomeDay(r, lo, DaysIn(lo, hi))
    {
      WeekRangeShape(lo, DaysIn(lo, hi), r);
    }
  }

  /** With period `month` every range runs from the 1st of a month to the last
      day of that month, inclusive (29 February in a leap year). */
  lemma MonthRanges(lo: Date, hi: Date)
    requires Representable(lo)
    requires Walk(lo, hi, "month", []).Success?
    ensures forall r :: r in Walk(lo, hi, "month", []).value ==>
              && r.start.day == 1
              && r.end == Ymd(r.start.year, r.start.month, DaysInMonth(r.start.year, r.start.month))
  {
    EveryDayCovered(lo, hi, "month", MonthPeriod);
    forall r | r in Walk(lo, hi, "month", []).value
      ensures r.start.day == 1
      ensures r.end == Ymd(r.start.year, r.start.month, DaysInMonth(r.start.year, r.start.month))
    {
      assert FromSomeDay(r, lo, DaysIn(lo, hi), MonthPeriod);
      var i: nat :| i < DaysIn(lo, hi) && r == PeriodOf(AddDays(lo, i), MonthPeriod);
      MonthEnd(AddDays(lo, i));
    }
  }
}
