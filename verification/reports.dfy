/** The monthly sub-reports (job_history.py, `ProgressReportVisitor.onStats` and
    `onRecord`): each range of `get_date_ranges(mindate, maxdate, 'month')`
    becomes the window of one sub-report, and a record goes to every
    sub-report whose `accept` takes its date. A record's date is its submit
    day rendered `YYYY-MM-DD`, followed by the time of day. */
module Reports {
  import opened Common
  import opened Strings
  import opened Calendar
  import opened DateRanges
  import opened Repo

  /** A record's date column: the day, then whatever follows it. */
  function Stamp(d: Date, suffix: string): string
    requires d.year <= 9999
  {
    Format(d) + suffix
  }

  /** A window of rendered dates takes a stamp exactly when the stamp's day is
      at or after the start day and before the end day: the time of day never
      matters, and a stamp on the end day itself is rejected. */
  lemma AcceptStamp(s: Date, d: Date, e: Date, suffix: string)
    requires s.year <= 9999 && d.year <= 9999 && e.year <= 9999
    ensures Accepts(Window(Some(Format(s)), Some(Format(e))), Stamp(d, suffix)) <==> Ordinal(s) <= Ordinal(d) < Ordinal(e)
  {
    var fs, fd, fe := Format(s), Format(d), Format(e);
    assert Accepts(Window(Some(fs), Some(fe)), fd + suffix) <==> LexLe(fs, fd + suffix) && LexLess(fd + suffix, fe);
    SuffixIgnored(fs, fd, fe, suffix);
    OrderedFormats(s, d, e);
  }

  /** The day comparisons of `accept`, on rendered days. */
  lemma OrderedFormats(s: Date, d: Date, e: Date)
    requires s.year <= 9999 && d.year <= 9999 && e.year <= 9999
    ensures LexLe(Format(s), Format(d)) <==> Ordinal(s) <= Ordinal(d)
    ensures LexLess(Format(d), Format(e)) <==> Ordinal(d) < Ordinal(e)
  {
    FormatOrder(d, e);
    FormatOrder(s, d);
    if Ordinal(s) == Ordinal(d) {
      OrdinalInjective(s, d);
    } else if Format(s) == Format(d) {
      FormatInjective(s, d);
      assert false;
    }
  }

  /** Between strings of one length, what follows the middle one never changes
      how it compares with the other two. */
  lemma SuffixIgnored(a: string, b: string, c: string, suffix: string)
    requires |a| == |b| == |c|
    ensures LexLe(a, b + suffix) <==> LexLe(a, b)
    ensures LexLess(b + suffix, c) <==> LexLess(b, c)
  {
    assert a + "" == a && c + "" == c;
    LexLessConcat(b, suffix, c, "");
    LexLessConcat(a, "", b, suffix);
    if a == b + suffix {
      assert |suffix| == 0;
      assert a == b;
    }
  }

  /** The windows `_addSubVisitor(dr[0], dr[0], dr[1])` sets up, one per range. */
  function SubReportWindows(ranges: seq<(string, string)>): (ws: seq<Window>)
    ensures |ws| == |ranges|
    ensures forall i :: 0 <= i < |ranges| ==> ws[i] == Window(Some(ranges[i].0), Some(ranges[i].1))
  {
    seq(|ranges|, i requires 0 <= i < |ranges| => Window(Some(ranges[i].0), Some(ranges[i].1)))
  }

  /** The sub-report of range `i` takes a record exactly when the record's
      day lies in `[start, end)` of that range, at any time of day. */
  lemma SubReportWindowAccepts(rs: seq<DateRange>, i: nat, d: Date, suffix: string)
    requires AllPrintable(rs) && i < |rs| && d.year <= 9999
    ensures Accepts(SubReportWindows(Render(rs))[i], Stamp(d, suffix))
            <==> Ordinal(rs[i].start) <= Ordinal(d) < Ordinal(rs[i].end)
  {
    assert Printable(rs[i]);
    AcceptStamp(rs[i].start, d, rs[i].end, suffix);
  }

  /** A day after the 1st of a month, and before that month's last day or the
      next month's 1st, lies in that month. */
  lemma SameMonth(s: Date, d: Date, e: Date)
    requires s.day == 1 && Ordinal(s) <= Ordinal(d) < Ordinal(e)
    requires e == NextMonthFirst(s) || e == Ymd(s.year, s.month, DaysInMonth(s.year, s.month))
    ensures d.year == s.year && d.month == s.month
    ensures e != NextMonthFirst(s) ==> d.day < DaysInMonth(s.year, s.month)
  {
    OrdinalOrder(d, s);
    OrdinalOrder(d, e);
  }

  /** Every range runs from a month's 1st to that month's last day. */
  predicate MonthShaped(rs: seq<DateRange>) {
    forall r :: r in rs ==> r.start.day == 1 && r.end == Ymd(r.start.year, r.start.month, DaysInMonth(r.start.year, r.start.month))
  }

  /** A month's window, ending on its last day, rejects every stamp on a
      month's last day. */
  lemma LastDayOutside(r: DateRange, d: Date, suffix: string)
    requires Printable(r) && r.start.day == 1
    requires r.end == Ymd(r.start.year, r.start.month, DaysInMonth(r.start.year, r.start.month))
    requires d.year <= 9999 && d.day == DaysInMonth(d.year, d.month)
    ensures !Accepts(Window(Some(Format(r.start)), Some(Format(r.end))), Stamp(d, suffix))
  {
    AcceptStamp(r.start, d, r.end, suffix);
    if Ordinal(r.start) <= Ordinal(d) < Ordinal(r.end) {
      SameMonth(r.start, d, r.end);
    }
  }

  lemma NoWindowTakesLastDay(rs: seq<DateRange>, d: Date, suffix: string)
    requires AllPrintable(rs) && MonthShaped(rs)
    requires d.year <= 9999 && d.day == DaysInMonth(d.year, d.month)
    ensures var ws := SubReportWindows(Render(rs));
            forall i :: 0 <= i < |ws| ==> !Accepts(ws[i], Stamp(d, suffix))
  {
    var ws := SubReportWindows(Render(rs));
    forall i | 0 <= i < |ws|
      ensures !Accepts(ws[i], Stamp(d, suffix))
    {
      assert Printable(rs[i]) && rs[i] in rs;
      LastDayOutside(rs[i], d, suffix);
    }
  }

  /** As written: the monthly sub-reports never receive a record dated on the
      last day of a month, whatever its time of day, because each window ends
      on that last day and `accept` excludes its end. */
  lemma MonthLastDayAcceptedByNone(mindate: string, maxdate: string, d: Date, suffix: string)
    requires GetDateRanges(mindate, maxdate, "month").Success?
    requires d.year <= 9999 && d.day == DaysInMonth(d.year, d.month)
    ensures var ws := SubReportWindows(GetDateRanges(mindate, maxdate, "month").value);
            forall i :: 0 <= i < |ws| ==> !Accepts(ws[i], Stamp(d, suffix))
  {
    var lo, hi := ParseDate(mindate).value, ParseDate(maxdate).value;
    var rs := DateRangesOf(mindate, maxdate, "month").value;
    assert rs == Walk(lo, hi, "month", []).value;
    assert GetDateRanges(mindate, maxdate, "month").value == Render(rs);
    MonthRanges(lo, hi);
    NoWindowTakesLastDay(rs, d, suffix);
  }

  /** A concrete case: with January 2013 as the whole report, a job submitted
      at noon on 31 January is in no monthly report. */
  lemma JanuaryLastDayDropped()
    ensures var first: Date, last: Date := Ymd(2013, 1, 1), Ymd(2013, 1, 31);
            && GetDateRanges(Format(last), Format(last), "month") == Success([(Format(first), Format(last))])
            && !Accepts(Window(Some(Format(first)), Some(Format(last))), Stamp(last, " 12:00:00"))
  {
    var first: Date, last: Date := Ymd(2013, 1, 1), Ymd(2013, 1, 31);
    ParseFormat(last);
    var range := PeriodOf(last, MonthPeriod);
    MonthEnd(last);
    assert range == DateRange(first, last);
    assert CheckedPeriodOf(last, MonthPeriod) == Success(range);
    assert Walk(Next(last), last, "month", [range]) == Success([range]);
    assert Walk(last, last, "month", []) == Success([range]);
    assert DateRangesOf(Format(last), Format(last), "month") == Success([range]);
    assert Render([range]) == [(Format(first), Format(last))];
    LastDayOutside(range, last, " 12:00:00");
  }

  // ---------------------------------------------------------------------------
  // The corrected windows: a month's window ends at the next month's 1st,
  // exclusive, as the day and week windows already do.

  /** Every day a successful walk visits passed the loop body. */
  lemma {:induction false} WalkChecked(cur: Date, last: Date, period: string, acc: seq<DateRange>, p: Period)
    requires Representable(cur) && ParsePeriod(period) == Some(p)
    requires Walk(cur, last, period, acc).Success?
    ensures forall i :: 0 <= i < DaysIn(cur, last) ==>
              Representable(AddDays(cur, i)) && CheckedPeriodOf(AddDays(cur, i), p).Success?
    decreases Ordinal(last) - Ordinal(cur)
  {
    if Ordinal(cur) <= Ordinal(last) {
      assert CheckedPeriodOf(cur, p).Success? && !IsLastDay(cur);
      NextRepresentable(cur);
      var range := PeriodOf(cur, p);
      WalkChecked(Next(cur), last, period, AddNewRange(acc, range), p);
      forall i | 0 < i < DaysIn(cur, last)
        ensures AddDays(cur, i) == AddDays(Next(cur), i - 1)
      {
      }
    }
  }

  /** Every range starts on a 1st that Python can render, and so does the
      next month's 1st. */
  predicate MonthEndsRenderable(rs: seq<DateRange>) {
    forall r :: r in rs ==> 1900 <= r.start.year <= 9999 && r.start.day == 1 && NextMonthFirst(r.start).year <= 9999
  }

  /** The month a day's loop body computed without raising starts on a
      renderable 1st, and its next month's 1st exists. */
  lemma CheckedMonthEnds(x: Date)
    requires Representable(x) && CheckedPeriodOf(x, MonthPeriod).Success?
    ensures var r := PeriodOf(x, MonthPeriod);
            1900 <= r.start.year <= 9999 && r.start.day == 1 && NextMonthFirst(r.start).year <= 9999
  {
  }

  /** Each month a successful walk lists can be closed by its next month's 1st. */
  lemma WalkMonthEnds(lo: Date, hi: Date)
    requires Representable(lo)
    requires Walk(lo, hi, "month", []).Success?
    ensures MonthEndsRenderable(Walk(lo, hi, "month", []).value)
  {
    var rs := Walk(lo, hi, "month", []).value;
    EveryDayCovered(lo, hi, "month", MonthPeriod);
    WalkChecked(lo, hi, "month", [], MonthPeriod);
    forall r | r in rs
      ensures 1900 <= r.start.year <= 9999 && r.start.day == 1 && NextMonthFirst(r.start).year <= 9999
    {
      assert FromSomeDay(r, lo, DaysIn(lo, hi), MonthPeriod);
      var i: nat :| i < DaysIn(lo, hi) && r == PeriodOf(AddDays(lo, i), MonthPeriod);
      CheckedMonthEnds(AddDays(lo, i));
    }
  }

  /** The month of every day the walk visits is listed. */
  lemma MonthListed(lo: Date, hi: Date, d: Date)
    requires Representable(lo)
    requires Walk(lo, hi, "month", []).Success?
    requires Ordinal(lo) <= Ordinal(d) <= Ordinal(hi)
    ensures var rs := Walk(lo, hi, "month", []).value;
            exists k :: 0 <= k < |rs| && rs[k].start == Ymd(d.year, d.month, 1)
  {
    var rs := Walk(lo, hi, "month", []).value;
    EveryDayCovered(lo, hi, "month", MonthPeriod);
    var n: nat := Ordinal(d) - Ordinal(lo);
    OrdinalInjective(AddDays(lo, n), d);
    assert PeriodOf(AddDays(lo, n), MonthPeriod) in rs;
    var k :| 0 <= k < |rs| && rs[k] == PeriodOf(d, MonthPeriod);
  }

  /** The corrected windows: from each month's 1st to the next month's 1st. */
  function MonthWindows(rs: seq<DateRange>): (ws: seq<Window>)
    requires MonthEndsRenderable(rs)
    ensures |ws| == |rs|
    ensures forall i :: 0 <= i < |rs| ==> ws[i] == Window(Some(Format(rs[i].start)), Some(Format(NextMonthFirst(rs[i].start))))
  {
    seq(|rs|, i requires 0 <= i < |rs| => Window(Some(Format(rs[i].start)), Some(Format(NextMonthFirst(rs[i].start)))))
  }

  /** The corrected window of range `i` takes a record exactly when the
      record's day falls in the month that range starts. */
  lemma MonthWindowAccepts(rs: seq<DateRange>, i: nat, d: Date, suffix: string)
    requires MonthEndsRenderable(rs) && i < |rs| && d.year <= 9999
    ensures Accepts(MonthWindows(rs)[i], Stamp(d, suffix))
            <==> d.year == rs[i].start.year && d.month == rs[i].start.month
  {
    var s := rs[i].start;
    assert rs[i] in rs;
    AcceptStamp(s, d, NextMonthFirst(s), suffix);
    if Ordinal(s) <= Ordinal(d) < Ordinal(NextMonthFirst(s)) {
      SameMonth(s, d, NextMonthFirst(s));
    }
    if d.year == s.year && d.month == s.month {
      MonthHolds(d);
    }
  }

  /** The 1st of a month is before every day of it, and the next month's 1st
      after every day of it. */
  lemma MonthHolds(d: Date)
    ensures var s: Date := Ymd(d.year, d.month, 1);
            Ordinal(s) <= Ordinal(d) < Ordinal(NextMonthFirst(s))
  {
    var s: Date := Ymd(d.year, d.month, 1);
    OrdinalOrder(d, s);
    OrdinalOrder(d, NextMonthFirst(s));
  }

  /** Window `k` is the one and only window taking `dt`. */
  predicate OnlyWindow(ws: seq<Window>, k: nat, dt: string) {
    k < |ws| && Accepts(ws[k], dt) && forall i :: 0 <= i < |ws| && Accepts(ws[i], dt) ==> i == k
  }

  predicate ExactlyOneWindow(ws: seq<Window>, dt: string) {
    exists k: nat :: k < |ws| && OnlyWindow(ws, k, dt)
  }

  /** Among windows from each month's 1st to the next month's 1st, starting on
      distinct days, the one of `d`'s month is the only one taking `d`. */
  lemma OneMonthWindow(rs: seq<DateRange>, k: nat, d: Date, suffix: string)
    requires MonthEndsRenderable(rs) && StartsIncrease(rs)
    requires d.year <= 9999 && k < |rs| && rs[k].start == Ymd(d.year, d.month, 1)
    ensures OnlyWindow(MonthWindows(rs), k, Stamp(d, suffix))
  {
    var ws := MonthWindows(rs);
    assert rs[k] in rs;
    MonthHolds(d);
    AcceptStamp(rs[k].start, d, NextMonthFirst(rs[k].start), suffix);
    forall i | 0 <= i < |ws| && Accepts(ws[i], Stamp(d, suffix))
      ensures i == k
    {
      assert rs[i] in rs;
      AcceptStamp(rs[i].start, d, NextMonthFirst(rs[i].start), suffix);
      SameMonth(rs[i].start, d, NextMonthFirst(rs[i].start));
    }
  }

  /** Corrected: every record dated from `mindate` to `maxdate`, at any time of
      day, goes to exactly one monthly sub-report. */
  lemma MonthWindowsExactlyOne(mindate: string, maxdate: string, d: Date, suffix: string)
    requires DateRangesOf(mindate, maxdate, "month").Success?
    requires ParseDate(mindate).Some? && ParseDate(maxdate).Some?
    requires Ordinal(ParseDate(mindate).value) <= Ordinal(d) <= Ordinal(ParseDate(maxdate).value)
    ensures d.year <= 9999
    ensures MonthEndsRenderable(DateRangesOf(mindate, maxdate, "month").value)
    ensures ExactlyOneWindow(MonthWindows(DateRangesOf(mindate, maxdate, "month").value), Stamp(d, suffix))
  {
    var lo, hi := ParseDate(mindate).value, ParseDate(maxdate).value;
    var rs := DateRangesOf(mindate, maxdate, "month").value;
    assert rs == Walk(lo, hi, "month", []).value;
    YearMonotone(d, hi);
    WalkMonthEnds(lo, hi);
    StartsStrictlyIncrease(lo, hi, "month", MonthPeriod);
    MonthListed(lo, hi, d);
    var k :| 0 <= k < |rs| && rs[k].start == Ymd(d.year, d.month, 1);
    OneMonthWindow(rs, k, d, suffix);
    assert OnlyWindow(MonthWindows(rs), k, Stamp(d, suffix));
  }
}
