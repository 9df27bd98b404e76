/** Selecting job histories by date in a repository (job_history.py): the
    statistics over the day directories, the two date windows, the query over
    the days, and the pair of binary searches the flat layout uses. Dates are
    `YYYY-MM-DD` strings compared as Python compares byte strings. */
module Repo {
  import opened Common
  import opened Strings
  import opened JobFiles

  /** The key of the day that collects jobs whose directory names no date. */
  const DefaultKey: string := "default"

  // ---------------------------------------------------------------------------
  // `HistoryRepo.get_date_range_stats`.

  /** The dictionary the statistics are reported in. */
  datatype Stats = Stats(total: int, unknown: int, count: int, mindate: Option<string>, maxdate: Option<string>)

  /** The sum of the counts of a map. */
  ghost function Sum(m: map<string, nat>): nat
    decreases |m|
  {
    if m == map[] then 0
    else
      var k :| k in m;
      m[k] + Sum(m - {k})
  }

  /** Taking any one key out of the sum. */
  lemma {:induction false} SumRemove(m: map<string, nat>, k: string)
    requires k in m
    ensures Sum(m) == m[k] + Sum(m - {k})
    decreases |m|
  {
    var j :| j in m && Sum(m) == m[j] + Sum(m - {j});
    if j != k {
      assert (m - {j}) - {k} == (m - {k}) - {j};
      SumRemove(m - {j}, k);
      SumRemove(m - {k}, j);
    }
  }

  /** The days whose key is a date. */
  function Dated(days: map<string, nat>): (r: map<string, nat>)
    ensures forall k :: k in r <==> k in days && k != DefaultKey
    ensures forall k :: k in r ==> r[k] == days[k]
  {
    map k | k in days && k != DefaultKey :: days[k]
  }

  /** `m` is the least of `keys` in string order, or None when there are none. */
  predicate IsMin(keys: set<string>, m: Option<string>) {
    && (m.None? <==> keys == {})
    && (m.Some? ==> m.value in keys && forall k :: k in keys ==> LexLe(m.value, k))
  }

  /** `m` is the greatest of `keys`, or None when there are none. */
  predicate IsMax(keys: set<string>, m: Option<string>) {
    && (m.None? <==> keys == {})
    && (m.Some? ==> m.value in keys && forall k :: k in keys ==> LexLe(k, m.value))
  }

  /** What the statistics of `days` (a day key to its number of jobs) are:
      `unknown` counts the jobs under `'default'`, `count` those under a date,
      `total` both, and `mindate`/`maxdate` are the extreme date keys. */
  ghost predicate StatsOf(days: map<string, nat>, s: Stats) {
    && s.unknown == (if DefaultKey in days then days[DefaultKey] else 0)
    && s.count == Sum(Dated(days))
    && s.total == s.unknown + s.count
    && IsMin(Dated(days).Keys, s.mindate)
    && IsMax(Dated(days).Keys, s.maxdate)
  }

  /** `if (mindate == None) or (k < mindate): mindate = k`. */
  function MinWith(m: Option<string>, k: string): (r: Option<string>)
    ensures r.Some?
  {
    if m.None? || LexLess(k, m.value) then Some(k) else m
  }

  /** `if (maxdate == None) or (k > maxdate): maxdate = k`. */
  function MaxWith(m: Option<string>, k: string): (r: Option<string>)
    ensures r.Some?
  {
    if m.None? || LexLess(m.value, k) then Some(k) else m
  }

  /** The running minimum stays the minimum of the keys seen. */
  lemma MinWithStep(keys: set<string>, m: Option<string>, k: string)
    requires IsMin(keys, m)
    ensures IsMin(keys + {k}, MinWith(m, k))
  {
    if m.Some? {
      if LexLess(k, m.value) {
        forall x | x in keys
          ensures LexLe(k, x)
        {
          LexLeTransitive(k, m.value, x);
        }
      } else {
        LexLessTotal(k, m.value);
      }
    }
  }

  /** The running maximum stays the maximum of the keys seen. */
  lemma MaxWithStep(keys: set<string>, m: Option<string>, k: string)
    requires IsMax(keys, m)
    ensures IsMax(keys + {k}, MaxWith(m, k))
  {
    if m.Some? {
      if LexLess(m.value, k) {
        forall x | x in keys
          ensures LexLe(x, k)
        {
          LexLeTransitive(x, m.value, k);
        }
      } else {
        LexLessTotal(k, m.value);
      }
    }
  }

  /** Moving one dated key from the days still to visit to those visited. */
  lemma SumStep(days: map<string, nat>, rest: set<string>, k: string)
    requires k in rest && k in days && k != DefaultKey
    ensures Sum(Dated(Restrict(days, rest))) == days[k] + Sum(Dated(Restrict(days, rest - {k})))
  {
    SumRemove(Dated(Restrict(days, rest)), k);
    assert Dated(Restrict(days, rest)) - {k} == Dated(Restrict(days, rest - {k}));
  }

  /** The loop of `get_date_range_stats` has visited every key but `rest`,
      and its running values describe the visited days. */
  ghost predicate Visited(days: map<string, nat>, rest: set<string>, total: int, unknown: int, count: int,
                          mindate: Option<string>, maxdate: Option<string>) {
    && rest <= days.Keys
    && total == unknown + count
    && unknown == (if DefaultKey in days && DefaultKey !in rest then days[DefaultKey] else 0)
    && count + Sum(Dated(Restrict(days, rest))) == Sum(Dated(days))
    && IsMin(Dated(days).Keys - rest, mindate)
    && IsMax(Dated(days).Keys - rest, maxdate)
  }

  lemma VisitStart(days: map<string, nat>)
    ensures Visited(days, days.Keys, 0, 0, 0, None, None)
  {
    assert Restrict(days, days.Keys) == days;
  }

  /** One turn of the loop, for key `k`. */
  lemma VisitStep(days: map<string, nat>, rest: set<string>, k: string, total: int, unknown: int, count: int,
                  mindate: Option<string>, maxdate: Option<string>)
    requires Visited(days, rest, total, unknown, count, mindate, maxdate) && k in rest
    ensures k == DefaultKey ==>
              Visited(days, rest - {k}, total + days[k], unknown + days[k], count, mindate, maxdate)
    ensures k != DefaultKey ==>
              Visited(days, rest - {k}, total + days[k], unknown, count + days[k], MinWith(mindate, k), MaxWith(maxdate, k))
  {
    if k == DefaultKey {
      assert Dated(Restrict(days, rest - {k})) == Dated(Restrict(days, rest));
      assert Dated(days).Keys - (rest - {k}) == Dated(days).Keys - rest;
    } else {
      MinWithStep(Dated(days).Keys - rest, mindate, k);
      MaxWithStep(Dated(days).Keys - rest, maxdate, k);
      assert Dated(days).Keys - (rest - {k}) == (Dated(days).Keys - rest) + {k};
      SumStep(days, rest, k);
    }
  }

  lemma VisitEnd(days: map<string, nat>, total: int, unknown: int, count: int,
                 mindate: Option<string>, maxdate: Option<string>)
    requires Visited(days, {}, total, unknown, count, mindate, maxdate)
    ensures StatsOf(days, Stats(total, unknown, count, mindate, maxdate))
  {
    assert Dated(Restrict(days, {})) == map[];
    assert Dated(days).Keys - {} == Dated(days).Keys;
  }

  /** `get_date_range_stats(start_date, end_date)`. The keys are visited in any
      order; the source sorts them first, which changes nothing. */
  method DateRangeStats(days: map<string, nat>, startDate: Option<string>, endDate: Option<string>) returns (s: Stats)
    ensures StatsOf(days, s)
  {
    var total, unknown, count := 0, 0, 0;
    var mindate: Option<string> := None;
    var maxdate: Option<string> := None;
    var rest := days.Keys;
    VisitStart(days);
    while rest != {}
      invariant Visited(days, rest, total, unknown, count, mindate, maxdate)
      decreases |rest|
    {
      var k :| k in rest;
      var n := days[k];
      VisitStep(days, rest, k, total, unknown, count, mindate, maxdate);
      if k == DefaultKey {
        total := total + n;
        unknown := unknown + n;
      } else {
        mindate := MinWith(mindate, k);
        maxdate := MaxWith(maxdate, k);
        total := total + n;
        count := count + n;
      }
      rest := rest - {k};
    }
    VisitEnd(days, total, unknown, count, mindate, maxdate);
    s := Stats(total, unknown, count, mindate, maxdate);
  }

  /** The part of `days` on the keys `ks`. */
  function Restrict(days: map<string, nat>, ks: set<string>): (r: map<string, nat>)
    ensures forall k :: k in r <==> k in days && k in ks
    ensures forall k :: k in r ==> r[k] == days[k]
  {
    map k | k in days && k in ks :: days[k]
  }

  /** `total` counts every job of the repository once. */
  lemma TotalCountsEveryJob(days: map<string, nat>, s: Stats)
    requires StatsOf(days, s)
    ensures s.total == Sum(days)
  {
    if DefaultKey in days {
      SumRemove(days, DefaultKey);
      assert days - {DefaultKey} == Dated(days);
    } else {
      assert days == Dated(days);
    }
  }

  /** The statistics are a function of the days alone: two results for the same
      days agree, so the start and end dates given make no difference. */
  lemma StatsUnique(days: map<string, nat>, s1: Stats, s2: Stats)
    requires StatsOf(days, s1) && StatsOf(days, s2)
    ensures s1 == s2
  {
    if s1.mindate.Some? {
      LexLessAsymmetric(s1.mindate.value, s2.mindate.value);
    }
    if s1.maxdate.Some? {
      LexLessAsymmetric(s1.maxdate.value, s2.maxdate.value);
    }
  }

  // ---------------------------------------------------------------------------
  // The two date windows.

  /** A start and an end date, either of which may be missing. */
  datatype Window = Window(start: Option<string>, end: Option<string>)

  /** Python truthiness of a date argument: None and `''` are false. */
  predicate Present(b: Option<string>) {
    b.Some? && b.value != ""
  }

  /** The test of `query_date_range`: `((not start) or k >= start) and ((not
      end) or k < end)`. */
  predicate QueryKeeps(w: Window, k: string) {
    && (!Present(w.start) || LexLe(w.start.value, k))
    && (!Present(w.end) || LexLess(k, w.end.value))
  }

  /** `BriefReportVistor.accept(dt)`: `(start and dt >= start) and (end and dt <
      end)`. */
  predicate Accepts(w: Window, dt: string) {
    && (Present(w.start) && LexLe(w.start.value, dt))
    && (Present(w.end) && LexLess(dt, w.end.value))
  }

  /** `accept` is the query's half-open test with both bounds required: a
      missing bound rejects every date rather than leaving that side open. */
  lemma AcceptIsBoundedQuery(w: Window, dt: string)
    ensures Accepts(w, dt) <==> Present(w.start) && Present(w.end) && QueryKeeps(w, dt)
    ensures !Present(w.start) || !Present(w.end) ==> !Accepts(w, dt)
    ensures !Present(w.start) && !Present(w.end) ==> QueryKeeps(w, dt)
  {
  }

  /** Windows that meet split a span: a date of `[a, c)` lies in exactly one of
      `[a, b)` and `[b, c)`. */
  lemma WindowSplit(a: string, b: string, c: string, dt: string)
    requires a != "" && b != "" && c != ""
    requires Accepts(Window(Some(a), Some(c)), dt)
    ensures Accepts(Window(Some(a), Some(b)), dt) != Accepts(Window(Some(b), Some(c)), dt)
  {
    LexLessTotal(dt, b);
    if LexLess(dt, b) {
      LexLessAsymmetric(dt, b);
      LexLessIrreflexive(b);
    }
  }

  // ---------------------------------------------------------------------------
  // `query_date_range`.

  /** A job's brief-info row, reduced to what the selection reads. */
  datatype Brief = Brief(jobid: string, date: string)

  /** One day of the repository: its key and its jobs in id order. */
  datatype Day = Day(key: string, jobs: seq<Brief>)

  /** The date the query compares for a job of day `key`: the day itself, or
      the job's own date for the `'default'` day. */
  function DateOf(key: string, b: Brief): string {
    if key == DefaultKey then b.date else key
  }

  /** Some day of `days` holds `b` and the window keeps it. */
  predicate Selected(days: seq<Day>, w: Window, b: Brief) {
    exists i :: 0 <= i < |days| && b in days[i].jobs && QueryKeeps(w, DateOf(days[i].key, b))
  }

  /** `query_date_range(start, end)` over the days in key order: each job of
      the `'default'` day by its own date, every other day whole or not at
      all. A row is returned exactly when its day holds it and the window
      keeps its date. */
  function QueryDateRange(days: seq<Day>, w: Window): (r: seq<Brief>)
    ensures forall b :: b in r <==> Selected(days, w, b)
    decreases |days|
  {
    if days == [] then []
    else
      var d := days[0];
      var here := if d.key == DefaultKey then FilterByDate(d.jobs, w)
                  else if QueryKeeps(w, d.key) then d.jobs else [];
      var rest := QueryDateRange(days[1..], w);
      assert forall b :: b in here <==> b in d.jobs && QueryKeeps(w, DateOf(d.key, b));
      assert forall b :: Selected(days, w, b) <==> (b in d.jobs && QueryKeeps(w, DateOf(d.key, b))) || Selected(days[1..], w, b) by {
        forall b
          ensures Selected(days, w, b) <==> (b in d.jobs && QueryKeeps(w, DateOf(d.key, b))) || Selected(days[1..], w, b)
        {
          if Selected(days[1..], w, b) {
            var i :| 0 <= i < |days[1..]| && b in days[1..][i].jobs && QueryKeeps(w, DateOf(days[1..][i].key, b));
            assert days[i + 1] == days[1..][i];
          }
          if Selected(days, w, b) {
            var i :| 0 <= i < |days| && b in days[i].jobs && QueryKeeps(w, DateOf(days[i].key, b));
            if i > 0 {
              assert days[1..][i - 1] == days[i];
            }
          }
        }
      }
      here + rest
  }

  /** The jobs of the `'default'` day whose own date the window keeps, in order. */
  function FilterByDate(jobs: seq<Brief>, w: Window): (r: seq<Brief>)
    ensures forall b :: b in r <==> b in jobs && QueryKeeps(w, b.date)
    decreases |jobs|
  {
    if jobs == [] then []
    else
      var rest := FilterByDate(jobs[1..], w);
      assert forall b :: b in jobs <==> b == jobs[0] || b in jobs[1..] by {
        assert jobs == [jobs[0]] + jobs[1..];
      }
      if QueryKeeps(w, jobs[0].date) then [jobs[0]] + rest else rest
  }

  // ---------------------------------------------------------------------------
  // The flat layout: one directory of log files, searched by date.

  /** File `f` (name, size) is listed as entry `e`. */
  predicate Listable(f: (string, nat), e: ((nat, nat), string)) {
    ParseJobIdFromFilename2(f.0) == Some(e.0) && e.1 == f.0 && f.1 >= 100
  }

  /** Some file of `files` is listed as `e`. */
  predicate ListedIn(files: seq<(string, nat)>, e: ((nat, nat), string)) {
    exists i :: 0 <= i < |files| && Listable(files[i], e)
  }

  /** The logs the flat layout lists, before sorting: files whose name carries
      a job id and whose size is at least 100 bytes, with their parsed id. */
  function FlatLogs(files: seq<(string, nat)>): (r: seq<((nat, nat), string)>)
    ensures forall e :: e in r <==> ListedIn(files, e)
    decreases |files|
  {
    if files == [] then []
    else
      var f := files[0];
      var id := ParseJobIdFromFilename2(f.0);
      var rest := FlatLogs(files[1..]);
      var here := if id.Some? && f.1 >= 100 then [(id.value, f.0)] else [];
      assert forall e :: e in here <==> Listable(f, e);
      assert forall e :: ListedIn(files, e) <==> Listable(f, e) || ListedIn(files[1..], e) by {
        forall e | ListedIn(files, e)
          ensures Listable(f, e) || ListedIn(files[1..], e)
        {
          var i :| 0 <= i < |files| && Listable(files[i], e);
          if i > 0 {
            assert files[1..][i - 1] == files[i];
          }
        }
        forall e | ListedIn(files[1..], e)
          ensures ListedIn(files, e)
        {
          var i :| 0 <= i < |files[1..]| && Listable(files[1..][i], e);
          assert files[i + 1] == files[1..][i];
        }
      }
      here + rest
  }

  /** Dates in non-decreasing string order. */
  predicate SortedDates(ds: seq<string>) {
    forall i, j :: 0 <= i < j < |ds| ==> LexLe(ds[i], ds[j])
  }

  /** How many of `ds` are before `x`. */
  function CountBelow(ds: seq<string>, x: string): (n: nat)
    ensures n <= |ds|
    decreases |ds|
  {
    if ds == [] then 0 else (if LexLess(ds[0], x) then 1 else 0) + CountBelow(ds[1..], x)
  }

  /** How many of `ds` are at or before `x`. */
  function CountAtMost(ds: seq<string>, x: string): (n: nat)
    ensures n <= |ds|
    decreases |ds|
  {
    if ds == [] then 0 else (if !LexLess(x, ds[0]) then 1 else 0) + CountAtMost(ds[1..], x)
  }

  /** A sequence cut at `p` into dates before `x` and dates not before it has
      `p` dates before `x`. */
  lemma {:induction false} CountBelowCut(ds: seq<string>, x: string, p: nat)
    requires p <= |ds|
    requires forall i :: 0 <= i < p ==> LexLess(ds[i], x)
    requires forall i :: p <= i < |ds| ==> !LexLess(ds[i], x)
    ensures CountBelow(ds, x) == p
    decreases |ds|
  {
    if ds != [] {
      assert forall i :: 0 <= i < |ds[1..]| ==> ds[1..][i] == ds[i + 1];
      if p == 0 {
        CountBelowCut(ds[1..], x, 0);
      } else {
        CountBelowCut(ds[1..], x, p - 1);
      }
    }
  }

  /** The same for dates at or before `x`. */
  lemma {:induction false} CountAtMostCut(ds: seq<string>, x: string, p: nat)
    requires p <= |ds|
    requires forall i :: 0 <= i < p ==> !LexLess(x, ds[i])
    requires forall i :: p <= i < |ds| ==> LexLess(x, ds[i])
    ensures CountAtMost(ds, x) == p
    decreases |ds|
  {
    if ds != [] {
      assert forall i :: 0 <= i < |ds[1..]| ==> ds[1..][i] == ds[i + 1];
      if p == 0 {
        CountAtMostCut(ds[1..], x, 0);
      } else {
        CountAtMostCut(ds[1..], x, p - 1);
      }
    }
  }

  /** `start_idx` as the source defines it in words: the number of dates
      before the start date, or 0 without one. */
  function StartCount(ds: seq<string>, startDate: Option<string>): nat {
    if Present(startDate) then CountBelow(ds, startDate.value) else 0
  }

  /** `end_idx`: the number of dates at or before the end date, or all of them
      without one. */
  function EndCount(ds: seq<string>, endDate: Option<string>): nat {
    if Present(endDate) then CountAtMost(ds, endDate.value) else |ds|
  }

  /** The first binary search: with a start date, the first position whose
      date is not before it; 0 without one. */
  method StartIndex(ds: seq<string>, startDate: Option<string>) returns (idx: nat)
    ensures idx <= |ds|
    ensures !Present(startDate) ==> idx == 0
    ensures Present(startDate) && SortedDates(ds) ==> idx == CountBelow(ds, startDate.value)
  {
    var lo, hi := 0, |ds|;
    if Present(startDate) {
      var x := startDate.value;
      while lo < hi
        invariant 0 <= lo <= hi <= |ds|
        invariant SortedDates(ds) ==> forall i :: 0 <= i < lo ==> LexLess(ds[i], x)
        invariant SortedDates(ds) ==> forall i :: hi <= i < |ds| ==> !LexLess(ds[i], x)
        decreases hi - lo
      {
        var mid := (lo + hi) / 2;
        if LexLess(ds[mid], x) {
          if SortedDates(ds) {
            forall i | 0 <= i <= mid
              ensures LexLess(ds[i], x)
            {
              if i < mid {
                LeLessTransitive(ds[i], ds[mid], x);
              }
            }
          }
          lo := mid + 1;
        } else {
          if SortedDates(ds) {
            forall i | mid <= i < |ds|
              ensures !LexLess(ds[i], x)
            {
              if mid < i {
                NotLessMonotone(ds[mid], ds[i], x);
              }
            }
          }
          hi := mid;
        }
      }
      if SortedDates(ds) {
        CountBelowCut(ds, x, lo);
      }
    }
    idx := lo;
  }

  /** The second binary search: with an end date, the first position whose
      date is after it; `len(logs)` without one. */
  method EndIndex(ds: seq<string>, endDate: Option<string>) returns (idx: nat)
    ensures idx <= |ds|
    ensures !Present(endDate) ==> idx == |ds|
    ensures Present(endDate) && SortedDates(ds) ==> idx == CountAtMost(ds, endDate.value)
  {
    idx := |ds|;
    if Present(endDate) {
      var x := endDate.value;
      var lo, hi := 0, |ds|;
      while lo < hi
        invariant 0 <= lo <= hi <= |ds|
        invariant SortedDates(ds) ==> forall i :: 0 <= i < lo ==> !LexLess(x, ds[i])
        invariant SortedDates(ds) ==> forall i :: hi <= i < |ds| ==> LexLess(x, ds[i])
        decreases hi - lo
      {
        var mid := (lo + hi) / 2;
        if LexLess(x, ds[mid]) {
          if SortedDates(ds) {
            forall i | mid <= i < |ds|
              ensures LexLess(x, ds[i])
            {
              if mid < i {
                LessLeTransitive(x, ds[mid], ds[i]);
              }
            }
          }
          hi := mid;
        } else {
          if SortedDates(ds) {
            forall i | 0 <= i <= mid
              ensures !LexLess(x, ds[i])
            {
              if i < mid {
                NotGreaterMonotone(ds[i], ds[mid], x);
              }
            }
          }
          lo := mid + 1;
        }
      }
      if SortedDates(ds) {
        CountAtMostCut(ds, x, lo);
      }
      idx := lo;
    }
  }

  lemma LeLessTransitive(a: string, b: string, c: string)
    requires LexLe(a, b) && LexLess(b, c)
    ensures LexLess(a, c)
  {
    if a != b {
      LexLessTransitive(a, b, c);
    }
  }

  lemma LessLeTransitive(a: string, b: string, c: string)
    requires LexLess(a, b) && LexLe(b, c)
    ensures LexLess(a, c)
  {
    if b != c {
      LexLessTransitive(a, b, c);
    }
  }

  /** Not before `x` stays so further along a sorted sequence. */
  lemma NotLessMonotone(a: string, b: string, x: string)
    requires LexLe(a, b) && !LexLess(a, x)
    ensures !LexLess(b, x)
  {
    if LexLess(b, x) {
      LeLessTransitive(a, b, x);
    }
  }

  /** Not after `x` stays so further back. */
  lemma NotGreaterMonotone(a: string, b: string, x: string)
    requires LexLe(a, b) && !LexLess(x, b)
    ensures !LexLess(x, a)
  {
    if LexLess(x, a) {
      LessLeTransitive(x, a, b);
    }
  }

  /** The statistics the flat layout reports for the log dates `ds` (in the
      order of the sorted log list): every log in `total`, none unknown,
      `count = end_idx - start_idx` (negative when the end date is before the
      start date), `mindate` the first date in the window and `maxdate` the
      last one, both falling back to the start date (the end date is never
      used for `maxdate`). */
  method FlatStats(ds: seq<string>, startDate: Option<string>, endDate: Option<string>) returns (s: Stats)
    ensures s.total == |ds| && s.unknown == 0
    ensures s.mindate == startDate || (s.mindate.Some? && s.mindate.value in ds)
    ensures s.maxdate == startDate || (s.maxdate.Some? && s.maxdate.value in ds)
    ensures SortedDates(ds) ==> s.count == EndCount(ds, endDate) - StartCount(ds, startDate)
    ensures SortedDates(ds) ==>
              var k := StartCount(ds, startDate);
              s.mindate == (if k < |ds| then Some(ds[k]) else startDate)
    ensures SortedDates(ds) ==>
              var e := EndCount(ds, endDate);
              s.maxdate == (if 0 < e then Some(ds[e - 1]) else startDate)
    ensures SortedDates(ds) && Present(startDate) && StartCount(ds, startDate) < |ds| ==>
              LexLe(startDate.value, ds[StartCount(ds, startDate)])
    ensures SortedDates(ds) && Present(endDate) && 0 < EndCount(ds, endDate) ==>
              LexLe(ds[EndCount(ds, endDate) - 1], endDate.value)
  {
    var startIdx := StartIndex(ds, startDate);
    var endIdx := EndIndex(ds, endDate);
    var mindate := startDate;
    if startIdx < |ds| {
      mindate := Some(ds[startIdx]);
    }
    if SortedDates(ds) && Present(startDate) && startIdx < |ds| {
      FirstNotBelow(ds, startDate.value, startIdx);
    }
    var maxdate := startDate;
    if 0 <= endIdx - 1 < |ds| {
      maxdate := Some(ds[endIdx - 1]);
    }
    if SortedDates(ds) && Present(endDate) && 0 < endIdx {
      LastAtMost(ds, endDate.value, endIdx);
    }
    s := Stats(|ds|, 0, endIdx - startIdx, mindate, maxdate);
  }

  /** In sorted dates, the date at the count of those before `x` is not before it. */
  lemma FirstNotBelow(ds: seq<string>, x: string, p: nat)
    requires SortedDates(ds) && p == CountBelow(ds, x) && p < |ds|
    ensures LexLe(x, ds[p])
  {
    var q := SortedCountBelow(ds, x);
    LexLessTotal(x, ds[p]);
  }

  /** In sorted dates, the date just before the count of those at or before
      `x` is at or before it. */
  lemma LastAtMost(ds: seq<string>, x: string, p: nat)
    requires SortedDates(ds) && p == CountAtMost(ds, x) && 0 < p <= |ds|
    ensures LexLe(ds[p - 1], x)
  {
    var q := SortedCountAtMost(ds, x);
    LexLessTotal(x, ds[p - 1]);
  }

  /** In sorted dates, those before `x` form a prefix. */
  lemma {:induction false} SortedCountBelow(ds: seq<string>, x: string) returns (p: nat)
    requires SortedDates(ds)
    ensures p == CountBelow(ds, x)
    ensures forall i :: 0 <= i < p ==> LexLess(ds[i], x)
    ensures forall i :: p <= i < |ds| ==> !LexLess(ds[i], x)
    decreases |ds|
  {
    if ds == [] {
      p := 0;
    } else {
      var tail := ds[1..];
      assert forall i :: 0 <= i < |tail| ==> tail[i] == ds[i + 1];
      var q := SortedCountBelow(tail, x);
      if LexLess(ds[0], x) {
        p := q + 1;
      } else {
        p := 0;
        forall i | 0 < i < |ds|
          ensures !LexLess(ds[i], x)
        {
          NotLessMonotone(ds[0], ds[i], x);
        }
        if |tail| > 0 {
          assert !LexLess(tail[0], x);
        }
      }
    }
  }

  /** In sorted dates, those at or before `x` form a prefix. */
  lemma {:induction false} SortedCountAtMost(ds: seq<string>, x: string) returns (p: nat)
    requires SortedDates(ds)
    ensures p == CountAtMost(ds, x)
    ensures forall i :: 0 <= i < p ==> !LexLess(x, ds[i])
    ensures forall i :: p <= i < |ds| ==> LexLess(x, ds[i])
    decreases |ds|
  {
    if ds == [] {
      p := 0;
    } else {
      var tail := ds[1..];
      assert forall i :: 0 <= i < |tail| ==> tail[i] == ds[i + 1];
      var q := SortedCountAtMost(tail, x);
      if !LexLess(x, ds[0]) {
        p := q + 1;
      } else {
        p := 0;
        forall i | 0 < i < |ds|
          ensures LexLess(x, ds[i])
        {
          LessLeTransitive(x, ds[0], ds[i]);
        }
        if |tail| > 0 {
          assert LexLess(x, tail[0]);
        }
      }
    }
  }
}
