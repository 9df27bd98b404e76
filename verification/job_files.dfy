/** Names in a job-history repository (job_history.py): the day a directory path
    names, and the job id a log file name carries. The two regular expressions
    are modelled as the token shapes they accept, tried left to right as
    `re.search` does. */
module JobFiles {
  import opened Common
  import opened Strings

  // ---------------------------------------------------------------------------
  // `DayPathRegex` = `((19|20)\d\d)/?(0[1-9]|10|11|12)/?([0][1-9]|[12][0-9]|30|31)`

  /** `((19|20)\d\d)`. */
  predicate IsYearText(y: string) {
    |y| == 4 && (y[..2] == "19" || y[..2] == "20") && IsDigit(y[2]) && IsDigit(y[3])
  }

  /** `(0[1-9]|10|11|12)`. */
  predicate IsMonthText(m: string) {
    |m| == 2 && ((m[0] == '0' && '1' <= m[1] <= '9') || m == "10" || m == "11" || m == "12")
  }

  /** `([0][1-9]|[12][0-9]|30|31)`: any day number up to 31, whatever the month. */
  predicate IsDayText(d: string) {
    |d| == 2 && ((d[0] == '0' && '1' <= d[1] <= '9') || ((d[0] == '1' || d[0] == '2') && IsDigit(d[1])) || d == "30" || d == "31")
  }

  /** The regular expression anchored at position `i`: year, month and day
      groups. Each part has a fixed width, and an optional `/` is taken whenever
      present (leaving it out would put `/` where a digit is needed), so there is
      at most one way to match. */
  function DayMatchAt(s: string, i: nat): (r: Option<(string, string, string)>)
    ensures r.Some? ==> IsYearText(r.value.0) && IsMonthText(r.value.1) && IsDayText(r.value.2)
  {
    if i + 4 > |s| || !IsYearText(s[i..i + 4]) then None
    else
      var p := if i + 4 < |s| && s[i + 4] == '/' then i + 5 else i + 4;
      if p + 2 > |s| || !IsMonthText(s[p..p + 2]) then None
      else
        var q := if p + 2 < |s| && s[p + 2] == '/' then p + 3 else p + 2;
        if q + 2 > |s| || !IsDayText(s[q..q + 2]) then None
        else Some((s[i..i + 4], s[p..p + 2], s[q..q + 2]))
  }

  /** The first position from `i` on where the day pattern matches. */
  function DaySearch(s: string, i: nat): (r: Option<nat>)
    requires i <= |s|
    ensures r.Some? ==> i <= r.value <= |s| && DayMatchAt(s, r.value).Some?
    ensures r.Some? ==> forall j :: i <= j < r.value ==> DayMatchAt(s, j).None?
    ensures r.None? ==> forall j :: i <= j <= |s| ==> DayMatchAt(s, j).None?
    decreases |s| - i
  {
    if DayMatchAt(s, i).Some? then Some(i)
    else if i == |s| then None
    else DaySearch(s, i + 1)
  }

  /** `parse_day_from_path(path)`: `YYYY-MM-DD` from the leftmost match, or None. */
  function ParseDayFromPath(path: string): (r: Option<string>)
    ensures r.None? <==> forall i :: 0 <= i <= |path| ==> DayMatchAt(path, i).None?
    ensures r.Some? ==> exists i :: 0 <= i <= |path| && LeftmostDay(path, i, r.value)
  {
    match DaySearch(path, 0)
    case None => None
    case Some(i) =>
      var m := DayMatchAt(path, i).value;
      var day := m.0 + "-" + m.1 + "-" + m.2;
      assert LeftmostDay(path, i, day);
      Some(day)
  }

  /** `day` is what the match at `i` renders, and nothing matches before `i`. */
  predicate LeftmostDay(path: string, i: nat, day: string) {
    && DayMatchAt(path, i).Some?
    && (forall j :: 0 <= j < i ==> DayMatchAt(path, j).None?)
    && var m := DayMatchAt(path, i).value;
       day == m.0 + "-" + m.1 + "-" + m.2
  }

  /** The text a match returns has the shape `YYYY-MM-DD`: a year in 1900-2099,
      a month 01-12 and a day 01-31. */
  lemma DayFromPathShape(path: string)
    requires ParseDayFromPath(path).Some?
    ensures var d := ParseDayFromPath(path).value;
            && |d| == 10 && d[4] == '-' && d[7] == '-'
            && IsYearText(d[..4]) && IsMonthText(d[5..7]) && IsDayText(d[8..])
  {
    var i := DaySearch(path, 0).value;
    var m := DayMatchAt(path, i).value;
    var d := ParseDayFromPath(path).value;
    assert d == m.0 + "-" + m.1 + "-" + m.2;
    assert d[..4] == m.0 && d[5..7] == m.1 && d[8..] == m.2;
  }

  /** The day is not checked against the month: `2013/02/31` gives `2013-02-31`. */
  lemma DayNotCheckedAgainstMonth()
    ensures ParseDayFromPath("/2013/02/31/job") == Some("2013-02-31")
  {
    var s := "/2013/02/31/job";
    assert DayMatchAt(s, 0).None? by {
      assert s[0..4] == "/201";
    }
    assert s[1..5] == "2013" && s[6..8] == "02" && s[9..11] == "31";
    assert DayMatchAt(s, 1) == Some(("2013", "02", "31"));
    assert DaySearch(s, 0) == Some(1);
    assert "2013" + "-" + "02" + "-" + "31" == "2013-02-31";
  }

  // ---------------------------------------------------------------------------
  // `JobIDInFileNameRegex` = `job_(\d+)_(\d+)_`

  /** A job-id match anchored at `i`: the two digit groups. The digit runs are
      taken whole, since a shorter run would leave a digit where `_` is needed. */
  function JobIdMatchAt(s: string, i: nat): (r: Option<(string, string)>)
    ensures r.Some? ==> IsDigitString(r.value.0) && IsDigitString(r.value.1)
    ensures r.Some? ==>
              && i + 6 + |r.value.0| + |r.value.1| <= |s|
              && s[i..i + 6 + |r.value.0| + |r.value.1|] == "job_" + r.value.0 + "_" + r.value.1 + "_"
  {
    if i + 4 > |s| || s[i..i + 4] != "job_" then None
    else
      var a := DigitRun(s, i + 4);
      if a == 0 || i + 4 + a == |s| || s[i + 4 + a] != '_' then None
      else
        var b := DigitRun(s, i + 5 + a);
        if b == 0 || i + 5 + a + b == |s| || s[i + 5 + a + b] != '_' then None
        else
          var d1, d2 := s[i + 4..i + 4 + a], s[i + 5 + a..i + 5 + a + b];
          MatchText(s, i, a, b);
          Some((d1, d2))
  }

  /** The text of a job-id match, piece by piece. */
  lemma MatchText(s: string, i: nat, a: nat, b: nat)
    requires i + 6 + a + b <= |s| && s[i..i + 4] == "job_"
    requires s[i + 4 + a] == '_' && s[i + 5 + a + b] == '_'
    ensures s[i..i + 6 + a + b] == "job_" + s[i + 4..i + 4 + a] + "_" + s[i + 5 + a..i + 5 + a + b] + "_"
  {
    var t := s[i..i + 6 + a + b];
    var u := "job_" + s[i + 4..i + 4 + a] + "_" + s[i + 5 + a..i + 5 + a + b] + "_";
    assert |t| == |u|;
    forall k | 0 <= k < |t|
      ensures t[k] == u[k]
    {
      assert t[k] == s[i + k];
      if k < 4 {
        assert s[i + k] == s[i..i + 4][k];
      } else if k < 4 + a {
        assert u[k] == s[i + 4..i + 4 + a][k - 4];
      } else if 5 + a <= k < 5 + a + b {
        assert u[k] == s[i + 5 + a..i + 5 + a + b][k - 5 - a];
      }
    }
  }

  function JobIdSearch(s: string, i: nat): (r: Option<nat>)
    requires i <= |s|
    ensures r.Some? ==> i <= r.value <= |s| && JobIdMatchAt(s, r.value).Some?
    ensures r.Some? ==> forall j :: i <= j < r.value ==> JobIdMatchAt(s, j).None?
    ensures r.None? ==> forall j :: i <= j <= |s| ==> JobIdMatchAt(s, j).None?
    decreases |s| - i
  {
    if JobIdMatchAt(s, i).Some? then Some(i)
    else if i == |s| then None
    else JobIdSearch(s, i + 1)
  }

  /** Names the repository scan skips before looking for an id. */
  predicate IsSideFile(f: string) {
    EndsWith(f, ".xml") || EndsWith(f, ".crc")
  }

  /** The digit groups of the leftmost id in a log file name. */
  function JobIdGroups(f: string): (r: Option<(string, string)>)
    ensures r.None? <==> IsSideFile(f) || forall i :: 0 <= i <= |f| ==> JobIdMatchAt(f, i).None?
    ensures r.Some? ==> exists i :: 0 <= i <= |f| && JobIdMatchAt(f, i) == r
                          && forall j :: 0 <= j < i ==> JobIdMatchAt(f, j).None?
  {
    if IsSideFile(f) then None
    else
      match JobIdSearch(f, 0)
      case None => None
      case Some(i) => JobIdMatchAt(f, i)
  }

  /** `parse_jobid_from_filename(f)`: the matched `job_<d1>_<d2>_` without its
      first and last characters, so `ob_<d1>_<d2>` (the `j` is dropped too). */
  function ParseJobIdFromFilename(f: string): (r: Option<string>)
    ensures r.None? <==> JobIdGroups(f).None?
    ensures r.Some? ==> r.value == "ob_" + JobIdGroups(f).value.0 + "_" + JobIdGroups(f).value.1
  {
    match JobIdGroups(f)
    case None => None
    case Some(g) =>
      var m := "job_" + g.0 + "_" + g.1 + "_";
      MatchInner(g.0, g.1);
      Some(m[1..|m| - 1])
  }

  /** `match.group(0)[1:-1]` of a job-id match. */
  lemma MatchInner(d1: string, d2: string)
    ensures var m := "job_" + d1 + "_" + d2 + "_";
            m[1..|m| - 1] == "ob_" + d1 + "_" + d2
  {
    var inner := "ob_" + d1 + "_" + d2;
    var m := "job_" + d1 + "_" + d2 + "_";
    assert m == ['j'] + inner + ['_'];
    assert (['j'] + inner + ['_'])[1..|inner| + 1] == inner;
  }

  /** `parse_jobid_from_filename2(f)`: the two digit groups as integers. */
  function ParseJobIdFromFilename2(f: string): (r: Option<(nat, nat)>)
    ensures r.None? <==> JobIdGroups(f).None?
    ensures r.Some? ==> r.value == (ParseDigits(JobIdGroups(f).value.0), ParseDigits(JobIdGroups(f).value.1))
  {
    match JobIdGroups(f)
    case None => None
    case Some(g) => Some((ParseDigits(g.0), ParseDigits(g.1)))
  }

  /** The two id parsers accept the same names, and the string id splits on `_`
      into `ob` and the two numbers the tuple id holds. */
  lemma JobIdParsersAgree(f: string)
    ensures ParseJobIdFromFilename(f).None? <==> ParseJobIdFromFilename2(f).None?
    ensures ParseJobIdFromFilename(f).Some? ==>
              var parts := Split(ParseJobIdFromFilename(f).value, '_');
              && |parts| == 3 && parts[0] == "ob"
              && ParseInt(parts[1]) == Some(ParseJobIdFromFilename2(f).value.0 as int)
              && ParseInt(parts[2]) == Some(ParseJobIdFromFilename2(f).value.1 as int)
  {
    if JobIdGroups(f).Some? {
      var g := JobIdGroups(f).value;
      SplitJobId(g.0, g.1);
    }
  }

  /** `ob_<d1>_<d2>` splits on `_` into its three parts. */
  lemma SplitJobId(d1: string, d2: string)
    requires IsDigitString(d1) && IsDigitString(d2)
    ensures Split("ob_" + d1 + "_" + d2, '_') == ["ob", d1, d2]
  {
    DigitsHaveNoUnderscore(d1);
    DigitsHaveNoUnderscore(d2);
    var tail := d1 + ['_'] + d2;
    assert "ob_" + d1 + "_" + d2 == "ob" + ['_'] + tail;
    SplitAfterPiece("ob", tail, '_');
    SplitAfterPiece(d1, d2, '_');
    SplitNoSeparator(d2, '_');
  }

  lemma DigitsHaveNoUnderscore(d: string)
    requires IsDigitString(d)
    ensures '_' !in d
  {
    assert forall k :: 0 <= k < |d| ==> IsDigit(d[k]);
  }

  /** Side files are skipped even when they carry an id. */
  lemma SideFilesHaveNoId()
    ensures ParseJobIdFromFilename("job_201301010000_0001_conf.xml").None?
    ensures ParseJobIdFromFilename2("job_201301010000_0001_conf.xml").None?
  {
  }
}
