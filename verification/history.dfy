/** The fold of `parse_history` (job_history.py): a job-history log, line by
    line, into the job's fields, its task ids, its task attempts and the mean
    run time of the successful map and reduce attempts. `ParseHistory` reads
    each line with `parse_history_record`'s pattern as written, which cuts a
    value at an escaped quote; `ParseHistoryCorrected` reads it with the
    pattern as intended, which keeps escaped quotes in values (see the
    `HistoryRecord` module for both). */
module History {
  import opened Common
  import opened Strings
  import opened HistoryRecord

  // ---------------------------------------------------------------------------
  // Numbers read from field values.

  /** `n / d` rounded to the nearest integer, halves away from zero, as
      Python 2's `round` does. */
  function RoundDiv(n: int, d: nat): (r: int)
    requires d > 0
    ensures -(d as int) <= 2 * (n - r * d) <= d
    ensures 2 * (n - r * d) == d ==> n < 0
    ensures 2 * (n - r * d) == -(d as int) ==> n > 0
  {
    if n >= 0 then
      var q := (2 * n + d) / (2 * d);
      DivBounds(2 * n + d, 2 * d);
      q
    else
      var q := (-2 * n + d) / (2 * d);
      DivBounds(-2 * n + d, 2 * d);
      -q
  }

  /** Euclidean division of naturals, spelled out for the solver. */
  lemma DivBounds(a: nat, b: nat)
    requires b > 0
    ensures (a / b) * b <= a < (a / b) * b + b
  {
  }

  /** `int(round(float(v) / 1000))`: milliseconds to whole seconds. None when
      `float()` does not read `v` as an integer. */
  function MsToSeconds(v: string): (r: Option<int>)
    ensures ParseWholeFloat(v).None? <==> r.None?
    ensures r.Some? ==> -1000 <= 2 * (ParseWholeFloat(v).value - 1000 * r.value) <= 1000
    ensures r.Some? && 2 * (ParseWholeFloat(v).value - 1000 * r.value) == 1000 ==> ParseWholeFloat(v).value < 0
    ensures r.Some? && 2 * (ParseWholeFloat(v).value - 1000 * r.value) == -1000 ==> ParseWholeFloat(v).value > 0
  {
    match ParseWholeFloat(v)
    case None => None
    case Some(n) => Some(RoundDiv(n, 1000))
  }

  /** `0 if count == 0 else round(float(total) / count, 1)`, in tenths. */
  function MeanTenths(total: int, count: nat): (r: int)
    ensures count == 0 ==> r == 0
    ensures count > 0 ==> -(count as int) <= 2 * (10 * total - r * count) <= count
  {
    if count == 0 then 0 else RoundDiv(10 * total, count)
  }

  // ---------------------------------------------------------------------------
  // The dictionaries `parse_history` fills, as records.

  /** What went wrong: a record without a key the code indexes, a dictionary
      without a key the summary indexes, or a value `int()`/`float()` rejects
      (or too few `_` parts in an attempt id). */
  datatype HistoryError = MissingRecordKey(key: string) | MissingField(field: string) | BadValue(key: string)

  /** The job-level fields of the result. `failed_maps` and `failed_reduces`
      start at 0 since a killed job may never write them. */
  datatype Job = Job(
    jobid: Option<string>, user: Option<string>, jobStatus: Option<string>,
    jobPriority: Option<string>, jobname: Option<string>,
    submitTime: Option<int>, launchTime: Option<int>, finishTime: Option<int>,
    totalMaps: Option<int>, totalReduces: Option<int>,
    finishedMaps: Option<int>, finishedReduces: Option<int>,
    failedMaps: int, failedReduces: int,
    counters: map<string, nat>)

  const NoJob := Job(None, None, None, None, None, None, None, None, None, None, None, None, 0, 0, map[])

  /** One task attempt's dictionary. */
  datatype Attempt = Attempt(
    id: Option<string>, taskIndex: Option<int>, attemptIndex: Option<int>,
    status: Option<string>, taskType: Option<string>, hostname: Option<string>,
    startTime: Option<int>, finishTime: Option<int>,
    shuffleFinished: Option<int>, sortFinished: Option<int>,
    counters: map<string, nat>)

  const NoAttempt := Attempt(None, None, None, None, None, None, None, None, None, None, map[])

  /** The tallies behind `map_avg_time` and `reduce_avg_time`. */
  datatype Averages = Averages(mapCount: nat, mapTime: int, reduceCount: nat, reduceTime: int) {
    function MapAvgTenths(): int {
      MeanTenths(mapTime, mapCount)
    }
    function ReduceAvgTenths(): int {
      MeanTenths(reduceTime, reduceCount)
    }
  }

  /** The whole result. `order` lists the attempt ids in the order they were
      first seen, standing in for the dictionary's iteration order, which the
      summary follows; `averages` is None when a shallow parse returned before
      the summary. */
  datatype History = History(job: Job, tasks: set<string>, attempts: map<string, Attempt>,
                             order: seq<string>, averages: Option<Averages>)

  const Initial := History(NoJob, {}, map[], [], None)

  /** `order` lists each attempt id exactly once. */
  predicate Listed(h: History) {
    && (forall k :: k in h.order ==> k in h.attempts)
    && (forall k :: k in h.attempts ==> k in h.order)
    && (forall i, j :: 0 <= i < j < |h.order| ==> h.order[i] != h.order[j])
  }

  // ---------------------------------------------------------------------------
  // `update_job` and `update_attempt`. Each key sets its own field, so the
  // order in which the record is walked changes nothing but which bad value is
  // reported first.

  /** A text field: the record's value when present, else the old one. */
  function TextField(rec: map<string, string>, key: string, prior: Option<string>): (r: Option<string>)
    ensures key in rec ==> r == Some(rec[key])
    ensures key !in rec ==> r == prior
  {
    if key in rec then Some(rec[key]) else prior
  }

  /** A time field: milliseconds in the record, whole seconds in the result. */
  function TimeField(rec: map<string, string>, key: string, prior: Option<int>): (r: Result<Option<int>, HistoryError>)
    ensures key !in rec ==> r == Success(prior)
    ensures key in rec ==> (r.Failure? <==> MsToSeconds(rec[key]).None?)
    ensures key in rec && r.Success? ==> r.value == MsToSeconds(rec[key])
  {
    if key !in rec then Success(prior)
    else
      match MsToSeconds(rec[key])
      case None => Failure(BadValue(key))
      case Some(s) => Success(Some(s))
  }

  /** A count field: `int(v)`. */
  function CountField(rec: map<string, string>, key: string, prior: int): (r: Result<int, HistoryError>)
    ensures key !in rec ==> r == Success(prior)
    ensures key in rec ==> (r.Failure? <==> ParseInt(rec[key]).None?)
    ensures key in rec && r.Success? ==> Some(r.value) == ParseInt(rec[key])
  {
    if key !in rec then Success(prior)
    else
      match ParseInt(rec[key])
      case None => Failure(BadValue(key))
      case Some(n) => Success(n)
  }

  /** A count field that has no default. */
  function OptCountField(rec: map<string, string>, key: string, prior: Option<int>): (r: Result<Option<int>, HistoryError>)
    ensures key !in rec ==> r == Success(prior)
    ensures key in rec ==> (r.Failure? <==> ParseInt(rec[key]).None?)
    ensures key in rec && r.Success? ==> r.value == ParseInt(rec[key])
  {
    if key !in rec then Success(prior)
    else
      match ParseInt(rec[key])
      case None => Failure(BadValue(key))
      case Some(n) => Success(Some(n))
  }

  /** `COUNTERS`: the parsed counters are written over the old ones. */
  function MergeCounters(rec: map<string, string>, prior: map<string, nat>): (r: map<string, nat>)
    ensures "COUNTERS" !in rec ==> r == prior
    ensures "COUNTERS" in rec ==> r.Keys == prior.Keys + ParseCounters(rec["COUNTERS"]).Keys
    ensures "COUNTERS" in rec ==> forall k :: k in ParseCounters(rec["COUNTERS"]) ==> r[k] == ParseCounters(rec["COUNTERS"])[k]
  {
    if "COUNTERS" in rec then prior + ParseCounters(rec["COUNTERS"]) else prior
  }

  /** The record holds `key` with a value that `int()` rejects. */
  predicate Rejects(rec: map<string, string>, key: string) {
    key in rec && ParseInt(rec[key]).None?
  }

  /** The record holds the time `key` with a value that `float()` does not
      read as an integer. */
  predicate RejectsTime(rec: map<string, string>, key: string) {
    key in rec && ParseWholeFloat(rec[key]).None?
  }

  /** The three time fields of `update_job`. */
  function JobTimes(job: Job, rec: map<string, string>): (r: Result<Job, HistoryError>)
    ensures r.Failure? <==> RejectsTime(rec, "SUBMIT_TIME") || RejectsTime(rec, "LAUNCH_TIME") || RejectsTime(rec, "FINISH_TIME")
    ensures r.Success? ==> r.value == job.(submitTime := TimeField(rec, "SUBMIT_TIME", job.submitTime).value,
                                           launchTime := TimeField(rec, "LAUNCH_TIME", job.launchTime).value,
                                           finishTime := TimeField(rec, "FINISH_TIME", job.finishTime).value)
  {
    var submit :- TimeField(rec, "SUBMIT_TIME", job.submitTime);
    var launch :- TimeField(rec, "LAUNCH_TIME", job.launchTime);
    var finish :- TimeField(rec, "FINISH_TIME", job.finishTime);
    Success(job.(submitTime := submit, launchTime := launch, finishTime := finish))
  }

  /** The six count fields of `update_job`. */
  function JobCounts(job: Job, rec: map<string, string>): (r: Result<Job, HistoryError>)
    ensures r.Failure? <==> || Rejects(rec, "TOTAL_MAPS") || Rejects(rec, "TOTAL_REDUCES")
                            || Rejects(rec, "FINISHED_MAPS") || Rejects(rec, "FINISHED_REDUCES")
                            || Rejects(rec, "FAILED_MAPS") || Rejects(rec, "FAILED_REDUCES")
    ensures r.Success? ==> r.value.failedMaps == CountField(rec, "FAILED_MAPS", job.failedMaps).value
    ensures r.Success? ==> r.value.failedReduces == CountField(rec, "FAILED_REDUCES", job.failedReduces).value
    ensures r.Success? ==> r.value.submitTime == job.submitTime
  {
    var totalMaps :- OptCountField(rec, "TOTAL_MAPS", job.totalMaps);
    var totalReduces :- OptCountField(rec, "TOTAL_REDUCES", job.totalReduces);
    var finishedMaps :- OptCountField(rec, "FINISHED_MAPS", job.finishedMaps);
    var finishedReduces :- OptCountField(rec, "FINISHED_REDUCES", job.finishedReduces);
    var failedMaps :- CountField(rec, "FAILED_MAPS", job.failedMaps);
    var failedReduces :- CountField(rec, "FAILED_REDUCES", job.failedReduces);
    Success(job.(totalMaps := totalMaps, totalReduces := totalReduces,
                 finishedMaps := finishedMaps, finishedReduces := finishedReduces,
                 failedMaps := failedMaps, failedReduces := failedReduces))
  }

  /** `update_job(job, record)`: fails exactly when a time field is not integer
      text for `float()` or a count field is not integer text for `int()`; `failed_maps` and `failed_reduces` change only when the record
      carries them. `JOBNAME` is kept as written. */
  function UpdateJob(job: Job, rec: map<string, string>): (r: Result<Job, HistoryError>)
    ensures r.Failure? <==> BadJobValue(rec)
    ensures r.Success? ==> "FAILED_MAPS" in rec ==> Some(r.value.failedMaps) == ParseInt(rec["FAILED_MAPS"])
    ensures r.Success? ==> "FAILED_MAPS" !in rec ==> r.value.failedMaps == job.failedMaps
    ensures r.Success? ==> "FAILED_REDUCES" in rec ==> Some(r.value.failedReduces) == ParseInt(rec["FAILED_REDUCES"])
    ensures r.Success? ==> "FAILED_REDUCES" !in rec ==> r.value.failedReduces == job.failedReduces
    ensures r.Success? ==> r.value.submitTime == (if "SUBMIT_TIME" in rec then MsToSeconds(rec["SUBMIT_TIME"]) else job.submitTime)
  {
    var timed :- JobTimes(job, rec);
    var counted :- JobCounts(timed, rec);
    Success(counted.(
      jobid := TextField(rec, "JOBID", job.jobid), user := TextField(rec, "USER", job.user),
      jobStatus := TextField(rec, "JOB_STATUS", job.jobStatus),
      jobPriority := TextField(rec, "JOB_PRIORITY", job.jobPriority),
      jobname := TextField(rec, "JOBNAME", job.jobname),
      counters := MergeCounters(rec, job.counters)))
  }

  /** Some time field of a job record is not integer text for `float()`, or
      some count field is not integer text for `int()`. */
  predicate BadJobValue(rec: map<string, string>) {
    || RejectsTime(rec, "SUBMIT_TIME") || RejectsTime(rec, "LAUNCH_TIME") || RejectsTime(rec, "FINISH_TIME")
    || Rejects(rec, "TOTAL_MAPS") || Rejects(rec, "TOTAL_REDUCES")
    || Rejects(rec, "FINISHED_MAPS") || Rejects(rec, "FINISHED_REDUCES")
    || Rejects(rec, "FAILED_MAPS") || Rejects(rec, "FAILED_REDUCES")
  }

  /** `update_attempt(attempt, record)`. */
  function UpdateAttempt(a: Attempt, rec: map<string, string>): (r: Result<Attempt, HistoryError>)
    ensures r.Success? && "TASK_ATTEMPT_ID" in rec ==>
              && r.value.id == Some(rec["TASK_ATTEMPT_ID"])
              && AttemptIndices(rec["TASK_ATTEMPT_ID"]).Some?
              && r.value.taskIndex == Some(AttemptIndices(rec["TASK_ATTEMPT_ID"]).value.0)
              && r.value.attemptIndex == Some(AttemptIndices(rec["TASK_ATTEMPT_ID"]).value.1)
    ensures r.Success? && "TASK_ATTEMPT_ID" !in rec ==>
              r.value.id == a.id && r.value.taskIndex == a.taskIndex && r.value.attemptIndex == a.attemptIndex
    ensures r.Success? ==> r.value.status == TextField(rec, "TASK_STATUS", a.status)
    ensures r.Success? ==> r.value.taskType == TextField(rec, "TASK_TYPE", a.taskType)
    ensures r.Failure? <==> BadAttemptValue(rec)
  {
    var idx :- if "TASK_ATTEMPT_ID" !in rec then Success((a.taskIndex, a.attemptIndex))
               else match AttemptIndices(rec["TASK_ATTEMPT_ID"])
                    case None => Failure(BadValue("TASK_ATTEMPT_ID"))
                    case Some(p) => Success((Some(p.0), Some(p.1)));
    var start :- TimeField(rec, "START_TIME", a.startTime);
    var finish :- TimeField(rec, "FINISH_TIME", a.finishTime);
    var shuffle :- TimeField(rec, "SHUFFLE_FINISHED", a.shuffleFinished);
    var sort :- TimeField(rec, "SORT_FINISHED", a.sortFinished);
    Success(Attempt(
      TextField(rec, "TASK_ATTEMPT_ID", a.id), idx.0, idx.1,
      TextField(rec, "TASK_STATUS", a.status), TextField(rec, "TASK_TYPE", a.taskType),
      TextField(rec, "HOSTNAME", a.hostname),
      start, finish, shuffle, sort, MergeCounters(rec, a.counters)))
  }

  /** The attempt id has fewer than two parts or a non-integer index, or a
      time field is not integer text for `float()`. */
  predicate BadAttemptValue(rec: map<string, string>) {
    || ("TASK_ATTEMPT_ID" in rec && AttemptIndices(rec["TASK_ATTEMPT_ID"]).None?)
    || RejectsTime(rec, "START_TIME") || RejectsTime(rec, "FINISH_TIME")
    || RejectsTime(rec, "SHUFFLE_FINISHED") || RejectsTime(rec, "SORT_FINISHED")
  }

  // ---------------------------------------------------------------------------
  // One line of the log.

  /** How the loop treats a line, by its record type. */
  datatype Kind = Meta | JobLine | TaskLine | AttemptLine | OtherLine

  function KindOf(rtype: string): Kind {
    if rtype == "META" then Meta
    else if rtype == "Job" then JobLine
    else if rtype == "Task" then TaskLine
    else if rtype == "MapAttempt" || rtype == "ReduceAttempt" then AttemptLine
    else OtherLine
  }

  /** A parsed line: it always names its type. */
  type Rec = m: map<string, string> | "_TYPE_" in m witness map["_TYPE_" := ""]

  function KindOfRec(rec: Rec): Kind {
    KindOf(rec["_TYPE_"])
  }

  /** Every line of the log through `parse_history_record`; `escaped` picks
      the lexer (false: the pattern as written). */
  function Records(lines: seq<string>, escaped: bool): (r: seq<Rec>)
    ensures |r| == |lines| && forall i :: 0 <= i < |lines| ==> r[i] == RecordOf(lines[i], escaped)
  {
    seq(|lines|, i requires 0 <= i < |lines| => RecordOf(lines[i], escaped))
  }

  /** Whether the loop goes on after a line or returns at once. */
  datatype Outcome = Continue(h: History) | Stop(h: History)

  /** `ret.get('submit_time')` is truthy. */
  predicate Submitted(j: Job) {
    j.submitTime.Some? && j.submitTime.value != 0
  }

  /** The body of the loop of `parse_history` for one parsed record. */
  function Step(h: History, rec: Rec, shallow: bool): (r: Result<Outcome, HistoryError>)
    ensures KindOf(rec["_TYPE_"]) in {Meta, OtherLine} ==> r == Success(Continue(h))
    ensures r.Success? && r.value.Stop? ==> shallow && KindOf(rec["_TYPE_"]) == JobLine && Submitted(r.value.h.job)
    ensures r.Success? && r.value.Continue? && shallow && KindOf(rec["_TYPE_"]) == JobLine ==> !Submitted(r.value.h.job)
    ensures Listed(h) && r.Success? ==> Listed(r.value.h)
    ensures r.Success? ==> r.value.h.averages == h.averages && h.tasks <= r.value.h.tasks
    ensures r.Success? && KindOf(rec["_TYPE_"]) != JobLine ==> r.value.h.job == h.job
  {
    match KindOf(rec["_TYPE_"])
    case Meta => Success(Continue(h))
    case OtherLine => Success(Continue(h))
    case JobLine =>
      var job :- UpdateJob(h.job, rec);
      var h' := h.(job := job);
      if shallow && Submitted(job) then Success(Stop(h')) else Success(Continue(h'))
    case TaskLine =>
      if "TASKID" !in rec then Failure(MissingRecordKey("TASKID"))
      else Success(Continue(h.(tasks := h.tasks + {Simplify(rec["TASKID"])})))
    case AttemptLine =>
      if "TASK_ATTEMPT_ID" !in rec then Failure(MissingRecordKey("TASK_ATTEMPT_ID"))
      else
        var aid := Simplify(rec["TASK_ATTEMPT_ID"]);
        var a :- UpdateAttempt(if aid in h.attempts then h.attempts[aid] else NoAttempt, rec);
        Success(Continue(Record(h, aid, a)))
  }

  /** `attempts[aid] = a`, with `aid` appended to the order the first time it
      is seen. */
  function Record(h: History, aid: string, a: Attempt): (h': History)
    ensures Listed(h) ==> Listed(h')
    ensures aid in h'.attempts && h'.attempts[aid] == a
    ensures h'.job == h.job && h'.tasks == h.tasks && h'.averages == h.averages
  {
    var known := aid in h.attempts;
    var h' := h.(attempts := h.attempts[aid := a], order := if known then h.order else h.order + [aid]);
    assert Listed(h) ==> Listed(h') by {
      if Listed(h) && !known {
        assert forall i :: 0 <= i < |h.order| ==> h.order[i] in h.attempts;
      }
    }
    h'
  }

  /** The loop over the parsed lines, from state `h`. */
  function Fold(h: History, recs: seq<Rec>, shallow: bool): (r: Result<Outcome, HistoryError>)
    ensures Listed(h) && r.Success? ==> Listed(r.value.h)
    ensures r.Success? ==> r.value.h.averages == h.averages
    ensures !shallow && r.Success? ==> r.value.Continue?
    decreases |recs|
  {
    if recs == [] then Success(Continue(h))
    else
      var o :- Step(h, recs[0], shallow);
      match o
      case Stop(h') => Success(Stop(h'))
      case Continue(h') => Fold(h', recs[1..], shallow)
  }

  // ---------------------------------------------------------------------------
  // The summary after the loop.

  /** The attempt counts as a successful one of `taskType`. */
  predicate SucceededAs(a: Attempt, taskType: string) {
    a.status == Some("SUCCESS") && a.taskType == Some(taskType)
  }

  /** How long an attempt ran, `finish_time - start_time`, when both are known. */
  function Duration(a: Attempt): int {
    if a.finishTime.Some? && a.startTime.Some? then a.finishTime.value - a.startTime.value else 0
  }

  /** One attempt's share of the tallies, or the KeyError it raises. */
  function Contribution(a: Attempt): (r: Result<Averages, HistoryError>)
    ensures r.Failure? <==> a.status == Some("SUCCESS") &&
                            (a.taskType.None? || ((SucceededAs(a, "MAP") || SucceededAs(a, "REDUCE")) &&
                                                  (a.finishTime.None? || a.startTime.None?)))
    ensures r.Success? ==> r.value.mapCount == (if SucceededAs(a, "MAP") then 1 else 0)
    ensures r.Success? ==> r.value.reduceCount == (if SucceededAs(a, "REDUCE") then 1 else 0)
    ensures r.Success? ==> r.value.mapTime == (if SucceededAs(a, "MAP") then Duration(a) else 0)
    ensures r.Success? ==> r.value.reduceTime == (if SucceededAs(a, "REDUCE") then Duration(a) else 0)
    ensures a.status != Some("SUCCESS") ==> r == Success(Averages(0, 0, 0, 0))
  {
    if a.status != Some("SUCCESS") then Success(Averages(0, 0, 0, 0))
    else if a.taskType.None? then Failure(MissingField("task_type"))
    else if a.taskType.value != "MAP" && a.taskType.value != "REDUCE" then Success(Averages(0, 0, 0, 0))
    else if a.finishTime.None? then Failure(MissingField("finish_time"))
    else if a.startTime.None? then Failure(MissingField("start_time"))
    else
      var t := a.finishTime.value - a.startTime.value;
      if a.taskType.value == "MAP" then Success(Averages(1, t, 0, 0)) else Success(Averages(0, 0, 1, t))
  }

  function Add(x: Averages, y: Averages): Averages {
    Averages(x.mapCount + y.mapCount, x.mapTime + y.mapTime, x.reduceCount + y.reduceCount, x.reduceTime + y.reduceTime)
  }

  /** The summary loop over the attempts `ks`, in that order. */
  function Tally(attempts: map<string, Attempt>, ks: seq<string>): (r: Result<Averages, HistoryError>)
    requires forall k :: k in ks ==> k in attempts
    decreases |ks|
  {
    if ks == [] then Success(Averages(0, 0, 0, 0))
    else
      var c :- Contribution(attempts[ks[0]]);
      var rest :- Tally(attempts, ks[1..]);
      Success(Add(c, rest))
  }

  /** The ids among `ks` of attempts that succeeded as `taskType`. */
  function SucceededIn(attempts: map<string, Attempt>, ks: seq<string>, taskType: string): set<string> {
    set k | k in ks && k in attempts && SucceededAs(attempts[k], taskType)
  }

  /** What `parse_history` returns once the loop is over: the state itself
      after an early return, else the state with its averages. */
  function Finish(o: Outcome): (r: Result<History, HistoryError>)
    requires Listed(o.h)
    ensures r.Success? ==> Listed(r.value)
    ensures o.Stop? ==> r == Success(o.h)
    ensures o.Continue? && r.Success? ==> r.value.averages.Some?
  {
    match o
    case Stop(h) => Success(h)
    case Continue(h) =>
      var avg :- Tally(h.attempts, h.order);
      Success(h.(averages := Some(avg)))
  }

  /** The whole parse with either lexer: the loop, then the summary. */
  function ParseLog(lines: seq<string>, shallow: bool, escaped: bool): (r: Result<History, HistoryError>)
    ensures r.Success? ==> Listed(r.value)
    ensures r.Success? && !shallow ==> r.value.averages.Some?
  {
    var o :- Fold(Initial, Records(lines, escaped), shallow);
    Finish(o)
  }

  /** `parse_history(fin, shallow)` as written. */
  function ParseHistory(lines: seq<string>, shallow: bool): (r: Result<History, HistoryError>)
    ensures r.Success? ==> Listed(r.value)
    ensures r.Success? && !shallow ==> r.value.averages.Some?
  {
    ParseLog(lines, shallow, false)
  }

  /** `parse_history(fin, shallow)` with escaped quotes kept inside values. */
  function ParseHistoryCorrected(lines: seq<string>, shallow: bool): (r: Result<History, HistoryError>)
    ensures r.Success? ==> Listed(r.value)
    ensures r.Success? && !shallow ==> r.value.averages.Some?
  {
    ParseLog(lines, shallow, true)
  }

  // ---------------------------------------------------------------------------
  // Properties of the loop.

  /** The two lexers give different results only for a log with a line that
      holds `\"`. */
  lemma NoEscapedQuoteSameHistory(lines: seq<string>, shallow: bool)
    requires forall i :: 0 <= i < |lines| ==> NoEscapedQuote(lines[i])
    ensures ParseHistoryCorrected(lines, shallow) == ParseHistory(lines, shallow)
  {
    forall i | 0 <= i < |lines|
      ensures RecordOf(lines[i], true) == RecordOf(lines[i], false)
    {
      NoEscapedQuoteSameRecord(lines[i]);
    }
    assert Records(lines, true) == Records(lines, false);
  }

  /** Parsing is line by line. */
  lemma RecordsAppend(a: seq<string>, b: seq<string>, escaped: bool)
    ensures Records(a + b, escaped) == Records(a, escaped) + Records(b, escaped)
  {
  }

  /** A META record, or one of a type the loop does not know, changes nothing
      wherever it stands. */
  lemma {:induction false} IgnoredRecordFold(h: History, pre: seq<Rec>, rec: Rec, post: seq<Rec>, shallow: bool)
    requires KindOfRec(rec) in {Meta, OtherLine}
    ensures Fold(h, pre + [rec] + post, shallow) == Fold(h, pre + post, shallow)
    decreases |pre|
  {
    if pre == [] {
      assert pre + [rec] + post == [rec] + post && pre + post == post;
      IgnoredFirst(h, rec, post, shallow);
    } else {
      var x := pre + [rec] + post;
      var y := pre + post;
      assert x[0] == pre[0] && y[0] == pre[0];
      assert x[1..] == pre[1..] + [rec] + post;
      assert y[1..] == pre[1..] + post;
      FoldFirst(h, x, shallow);
      FoldFirst(h, y, shallow);
      var s := Step(h, pre[0], shallow);
      if s.Success? && s.value.Continue? {
        IgnoredRecordFold(s.value.h, pre[1..], rec, post, shallow);
      }
    }
  }

  /** The first record of a non-empty log. */
  lemma FoldFirst(h: History, recs: seq<Rec>, shallow: bool)
    requires recs != []
    ensures Fold(h, recs, shallow) == match Step(h, recs[0], shallow)
                                      case Failure(e) => Failure(e)
                                      case Success(Stop(h')) => Success(Stop(h'))
                                      case Success(Continue(h')) => Fold(h', recs[1..], shallow)
  {
  }

  lemma IgnoredFirst(h: History, rec: Rec, post: seq<Rec>, shallow: bool)
    requires KindOfRec(rec) in {Meta, OtherLine}
    ensures Fold(h, [rec] + post, shallow) == Fold(h, post, shallow)
  {
    assert Step(h, rec, shallow) == Success(Continue(h));
    assert ([rec] + post)[1..] == post;
    FoldFirst(h, [rec] + post, shallow);
  }

  /** A META line, or a line of a type the loop does not know, can be removed
      from the log without changing the result. */
  lemma IgnoredLine(pre: seq<string>, line: string, post: seq<string>, shallow: bool, escaped: bool)
    requires KindOfRec(RecordOf(line, escaped)) in {Meta, OtherLine}
    ensures ParseLog(pre + [line] + post, shallow, escaped) == ParseLog(pre + post, shallow, escaped)
  {
    RecordsAppend(pre + [line], post, escaped);
    RecordsAppend(pre, [line], escaped);
    RecordsAppend(pre, post, escaped);
    assert Records([line], escaped) == [RecordOf(line, escaped)];
    assert Records(pre + [line] + post, escaped) == Records(pre, escaped) + [RecordOf(line, escaped)] + Records(post, escaped);
    IgnoredRecordFold(Initial, Records(pre, escaped), RecordOf(line, escaped), Records(post, escaped), shallow);
  }

  /** Once a shallow parse has returned, the rest of the log is never read. */
  lemma {:induction false} ShallowStopFold(h: History, recs: seq<Rec>, post: seq<Rec>)
    requires Fold(h, recs, true).Success? && Fold(h, recs, true).value.Stop?
    ensures Fold(h, recs + post, true) == Fold(h, recs, true)
    decreases |recs|
  {
    assert recs != [];
    assert (recs + post)[0] == recs[0] && (recs + post)[1..] == recs[1..] + post;
    var o := Step(h, recs[0], true).value;
    if o.Continue? {
      ShallowStopFold(o.h, recs[1..], post);
    }
  }

  /** A shallow parse that stops does so at a job line giving a nonzero submit
      time; whatever follows is ignored and no averages are computed. */
  lemma {:induction false} ShallowStopsAtSubmit(h: History, recs: seq<Rec>)
    requires Fold(h, recs, true).Success? && Fold(h, recs, true).value.Stop?
    ensures Submitted(Fold(h, recs, true).value.h.job)
    decreases |recs|
  {
    var o := Step(h, recs[0], true).value;
    if o.Continue? {
      ShallowStopsAtSubmit(o.h, recs[1..]);
    }
  }

  lemma ShallowStop(lines: seq<string>, post: seq<string>, escaped: bool)
    requires Fold(Initial, Records(lines, escaped), true).Success? && Fold(Initial, Records(lines, escaped), true).value.Stop?
    ensures ParseLog(lines + post, true, escaped) == ParseLog(lines, true, escaped)
    ensures ParseLog(lines, true, escaped).Success? && ParseLog(lines, true, escaped).value.averages.None?
    ensures Submitted(ParseLog(lines, true, escaped).value.job)
  {
    RecordsAppend(lines, post, escaped);
    ShallowStopFold(Initial, Records(lines, escaped), Records(post, escaped));
    ShallowStopsAtSubmit(Initial, Records(lines, escaped));
  }

  /** With no job record carrying `FAILED_MAPS`, `failed_maps` keeps its value. */
  lemma {:induction false} FailedMapsFold(h: History, recs: seq<Rec>, shallow: bool)
    requires forall i :: 0 <= i < |recs| && KindOfRec(recs[i]) == JobLine ==> "FAILED_MAPS" !in recs[i]
    requires Fold(h, recs, shallow).Success?
    ensures Fold(h, recs, shallow).value.h.job.failedMaps == h.job.failedMaps
    decreases |recs|
  {
    if recs != [] {
      var o := Step(h, recs[0], shallow).value;
      assert o.h.job.failedMaps == h.job.failedMaps;
      if o.Continue? {
        assert forall i :: 0 <= i < |recs[1..]| ==> recs[1..][i] == recs[i + 1];
        FailedMapsFold(o.h, recs[1..], shallow);
      }
    }
  }

  /** `failed_maps` is 0 unless some job line of the log carries it. */
  lemma FailedMapsDefault(lines: seq<string>, shallow: bool, escaped: bool)
    requires forall i :: 0 <= i < |lines| && KindOfRec(RecordOf(lines[i], escaped)) == JobLine ==>
               "FAILED_MAPS" !in RecordOf(lines[i], escaped)
    requires ParseLog(lines, shallow, escaped).Success?
    ensures ParseLog(lines, shallow, escaped).value.job.failedMaps == 0
  {
    FailedMapsFold(Initial, Records(lines, escaped), shallow);
  }

  /** With no job record carrying `FAILED_REDUCES`, `failed_reduces` keeps its value. */
  lemma {:induction false} FailedReducesFold(h: History, recs: seq<Rec>, shallow: bool)
    requires forall i :: 0 <= i < |recs| && KindOfRec(recs[i]) == JobLine ==> "FAILED_REDUCES" !in recs[i]
    requires Fold(h, recs, shallow).Success?
    ensures Fold(h, recs, shallow).value.h.job.failedReduces == h.job.failedReduces
    decreases |recs|
  {
    if recs != [] {
      var o := Step(h, recs[0], shallow).value;
      assert o.h.job.failedReduces == h.job.failedReduces;
      if o.Continue? {
        assert forall i :: 0 <= i < |recs[1..]| ==> recs[1..][i] == recs[i + 1];
        FailedReducesFold(o.h, recs[1..], shallow);
      }
    }
  }

  /** `failed_reduces` is 0 unless some job line of the log carries it. */
  lemma FailedReducesDefault(lines: seq<string>, shallow: bool, escaped: bool)
    requires forall i :: 0 <= i < |lines| && KindOfRec(RecordOf(lines[i], escaped)) == JobLine ==>
               "FAILED_REDUCES" !in RecordOf(lines[i], escaped)
    requires ParseLog(lines, shallow, escaped).Success?
    ensures ParseLog(lines, shallow, escaped).value.job.failedReduces == 0
  {
    FailedReducesFold(Initial, Records(lines, escaped), shallow);
  }

  /** Some attempt among `ks` makes the summary raise. */
  predicate SomeBadContribution(attempts: map<string, Attempt>, ks: seq<string>) {
    exists k :: k in ks && k in attempts && Contribution(attempts[k]).Failure?
  }

  /** The summary loop raises exactly when some attempt it visits raises. */
  lemma {:induction false} TallyFails(attempts: map<string, Attempt>, ks: seq<string>)
    requires forall k :: k in ks ==> k in attempts
    ensures Tally(attempts, ks).Failure? <==> SomeBadContribution(attempts, ks)
    decreases |ks|
  {
    if ks != [] {
      TallyFails(attempts, ks[1..]);
      if SomeBadContribution(attempts, ks[1..]) {
        var k :| k in ks[1..] && k in attempts && Contribution(attempts[k]).Failure?;
        assert k in ks;
      }
      if SomeBadContribution(attempts, ks) && Contribution(attempts[ks[0]]).Success? {
        var k :| k in ks && k in attempts && Contribution(attempts[k]).Failure?;
        assert k != ks[0];
        assert k in ks[1..];
      }
    }
  }

  /** Whether the summary raises does not depend on the order in which it
      visits the attempts: any two listings of the same ids agree. */
  lemma TallyFailsAnyOrder(attempts: map<string, Attempt>, ks: seq<string>, ks': seq<string>)
    requires forall k :: k in ks ==> k in attempts
    requires forall k :: k in ks <==> k in ks'
    ensures Tally(attempts, ks).Failure? <==> Tally(attempts, ks').Failure?
  {
    TallyFails(attempts, ks);
    TallyFails(attempts, ks');
  }

  /** The summary counts each successful map attempt once, and each
      successful reduce attempt once. */
  lemma {:induction false} TallyCounts(attempts: map<string, Attempt>, ks: seq<string>)
    requires forall k :: k in ks ==> k in attempts
    requires forall i, j :: 0 <= i < j < |ks| ==> ks[i] != ks[j]
    requires Tally(attempts, ks).Success?
    ensures Tally(attempts, ks).value.mapCount == |SucceededIn(attempts, ks, "MAP")|
    ensures Tally(attempts, ks).value.reduceCount == |SucceededIn(attempts, ks, "REDUCE")|
    decreases |ks|
  {
    if ks != [] {
      DistinctTail(ks);
      var c := Contribution(attempts[ks[0]]).value;
      var rest := Tally(attempts, ks[1..]).value;
      assert Tally(attempts, ks).value == Add(c, rest);
      TallyCounts(attempts, ks[1..]);
      SucceededCount(attempts, ks, "MAP");
      SucceededCount(attempts, ks, "REDUCE");
    }
  }

  /** Counting the successful attempts among `ks` one head at a time. */
  lemma SucceededCount(attempts: map<string, Attempt>, ks: seq<string>, taskType: string)
    requires ks != [] && ks[0] in attempts && ks[0] !in ks[1..]
    ensures |SucceededIn(attempts, ks, taskType)|
            == |SucceededIn(attempts, ks[1..], taskType)| + (if SucceededAs(attempts[ks[0]], taskType) then 1 else 0)
  {
    SucceededSplit(attempts, ks, taskType);
  }

  /** The tail of a list without repeats has none either, and lacks the head. */
  lemma DistinctTail(ks: seq<string>)
    requires ks != []
    requires forall i, j :: 0 <= i < j < |ks| ==> ks[i] != ks[j]
    ensures forall i, j :: 0 <= i < j < |ks[1..]| ==> ks[1..][i] != ks[1..][j]
    ensures ks[0] !in ks[1..]
  {
    assert forall i :: 0 <= i < |ks[1..]| ==> ks[1..][i] == ks[i + 1];
  }

  /** The successful attempts among `ks` are those among its tail, plus its
      head when that one succeeded. */
  lemma SucceededSplit(attempts: map<string, Attempt>, ks: seq<string>, taskType: string)
    requires ks != [] && ks[0] in attempts && ks[0] !in ks[1..]
    ensures SucceededIn(attempts, ks, taskType)
            == SucceededIn(attempts, ks[1..], taskType) + (if SucceededAs(attempts[ks[0]], taskType) then {ks[0]} else {})
    ensures ks[0] !in SucceededIn(attempts, ks[1..], taskType)
  {
    assert forall k :: k in ks <==> k == ks[0] || k in ks[1..] by {
      assert ks == [ks[0]] + ks[1..];
    }
  }

  /** The summary adds up the running time of each successful map attempt
      once, and of each successful reduce attempt once. */
  lemma {:induction false} TallyTimes(attempts: map<string, Attempt>, ks: seq<string>)
    requires forall k :: k in ks ==> k in attempts
    requires forall i, j :: 0 <= i < j < |ks| ==> ks[i] != ks[j]
    requires Tally(attempts, ks).Success?
    ensures Tally(attempts, ks).value.mapTime == Durations(attempts, SucceededIn(attempts, ks, "MAP"))
    ensures Tally(attempts, ks).value.reduceTime == Durations(attempts, SucceededIn(attempts, ks, "REDUCE"))
    decreases |ks|
  {
    if ks != [] {
      DistinctTail(ks);
      var c := Contribution(attempts[ks[0]]).value;
      var rest := Tally(attempts, ks[1..]).value;
      assert Tally(attempts, ks).value == Add(c, rest);
      TallyTimes(attempts, ks[1..]);
      SucceededDurations(attempts, ks, "MAP");
      SucceededDurations(attempts, ks, "REDUCE");
    }
  }

  /** The total running time of the attempts `ids`, taken in no particular order. */
  ghost function Durations(attempts: map<string, Attempt>, ids: set<string>): int
    requires ids <= attempts.Keys
    decreases |ids|
  {
    if ids == {} then 0
    else
      var k :| k in ids;
      Duration(attempts[k]) + Durations(attempts, ids - {k})
  }

  /** Taking any one attempt out of the total. */
  lemma {:induction false} DurationsRemove(attempts: map<string, Attempt>, ids: set<string>, k: string)
    requires ids <= attempts.Keys && k in ids
    ensures Durations(attempts, ids) == Duration(attempts[k]) + Durations(attempts, ids - {k})
    decreases |ids|
  {
    var j :| j in ids && Durations(attempts, ids) == Duration(attempts[j]) + Durations(attempts, ids - {j});
    if j != k {
      assert (ids - {j}) - {k} == (ids - {k}) - {j};
      DurationsRemove(attempts, ids - {j}, k);
      DurationsRemove(attempts, ids - {k}, j);
    }
  }

  /** Summing the successful attempts among `ks` one head at a time. */
  lemma SucceededDurations(attempts: map<string, Attempt>, ks: seq<string>, taskType: string)
    requires forall k :: k in ks ==> k in attempts
    requires ks != [] && ks[0] !in ks[1..]
    ensures Durations(attempts, SucceededIn(attempts, ks, taskType))
            == Durations(attempts, SucceededIn(attempts, ks[1..], taskType))
               + (if SucceededAs(attempts[ks[0]], taskType) then Duration(attempts[ks[0]]) else 0)
  {
    SucceededSplit(attempts, ks, taskType);
    var all := SucceededIn(attempts, ks, taskType);
    if SucceededAs(attempts[ks[0]], taskType) {
      DurationsRemove(attempts, all, ks[0]);
      assert all - {ks[0]} == SucceededIn(attempts, ks[1..], taskType);
    } else {
      assert all == SucceededIn(attempts, ks[1..], taskType);
    }
  }

  /** `map_avg_time` and `reduce_avg_time` average over exactly the successful
      map and reduce attempts of the log, and are 0 when there are none. */
  lemma AveragesCountSuccesses(lines: seq<string>, escaped: bool)
    requires ParseLog(lines, false, escaped).Success?
    ensures var h := ParseLog(lines, false, escaped).value;
            && h.averages.Some?
            && h.averages.value.mapCount == |Succeeded(h.attempts, "MAP")|
            && h.averages.value.reduceCount == |Succeeded(h.attempts, "REDUCE")|
            && h.averages.value.mapTime == Durations(h.attempts, Succeeded(h.attempts, "MAP"))
            && h.averages.value.reduceTime == Durations(h.attempts, Succeeded(h.attempts, "REDUCE"))
            && (h.averages.value.mapCount == 0 ==> h.averages.value.MapAvgTenths() == 0)
            && (h.averages.value.reduceCount == 0 ==> h.averages.value.ReduceAvgTenths() == 0)
  {
    var h0 := Fold(Initial, Records(lines, escaped), false).value.h;
    SummaryOfListed(h0);
    var h := ParseLog(lines, false, escaped).value;
    assert h.attempts == h0.attempts && h.averages == Some(Tally(h0.attempts, h0.order).value);
  }

  /** The ids of the attempts that succeeded as `taskType`. */
  function Succeeded(attempts: map<string, Attempt>, taskType: string): set<string> {
    set k | k in attempts && SucceededAs(attempts[k], taskType)
  }

  /** The summary of a state that lists each attempt once counts and times
      exactly its successful map and reduce attempts. */
  lemma SummaryOfListed(h: History)
    requires Listed(h) && Tally(h.attempts, h.order).Success?
    ensures var a := Tally(h.attempts, h.order).value;
            && a.mapCount == |Succeeded(h.attempts, "MAP")|
            && a.reduceCount == |Succeeded(h.attempts, "REDUCE")|
            && a.mapTime == Durations(h.attempts, Succeeded(h.attempts, "MAP"))
            && a.reduceTime == Durations(h.attempts, Succeeded(h.attempts, "REDUCE"))
  {
    TallyCounts(h.attempts, h.order);
    TallyTimes(h.attempts, h.order);
    assert SucceededIn(h.attempts, h.order, "MAP") == Succeeded(h.attempts, "MAP");
    assert SucceededIn(h.attempts, h.order, "REDUCE") == Succeeded(h.attempts, "REDUCE");
  }
}
