# hanalyzer job-history core in Dafny

hanalyzer reads the job-history logs of a Hadoop cluster and writes per-job
brief reports as CSV or JSON, optionally one report per day, week or month.
This project models its core in Dafny and proves properties of that model.
The core covers:

- **where logs are**: the day a repository directory names, and the job id in a
  log file name;
- **what a log says**: one log line as a record of `KEY="value"` pairs, the
  counters packed in a `COUNTERS` value, the job and attempt dictionaries the
  records update, and the fold `parse_history` runs over a whole log, with its
  shallow early exit and its average attempt times;
- **which jobs are reported**: the repository statistics, the date filters of
  the query and of the report visitors, the two binary searches of the flat
  layout, and the day/week/month partition `get_date_ranges` computes;
- **the CSV codec**: `to_csv_value`, `table_to_csv` and `load_csv`.

Modules, one per file:

| module | file | models |
|---|---|---|
| `Common` | common.dfy | `Option`, `Result` (a value or the exception raised), CSV cell values |
| `Strings` | strings.dfy | byte-string primitives: `isdigit`, `int()`, `str()`, `split`, `join`, `lower`, `<` on strings, zero padding |
| `Calendar` | calendar.dfy | `datetime.date`: ordinals, weekdays, `± timedelta`, `strftime`/`strptime` with `%Y-%m-%d` |
| `DateRanges` | date_ranges.dfy | `get_date_ranges` and `add_new_range` (util.py) |
| `Csv` | csv.dfy | `to_csv_value`, `table_to_csv`, `load_csv`/`pline` (util.py) |
| `JobFiles` | job_files.dfy | `parse_day_from_path`, `parse_jobid_from_filename`, `parse_jobid_from_filename2` |
| `HistoryRecord` | history_record.dfy | `parse_history_record`, `parse_counters`, `simplify`, the attempt-id indices |
| `History` | history.dfy | `update_job`, `update_attempt`, `parse_history` |
| `Repo` | repo.dfy | `get_date_range_stats`, `query_date_range`, `accept`, the flat layout's listing and binary searches |
| `Reports` | reports.dfy | the sub-report windows `ProgressReportVisitor` builds from the date ranges |

Regular expressions are modelled as the token shapes they accept. Each is tried
at successive positions, as `re.search` and `re.finditer` do. An exception is a
`Failure` naming what was raised: `BadDate`, `IllegalPeriod`, `DateOverflow`,
`YearOutOfRange` and `YearBefore1900` for the date walk; `TypeError` and
`IndexError` for the CSV codec; `MissingRecordKey`, `MissingField` and
`BadValue` for the log fold. The file system, the clock and the report writers
are not modelled. Their inputs become parameters: a repository is a map from a
day key to its jobs, and a flat listing is a sequence of (name, size) pairs.

The code is Python 2, and the model follows what Python 2 does:

- `strftime` refuses years before 1900;
- `round` rounds halves away from zero;
- strings are byte strings, so `\w`, `isdigit` and `lower` are ASCII.

## Model

| member | source | states |
|---|---|---|
| Calendar.Next | util.py:152 | `curtm + delta` is the calendar day whose ordinal is one more |
| Calendar.Prev | util.py:146-148 | `date(...) - delta` is the day whose ordinal is one less |
| Calendar.AddDays | util.py:140 | `sd + timedelta(days=7)` moves the ordinal forward by exactly that many days |
| Calendar.SubDays | util.py:139 | `curtm - timedelta(days=weekday)` moves the ordinal back by exactly that many days |
| Calendar.OrdinalOrder | util.py:135 | `curtm <= maxtm` on dates is the ordinal order, and that is year-month-day order |
| Calendar.FormatOrder | util.py:130-132 | dates rendered with `%Y-%m-%d` compare as strings exactly as the dates compare |
| Calendar.FormatInjective | util.py:132 | comparing rendered start dates, as `add_new_range` does, is comparing the dates |
| Calendar.ParseFormat | util.py:125-126 | `strptime` of a rendered date gives the date back |
| Calendar.ParseDate | util.py:125-126 | a date `strptime(s, "%Y-%m-%d")` accepts has a year of at most four digits; `ParseFormat` is its round trip |
| DateRanges.WeekStart | util.py:139 | the week's start is a Monday within six days before the current day |
| DateRanges.CheckedPeriodOf | util.py:136-151 | when the loop body does not raise, it yields the day's period, both ends renderable |
| DateRanges.CheckedPeriodOutcome | util.py:136-151 | the loop body yields the day's period exactly when both ends are renderable (years 1900-9999) and the day is not in December 9999; an end past 9999 raises OverflowError, December 9999's next month raises ValueError, and an end before 1900 raises in `strftime` |
| DateRanges.MonthEnd | util.py:142-149 | a month range ends on the last day of its month, December included |
| DateRanges.AddNewRange | util.py:129-133 | `add_new_range` leaves the list alone or appends the one range |
| DateRanges.AddNewRangeKeeps | util.py:129-133 | ranges already listed are never changed or dropped |
| DateRanges.Walk | util.py:134-152 | the loop only appends, and appends only renderable ranges |
| DateRanges.DateRangesOf | util.py:124-153 | bad dates raise, an empty span gives no ranges, an unknown period raises once the loop runs, and every listed range is renderable |
| DateRanges.Render | util.py:130-133 | each listed pair is two ten-character strings that `strptime` reads back as the range's two ends |
| DateRanges.GetDateRanges | util.py:124-153 | the result fails exactly when the date walk fails, with the same exception, and otherwise lists the walk's ranges rendered |
| DateRanges.WalkSucceeds | util.py:124-153 | two dates from 1900 to 9998 and a legal period never make the walk raise |
| DateRanges.PeriodPrintable | util.py:136-151 | a day from 1900 to 9998 gets a day, week or month range whose ends are renderable |
| DateRanges.WeekStartFrom1900 | util.py:139 | the Monday before a day of 1900 or later is not in 1899, since 1900-01-01 was a Monday |
| DateRanges.WalkIsCollapse | util.py:129-152 | the loop equals computing one range per day and then dropping repeated starts |
| DateRanges.CollapseCovers | util.py:132 | dropping a repeated start never loses a range, since an equal one is already listed |
| DateRanges.StartsStrictlyIncrease | util.py:132-133 | range starts strictly increase, so no start is listed twice |
| DateRanges.EveryDayCovered | util.py:134-152 | every day from `mindate` to `maxdate` has its range listed, and every listed range is some day's range |
| DateRanges.DayRanges | util.py:136-137 | with `day`, there is exactly one range per day, from that day to the next |
| DateRanges.WeekRanges | util.py:138-141 | with `week`, each range runs from a Monday to the Monday after, and holds a day of the span |
| DateRanges.MonthRanges | util.py:142-149 | with `month`, each range runs from the 1st to the last day of one month |
| DateRanges.StartMonotone | util.py:134-152 | a later day never has an earlier period start |
| Csv.ToCsvValue | util.py:83-88 | None becomes empty; a string keeps every character but its commas; an integer's text reads back as that integer; any other value is its `str()` text |
| Csv.RemoveCommas | util.py:87 | `replace(',', '')` keeps every other character, with its multiplicity, and drops the commas |
| Csv.TableToCsv | util.py:90-101 | writing fails with TypeError exactly when some column name is not a string |
| Csv.ParseField | util.py:112 | a field becomes an integer exactly when `isdigit()` holds, with the value `int()` gives, and stays a string otherwise |
| Csv.ParseLine | util.py:108-112 | `pline` fails exactly on an empty line (`line[-1]`), and otherwise yields at least one field |
| Csv.LoadCsv | util.py:103-119 | loading fails exactly on empty text, and yields one row per line after the header |
| Csv.SplitLinesText | util.py:115 | iterating over written lines yields them back, each with its newline |
| Csv.SafeRowLine | util.py:98-112 | a row without commas, newlines or all-digit strings reads back from its written line |
| Csv.CsvRoundTrip | util.py:90-119 | a table so restricted, written by `table_to_csv` and read by `load_csv`, comes back unchanged |
| JobFiles.DaySearch | job_history.py:23-25 | the search returns the leftmost position where the day pattern matches, or none when nothing matches |
| JobFiles.ParseDayFromPath | job_history.py:23-28 | None exactly when no position matches; otherwise the leftmost match rendered `Y-M-D` |
| JobFiles.DayFromPathShape | job_history.py:23-27 | a result is ten characters: a 19xx/20xx year, a month 01-12 and a day 01-31, dash-separated |
| JobFiles.DayNotCheckedAgainstMonth | job_history.py:23 | the day is not checked against its month: `/2013/02/31/job` gives `2013-02-31` |
| JobFiles.JobIdMatchAt | job_history.py:30 | a match spells `job_<digits>_<digits>_` at its position |
| JobFiles.JobIdGroups | job_history.py:32-42 | none for `.xml`/`.crc` names or names without a match; otherwise the groups of the leftmost match |
| JobFiles.ParseJobIdFromFilename | job_history.py:31-37 | the id is `ob_<d1>_<d2>`: the match without its first and last characters, so the `j` is dropped |
| JobFiles.ParseJobIdFromFilename2 | job_history.py:39-45 | the id is the two digit groups read as integers |
| JobFiles.JobIdParsersAgree | job_history.py:31-45 | both parsers accept the same names, and the string id splits into `ob` and the two numbers of the tuple id |
| JobFiles.SideFilesHaveNoId | job_history.py:32-33 | a `.xml` name is skipped even though it carries an id |
| HistoryRecord.PairAt | job_history.py:275 | a pair as written has a non-empty `\w` key and a value with no quote in it |
| HistoryRecord.Pairs | job_history.py:280 | `finditer` yields matches inside the line, and as written no value holds a quote |
| HistoryRecord.RecordOf | job_history.py:276-282 | a parsed line always has a `_TYPE_` entry |
| HistoryRecord.RecordLookup | job_history.py:276-282 | each key maps to its last pair's value; `_TYPE_` is the text before the first space unless a pair overrides it |
| HistoryRecord.AssignLookup | job_history.py:280-281 | later pairs overwrite earlier ones, and keys no pair names keep their entry |
| HistoryRecord.NoEscapedQuoteSameValueEnd | job_history.py:275 | where no `"` follows a backslash, a value ends at the same quote under both patterns |
| HistoryRecord.NoEscapedQuoteSamePairs | job_history.py:275 | on a line where no `"` follows a backslash, the corrected pattern and the pattern as written read the same pairs |
| HistoryRecord.NoEscapedQuoteSameRecord | job_history.py:275-282 | such a line gives the same record under both patterns |
| HistoryRecord.EscapedValueEndAfter | job_history.py:275 | with escapes honoured, the value of an escaped text ends at the quote right after it |
| HistoryRecord.EscapedPairReadBack | job_history.py:275 | with escapes honoured, `key="v"` reads back as the pair (key, v) for every `\w` key and escaped `v`, whatever follows |
| HistoryRecord.EscapedQuoteCutAsWritten | job_history.py:275 | as written, the value of `A="\""` is a lone backslash |
| HistoryRecord.EscapedQuoteKept | job_history.py:275 | honouring escapes, that value is the two characters `\"` |
| HistoryRecord.EscapedQuoteCut | job_history.py:275-282 | the line `Job A="\""` gives `\` as written and `\"` when corrected |
| HistoryRecord.CounterAt | job_history.py:286 | a counter match has a non-empty `\w` name and a digit string for its value |
| HistoryRecord.CounterAtText | job_history.py:286 | `[(name)(display)(digits)]` is matched whole, with name and number intact |
| HistoryRecord.CollectCounters | job_history.py:288-292 | every stored key is the lower-cased name of a match that passes the filter, and every such match is stored |
| HistoryRecord.ParseCountersWith | job_history.py:287-292 | the same for a whole `COUNTERS` value, for any filter |
| HistoryRecord.CollectLastWins | job_history.py:289-291 | the value stored under a key is the number of the last match kept under it |
| HistoryRecord.CollectUntouched | job_history.py:289-291 | a key no match is kept under keeps its earlier value |
| HistoryRecord.ParseOneCounter | job_history.py:287-292 | one counter is stored under its lower-cased name when the filter passes it, else dropped |
| HistoryRecord.UnfilteredCounterDropped | job_history.py:285-290 | a counter outside `CounterFilter` is dropped |
| HistoryRecord.Simplify | job_history.py:320-321 | an id of fewer than four `_`-parts simplifies to the empty string |
| HistoryRecord.SimplifyDropsThree | job_history.py:320-321 | `simplify("a_b_c_rest")` is `rest` for underscore-free `a`, `b`, `c` |
| HistoryRecord.LastTwoFields | job_history.py:327-329 | `fds[-2]` and `fds[-1]` exist exactly when the id has at least two `_`-parts |
| HistoryRecord.AttemptIndices | job_history.py:327-329 | the indices exist exactly when there are two parts and `int()` accepts both |
| HistoryRecord.AttemptIndicesLast | job_history.py:327-329 | an id ending `_<task>_<n>` yields those two numbers, whatever precedes them |
| History.RoundDiv | job_history.py:303 | the quotient is rounded to the nearest integer, halves away from zero |
| History.MsToSeconds | job_history.py:335 | `int(round(float(v)/1000))` is within half a second of `v` milliseconds, with halves rounded away from zero as Python 2's `round` does, and fails exactly when the float reader does not read `v` as an integer |
| History.MeanTenths | job_history.py:385-386 | the mean is 0 with no attempts, else the mean rounded to one decimal |
| History.TimeField | job_history.py:300-303 | a time key present sets the field to its rounded seconds, or fails when `float()` rejects the value; an absent key keeps the field |
| History.CountField | job_history.py:304-310 | a count key present sets the field to `int(v)`, or fails; an absent key keeps the field |
| History.MergeCounters | job_history.py:311-313 | parsed counters are written over the old ones, and old keys stay |
| History.UpdateJob | job_history.py:294-313 | with `JOBNAME` kept raw and the `date` field left out, `update_job` fails exactly when `float()` rejects some time value or `int()` some count value; `failed_*` change only when the record has them |
| History.UpdateAttempt | job_history.py:323-338 | the attempt id sets id and indices; status and type follow the record; it fails exactly on a bad id or time value |
| History.Step | job_history.py:349-371 | META and unknown lines change nothing; only a shallow parse stops, and only at a job line with a submit time; the attempt order stays a listing of the attempts |
| History.Record | job_history.py:364-369 | an attempt is stored under its simplified id, and nothing else changes |
| History.Fold | job_history.py:347-371 | the loop keeps the attempt order a listing of the attempts; a full parse never stops early |
| History.Contribution | job_history.py:377-384 | a successful MAP or REDUCE attempt adds one to its count and its running time to its sum; other attempts add nothing; a KeyError is raised exactly for a successful attempt without a type, or a MAP/REDUCE one without both times |
| History.ParseLog | job_history.py:340-387 | with either pattern, a full parse always computes the averages |
| History.ParseHistory | job_history.py:340-387 | `parse_history` as written, with the pattern as written: a full parse always computes the averages |
| History.ParseHistoryCorrected | job_history.py:340-387 | the same fold over records read with escaped quotes kept |
| History.NoEscapedQuoteSameHistory | job_history.py:347-348 | the corrected and the as-written parse agree on every log in which no `"` follows a backslash |
| History.IgnoredLine | job_history.py:349-371 | with either pattern, removing a META line or a line of unknown type leaves the result unchanged |
| History.ShallowStop | job_history.py:354-355 | once a shallow parse returns, the rest of the log is never read, and no averages are computed |
| History.FailedMapsDefault | job_history.py:344-345 | `failed_maps` is 0 unless a job line carries it |
| History.FailedReducesDefault | job_history.py:346 | `failed_reduces` is 0 unless a job line carries it |
| History.TallyFails | job_history.py:377-384 | the summary loop raises exactly when some attempt it visits is a success without a type, or a MAP/REDUCE success without both times |
| History.TallyFailsAnyOrder | job_history.py:377 | whether the summary raises is the same for every order of visiting the same attempts, so hash order does not decide it |
| History.TallyCounts | job_history.py:373-384 | the map count is the number of successful MAP attempts, and the reduce count the number of successful REDUCE attempts |
| History.TallyTimes | job_history.py:373-384 | the map time is the sum of `finish_time - start_time` over the successful MAP attempts, and likewise for REDUCE, as a sum over a set, so in no particular order |
| History.DurationsRemove | job_history.py:376-384 | the total running time of a set of attempts is any one attempt's time plus the total of the others |
| History.AveragesCountSuccesses | job_history.py:372-386 | a full parse counts and sums the running time of exactly its successful map and reduce attempts, with averages 0 when there are none |
| History.SummaryOfListed | job_history.py:373-384 | over a state listing each attempt once, the summary loop counts and sums the running time of exactly the successful map and reduce attempts |
| Repo.Dated | job_history.py:159-171 | the dated days are every day but `default`, with their counts |
| Repo.MinWithStep | job_history.py:165-166 | the running `mindate` stays the least key seen |
| Repo.MaxWithStep | job_history.py:167-168 | the running `maxdate` stays the greatest key seen |
| Repo.DateRangeStats | job_history.py:153-172 | the loop's result meets the statistics' definition, whatever order it visits the days in |
| Repo.TotalCountsEveryJob | job_history.py:159-171 | `total` counts every job of the repository once |
| Repo.StatsUnique | job_history.py:153-172 | the statistics depend on the days alone |
| Repo.AcceptIsBoundedQuery | job_history.py:72-73 | `accept` is the query's half-open test with both bounds required |
| Repo.WindowSplit | job_history.py:72-73 | windows that meet split a span: a date lies in exactly one of the two halves |
| Repo.QueryDateRange | job_history.py:136-152 | a job is returned exactly when its day holds it and the window keeps its date |
| Repo.FilterByDate | job_history.py:139-146 | a `default` job is kept exactly when the window keeps its own date |
| Repo.FlatLogs | job_history.py:206-212 | a file is listed exactly when it has an id, is not a side file, and has at least 100 bytes |
| Repo.StartIndex | job_history.py:214-223 | the first search gives the number of log dates before the start date, or 0 without one |
| Repo.EndIndex | job_history.py:224-235 | the second search gives the number of log dates at or before the end date, or all without one |
| Repo.FlatStats | job_history.py:236-247 | the flat statistics count the logs between the two indices, with the first and last dates in range |
| Reports.AcceptStamp | job_history.py:72-73 | a window of rendered days takes a stamp exactly when the stamp's day is in `[start, end)` |
| Reports.SubReportWindowAccepts | job_history.py:529-531 | the sub-report of a range takes a record exactly when the record's day is in `[start, end)` of that range, at any time of day |
| Reports.MonthLastDayAcceptedByNone | util.py:142-149 | with monthly sub-reports, no window accepts a record on the last day of a month |
| Reports.JanuaryLastDayDropped | job_history.py:529-531 | for January 2013 alone, the only window rejects a record at noon on 31 January |
| Reports.WalkMonthEnds | util.py:142-149 | each listed month can be closed by the next month's 1st |
| Reports.MonthListed | util.py:134-152 | the month of every day in the span is listed |
| Reports.MonthWindowAccepts | util.py:142-149 | a corrected window takes a record exactly when the record's day is in the month its range starts |
| Reports.OneMonthWindow | job_history.py:538-542 | among the corrected windows, exactly the record's month accepts it |
| Reports.MonthWindowsExactlyOne | job_history.py:529-542 | corrected: every record dated in the span goes to exactly one monthly sub-report |
| Strings.Split | util.py:111 | `split` yields at least one piece, none holding the separator |
| Strings.JoinSplit | util.py:111 | joining the pieces of a split restores the string |
| Strings.SplitJoin | util.py:95-98 | splitting a join of separator-free pieces gives the pieces back |
| Strings.ParseInt | util.py:112 | `int()` of a digit string is its decimal value |
| Strings.SignedDigits | job_history.py:310 | a sign, any blanks, then digits read as the signed value: `int("- 5")` is -5 |
| Strings.ParseShowInt | util.py:88 | `int(str(i)) == i` |
| Strings.ParseWholeFloat | job_history.py:303 | `float()` of a digit string is its decimal value |
| Strings.WholeFloatIsInt | job_history.py:303 | integer text that `float()` reads, `int()` reads too, to the same value |
| Strings.BlankAfterSignRejected | job_history.py:303 | a sign, blanks, then digits: `int()` reads it but `float()` raises, so `float("- 5")` fails |
| Strings.ParseShowWholeFloat | job_history.py:335 | the model's exact float reader reads `str(i)` back as `i` for every integer; Python's `float()` does so only for magnitudes up to 2^53 |
| Strings.Lower | job_history.py:291 | `lower()` maps each byte on its own and keeps the length |

## Left out

- File and directory I/O are not modelled. This covers `os.walk`, `os.listdir`,
  `os.stat`, opening and closing files, and the CSV/JSON report writers. Their
  results are parameters instead: a repository is a map from day keys to jobs,
  and a flat listing is a sequence of (name, size) pairs.
- `HistoryRepo.scan` and its grouping of files into days are left out. The
  scan's lock, its five-second rate limit and its clock are I/O.
- The `JobHistory` cache and its locks are left out, because they concern
  concurrency and memory, not results.
- `Record`, `to_dict`, the JSON encoder and `dumps_json` are left out, because
  they are serialisation helpers.
- `time_to_string` and the job's `date` field are left out. Both are computed
  with `time.localtime`, which depends on the host's time zone.
- `get_job_date` is left out, because it reads a file. In the flat layout the
  log dates are a parameter.
- The flat layout's `logs.sort()` is not modelled. The binary searches are
  proved correct for sorted dates, and each contract says so.
- The query's `progress` callback, the visitors' progress printing and the
  command-line parsing are left out, because they are output.
- `UpdateJob`: `JOBNAME` is stored as written. `string-escape` decoding is not
  modelled, nor the ValueError it raises on a value ending in a lone
  backslash, which the pattern as written makes of any name holding `\"`.
  The `date` field is left out, and with it the errors of computing it
  (job_history.py:314-315): `time.localtime` raises for a submit time beyond
  the platform's `time_t`, and Python 2's `time.strftime` raises ValueError
  for a year before 1900 (`SUBMIT_TIME="-2300000000000"`, a day in 1897).
  Where the source raises there, the model succeeds. Both limits depend on
  the host's time zone and C library.
- `MsToSeconds`: exact only for integer text, which it reads as `float()`
  does, with no blank allowed after the sign. `float(v)` also accepts
  decimals and exponents; those are treated as `BadValue`. The model
  computes with unbounded integers, while the source computes with doubles:
  `float()` rounds integer text above 2^53 in magnitude (9007199254740993
  reads as 9007199254740992), the division by 1000 is rounded too, and text
  beyond about 1.8e308 reads as `inf`, on which `int(round(...))` raises
  OverflowError. The model reads such text exactly and succeeds. Below
  1000 * 2^42 milliseconds in magnitude both roundings are too small to
  move the result, so the two agree there.
- `ParseShowWholeFloat`: states the round trip for the model's exact float
  reader. Python's `float(str(i))` returns `i` only for magnitudes up to
  2^53, and `inf` past about 1.8e308.
- `MeanTenths`: it rounds the exact quotient. Python rounds a binary float, so
  the two can differ by one tenth on a float tie.
- `Step` and `UpdateAttempt`: which bad value is reported first depends on
  dictionary order in the source. The model checks keys in a fixed order, so
  only whether the call fails is modelled faithfully.
- `Tally` and `Contribution`: the summary loop (job_history.py:377) visits
  the attempts in dictionary hash order. The model visits them in the order
  they were first seen. When several attempts would raise, which KeyError
  comes first (`task_type`, `finish_time` or `start_time`) can differ, so
  only whether the summary fails is modelled faithfully. `TallyFailsAnyOrder`
  proves that this does not depend on the visiting order.
- `ParseHistory` uses the pattern as written, and `ParseHistoryCorrected`
  the corrected one. The two differ on every line where a `"` follows a
  backslash. `NoEscapedQuoteSameHistory` shows that they agree on every other
  log.
- `ToCsvValue`: a float or any other value is given by its `str()` text. How
  `str()` formats a float is not modelled.
- `QueryDateRange` and `FlatLogs`: the contracts state which rows are
  returned, not their order. The rows follow the order of their input.
- `Repo.DateRangeStats`: the date arguments are unused in the source and are
  ignored here too.

## Findings

| source | as written | input that shows it | evidently intended | confidence | as-written member | corrected member |
|---|---|---|---|---|---|---|
| job_history.py:275 | `[^"]*` takes the backslash of `\"`, so a value ends at the first quote, escaped or not | the line `Job A="\""` gives `A` = `\` | `(\\"[^"]*)*` shows escaped quotes were meant to stay inside the value, giving `\"` | not executed | HistoryRecord.EscapedQuoteCutAsWritten, HistoryRecord.EscapedQuoteCut | History.ParseHistoryCorrected, HistoryRecord.EscapedPairReadBack, HistoryRecord.EscapedQuoteKept |
| util.py:142-149 | month ranges end on the month's last day; the sub-reports (job_history.py:529-531) use them as windows whose end `accept` excludes (job_history.py:72-73), so that whole day is reported nowhere | `mindate` = `maxdate` = `2013-01-31`, record date `2013-01-31 12:00:00` | each monthly sub-report takes every record of its month | not executed | Reports.MonthLastDayAcceptedByNone, Reports.JanuaryLastDayDropped | Reports.MonthWindowAccepts, Reports.MonthWindowsExactlyOne |

