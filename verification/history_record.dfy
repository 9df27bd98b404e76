/** One line of a Hadoop job-history log (job_history.py): the record type and
    its `KEY="value"` pairs, the `COUNTERS` value format, and the attempt-id
    helpers. */
module HistoryRecord {
  import opened Common
  import opened Strings

  // ---------------------------------------------------------------------------
  // `KeyValuePairRegex` = `(\w+)="([^"]*(\\"[^"]*)*)"`

  /** The length of the run of `\w` characters starting at `k`. */
  function WordRun(s: string, k: nat): (n: nat)
    requires k <= |s|
    ensures k + n <= |s|
    ensures forall j :: k <= j < k + n ==> IsWordChar(s[j])
    ensures k + n == |s| || !IsWordChar(s[k + n])
    decreases |s| - k
  {
    if k == |s| || !IsWordChar(s[k]) then 0 else 1 + WordRun(s, k + 1)
  }

  /** A pair found at `i`: key, value and the position after the closing quote. */
  datatype Pair = Pair(key: string, value: string, end: nat)

  /** The pattern anchored at `i`, as written. The key is the whole `\w` run
      (a shorter one would leave a word character where `=` is needed). The
      greedy `[^"]*` runs to the first `"`, where the closing quote then matches
      at once, so the `(\\"[^"]*)*` group never takes part: the value ends at the
      first quote even when a backslash escapes it. */
  function PairAt(s: string, i: nat): (r: Option<Pair>)
    ensures r.Some? ==> i < r.value.end <= |s| && '"' !in r.value.value
    ensures r.Some? ==> |r.value.key| > 0 && forall c :: c in r.value.key ==> IsWordChar(c)
  {
    if i >= |s| then None
    else
      var n := WordRun(s, i);
      var j := i + n;
      if n == 0 || j + 1 >= |s| || s[j] != '=' || s[j + 1] != '"' then None
      else
        match FindFrom(s, j + 2, '"')
        case None => None
        case Some(q) =>
          var v := s[j + 2..q];
          assert '"' !in v by {
            forall k | 0 <= k < |v|
              ensures v[k] != '"'
            {
              assert v[k] == s[j + 2 + k];
            }
          }
          Some(Pair(s[i..j], s[j + 2..q], q + 1))
  }

  /** The end of a value that honours backslash escapes: a backslash takes the
      next character with it, and the first `"` not so taken closes the value. */
  function EscapedValueEnd(s: string, k: nat): (r: Option<nat>)
    ensures r.Some? ==> k <= r.value < |s| && s[r.value] == '"'
    decreases |s| - k
  {
    if k >= |s| then None
    else if s[k] == '"' then Some(k)
    else if s[k] == '\\' then EscapedValueEnd(s, k + 2)
    else EscapedValueEnd(s, k + 1)
  }

  /** The pattern anchored at `i` as its `(\\"[^"]*)*` group shows it was meant:
      an escaped quote stays inside the value. */
  function EscapedPairAt(s: string, i: nat): (r: Option<Pair>)
    ensures r.Some? ==> i < r.value.end <= |s|
    ensures r.Some? ==> |r.value.key| > 0 && forall c :: c in r.value.key ==> IsWordChar(c)
  {
    if i >= |s| then None
    else
      var n := WordRun(s, i);
      var j := i + n;
      if n == 0 || j + 1 >= |s| || s[j] != '=' || s[j + 1] != '"' then None
      else
        match EscapedValueEnd(s, j + 2)
        case None => None
        case Some(q) => Some(Pair(s[i..j], s[j + 2..q], q + 1))
  }

  /** `finditer` from position `i`: every match, left to right, each search
      resuming where the previous match ended. `escaped` picks the lexer. */
  function Pairs(s: string, i: nat, escaped: bool): (r: seq<Pair>)
    requires i <= |s|
    ensures forall k :: 0 <= k < |r| ==> r[k].end <= |s|
    ensures !escaped ==> forall k :: 0 <= k < |r| ==> '"' !in r[k].value
    decreases |s| - i
  {
    if i == |s| then []
    else
      var m := if escaped then EscapedPairAt(s, i) else PairAt(s, i);
      match m
      case None => Pairs(s, i + 1, escaped)
      case Some(p) => [p] + Pairs(s, p.end, escaped)
  }

  /** The record a line yields: `_TYPE_` is the text before the first space
      (`line.find(' ')` is -1 without one, so then it is the line minus its last
      character and the pairs are sought in the whole line); later pairs, a key
      called `_TYPE_` among them, overwrite earlier ones. */
  function RecordOf(line: string, escaped: bool): (r: map<string, string>)
    ensures "_TYPE_" in r
  {
    Assign(map["_TYPE_" := TypeOf(line)], Pairs(line[PairsFrom(line)..], 0, escaped))
  }

  function TypeOf(line: string): string {
    var space := FirstSpace(line);
    if space.Some? then line[..space.value] else if line == [] then [] else line[..|line| - 1]
  }

  /** Where the pairs are sought: after the first space, else from the start. */
  function PairsFrom(line: string): (k: nat)
    ensures k <= |line|
  {
    var space := FirstSpace(line);
    if space.Some? then space.value + 1 else 0
  }

  function FirstSpace(s: string): (r: Option<nat>)
    ensures r.Some? ==> r.value < |s| && s[r.value] == ' ' && ' ' !in s[..r.value]
    ensures r.None? ==> ' ' !in s
  {
    if s == [] then None
    else if s[0] == ' ' then Some(0)
    else
      match FirstSpace(s[1..])
      case None => None
      case Some(i) =>
        assert s[..i + 1] == [s[0]] + s[1..][..i];
        Some(i + 1)
  }

  /** `ret[key] = value` for each pair in turn. */
  function Assign(m: map<string, string>, ps: seq<Pair>): (r: map<string, string>)
    ensures m.Keys <= r.Keys
    ensures forall k :: 0 <= k < |ps| ==> ps[k].key in r
    ensures ps != [] ==> r[ps[|ps| - 1].key] == ps[|ps| - 1].value
    decreases |ps|
  {
    if ps == [] then m else Assign(m[ps[0].key := ps[0].value], ps[1..])
  }

  /** `parse_history_record(line)` exactly as written. */
  function ParseHistoryRecord(line: string): (r: map<string, string>)
    ensures "_TYPE_" in r
  {
    RecordOf(line, false)
  }

  /** `parse_history_record(line)` with escaped quotes kept inside values. */
  function ParseHistoryRecordCorrected(line: string): (r: map<string, string>)
    ensures "_TYPE_" in r
  {
    RecordOf(line, true)
  }

  /** The value of the last pair in `ps` named `key`, if any. */
  function LastValue(ps: seq<Pair>, key: string): Option<string>
    decreases |ps|
  {
    if ps == [] then None
    else if ps[|ps| - 1].key == key then Some(ps[|ps| - 1].value)
    else LastValue(ps[..|ps| - 1], key)
  }

  /** Looking a key up from the front: the tail's last pair wins over the head. */
  lemma {:induction false} LastValueCons(p: Pair, ps: seq<Pair>, key: string)
    ensures LastValue([p] + ps, key)
            == if LastValue(ps, key).Some? then LastValue(ps, key)
               else if p.key == key then Some(p.value)
               else None
    decreases |ps|
  {
    if ps == [] {
      assert [p] + ps == [p];
      assert [p][..0] == [];
    } else {
      var qs := [p] + ps;
      assert qs[|qs| - 1] == ps[|ps| - 1];
      assert qs[..|qs| - 1] == [p] + ps[..|ps| - 1];
      LastValueCons(p, ps[..|ps| - 1], key);
    }
  }

  /** `Assign` stores, under each key, the value of the last pair with that key,
      and keeps the old entry of every key no pair names. */
  lemma {:induction false} AssignLookup(m: map<string, string>, ps: seq<Pair>, key: string)
    ensures key in Assign(m, ps) <==> key in m || LastValue(ps, key).Some?
    ensures LastValue(ps, key).Some? ==> Assign(m, ps)[key] == LastValue(ps, key).value
    ensures LastValue(ps, key).None? && key in m ==> Assign(m, ps)[key] == m[key]
    decreases |ps|
  {
    if ps != [] {
      assert ps == [ps[0]] + ps[1..];
      LastValueCons(ps[0], ps[1..], key);
      AssignLookup(m[ps[0].key := ps[0].value], ps[1..], key);
    }
  }

  /** What a parsed line holds under `key`: the value of the last pair so named
      after the first space, or, for `_TYPE_` when no pair is so named, the
      text before that space. */
  lemma RecordLookup(line: string, escaped: bool, key: string)
    requires FirstSpace(line).Some?
    ensures var sp := FirstSpace(line).value;
            var last := LastValue(Pairs(line[sp + 1..], 0, escaped), key);
            var r := RecordOf(line, escaped);
            && (key in r <==> key == "_TYPE_" || last.Some?)
            && (last.Some? ==> r[key] == last.value)
            && (key == "_TYPE_" && last.None? ==> r[key] == line[..sp])
  {
    var sp := FirstSpace(line).value;
    var ps := Pairs(line[sp + 1..], 0, escaped);
    assert RecordOf(line, escaped) == Assign(map["_TYPE_" := line[..sp]], ps);
    AssignLookup(map["_TYPE_" := line[..sp]], ps, key);
  }

  /** As written, no value ever holds a quote, escaped or not. */
  lemma AsWrittenValuesHaveNoQuote(s: string)
    ensures forall k :: 0 <= k < |Pairs(s, 0, false)| ==> '"' !in Pairs(s, 0, false)[k].value
  {
  }

  /** The pairs of `A="\""` (a value holding one escaped quote): as written the
      value is a lone backslash and the closing quote starts nothing further. */
  lemma EscapedQuoteCutAsWritten()
    ensures Pairs("A=\"\\\"\"", 0, false) == [Pair("A", "\\", 5)]
  {
    var s := "A=\"\\\"\"";
    assert WordRun(s, 0) == 1;
    assert FindFrom(s, 3, '"') == Some(4);
    assert s[0..1] == "A" && s[3..4] == "\\";
    assert PairAt(s, 0) == Some(Pair("A", "\\", 5));
    assert WordRun(s, 5) == 0;
    assert Pairs(s, 5, false) == [];
  }

  /** With escapes honoured the value is the two characters `\"`. */
  lemma EscapedQuoteKept()
    ensures Pairs("A=\"\\\"\"", 0, true) == [Pair("A", "\\\"", 6)]
  {
    var s := "A=\"\\\"\"";
    assert WordRun(s, 0) == 1;
    assert EscapedValueEnd(s, 5) == Some(5);
    assert EscapedValueEnd(s, 3) == Some(5);
    assert s[0..1] == "A" && s[3..5] == "\\\"";
    assert EscapedPairAt(s, 0) == Some(Pair("A", "\\\"", 6));
  }

  /** The line `Job A="\""`: as written `A` is a lone backslash; with escapes
      honoured it is the two characters `\"`. */
  lemma EscapedQuoteCut()
    ensures var r := ParseHistoryRecord("Job A=\"\\\"\"");
            "A" in r && r["A"] == "\\"
    ensures var r := ParseHistoryRecordCorrected("Job A=\"\\\"\"");
            "A" in r && r["A"] == "\\\""
  {
    var line := "Job A=\"\\\"\"";
    assert FirstSpace(line) == Some(3);
    assert line[..3] == "Job";
    assert line[4..] == "A=\"\\\"\"";
    EscapedQuoteCutAsWritten();
    EscapedQuoteKept();
  }

  /** `s` nowhere holds a `"` right after a backslash. */
  predicate NoEscapedQuote(s: string) {
    forall j :: 0 <= j < |s| - 1 && s[j] == '\\' ==> s[j + 1] != '"'
  }

  /** Where no `"` follows a backslash, both ways of ending a value agree. */
  lemma {:induction false} NoEscapedQuoteSameValueEnd(s: string, k: nat)
    requires NoEscapedQuote(s)
    ensures EscapedValueEnd(s, k) == FindFrom(s, k, '"')
    decreases |s| - k
  {
    if k < |s| && s[k] != '"' {
      if s[k] == '\\' {
        if k + 1 < |s| {
          assert s[k + 1] != '"';
          NoEscapedQuoteSameValueEnd(s, k + 2);
        }
      } else {
        NoEscapedQuoteSameValueEnd(s, k + 1);
      }
    }
  }

  /** Where no `"` follows a backslash, the corrected lexer agrees with the
      original. */
  lemma {:induction false} NoEscapedQuoteSamePairs(s: string, i: nat)
    requires i <= |s|
    requires NoEscapedQuote(s)
    ensures Pairs(s, i, true) == Pairs(s, i, false)
    decreases |s| - i
  {
    if i < |s| {
      var n := WordRun(s, i);
      var j := i + n;
      if !(n == 0 || j + 1 >= |s| || s[j] != '=' || s[j + 1] != '"') {
        NoEscapedQuoteSameValueEnd(s, j + 2);
      }
      assert EscapedPairAt(s, i) == PairAt(s, i);
      match PairAt(s, i)
      case None => NoEscapedQuoteSamePairs(s, i + 1);
      case Some(p) => NoEscapedQuoteSamePairs(s, p.end);
    }
  }

  /** The two lexers give different records only to a line holding `\"`. */
  lemma NoEscapedQuoteSameRecord(line: string)
    requires NoEscapedQuote(line)
    ensures ParseHistoryRecordCorrected(line) == ParseHistoryRecord(line)
  {
    NoEscapedQuoteSuffix(line, PairsFrom(line));
    NoEscapedQuoteSameAssign(map["_TYPE_" := TypeOf(line)], line[PairsFrom(line)..]);
  }

  lemma NoEscapedQuoteSameAssign(m: map<string, string>, rest: string)
    requires NoEscapedQuote(rest)
    ensures Assign(m, Pairs(rest, 0, true)) == Assign(m, Pairs(rest, 0, false))
  {
    NoEscapedQuoteSamePairs(rest, 0);
  }

  lemma NoEscapedQuoteSuffix(s: string, k: nat)
    requires k <= |s| && NoEscapedQuote(s)
    ensures NoEscapedQuote(s[k..])
  {
    assert forall j :: 0 <= j < |s[k..]| ==> s[k..][j] == s[k + j];
  }

  /** A value as its writer escapes it: each backslash takes the character
      after it along, and no other character is a `"` or a backslash. */
  predicate EscapedText(v: string) {
    EscapedFrom(v, 0)
  }

  /** `v` from position `i` on is escaped text. */
  predicate EscapedFrom(v: string, i: nat)
    requires i <= |v|
    decreases |v| - i
  {
    || i == |v|
    || (v[i] == '\\' && i + 2 <= |v| && EscapedFrom(v, i + 2))
    || (v[i] != '"' && v[i] != '\\' && EscapedFrom(v, i + 1))
  }

  /** Scanning an escaped value from its start stops at the quote after it. */
  lemma EscapedValueEndAfter(s: string, k: nat, v: string)
    requires k + |v| < |s| && s[k..k + |v|] == v && s[k + |v|] == '"'
    requires EscapedText(v)
    ensures EscapedValueEnd(s, k) == Some(k + |v|)
  {
    EscapedValueEndFrom(s, k, v, 0);
  }

  lemma {:induction false} EscapedValueEndFrom(s: string, k: nat, v: string, i: nat)
    requires k + |v| < |s| && s[k..k + |v|] == v && s[k + |v|] == '"'
    requires i <= |v| && EscapedFrom(v, i)
    ensures EscapedValueEnd(s, k + i) == Some(k + |v|)
    decreases |v| - i
  {
    if i < |v| {
      assert s[k + i] == v[i];
      if v[i] == '\\' {
        EscapedValueEndFrom(s, k, v, i + 2);
      } else {
        EscapedValueEndFrom(s, k, v, i + 1);
      }
    }
  }

  /** `t` is a key the pattern's `\w+` can match in full. */
  predicate IsKey(t: string) {
    |t| > 0 && forall j :: 0 <= j < |t| ==> IsWordChar(t[j])
  }

  /** `key="v"` with `v` escaped reads back as the pair (key, v), whatever
      follows it. */
  lemma EscapedPairReadBack(key: string, v: string, rest: string)
    requires IsKey(key) && EscapedText(v)
    ensures EscapedPairAt(key + "=\"" + v + "\"" + rest, 0) == Some(Pair(key, v, |key| + |v| + 3))
  {
    var s := key + "=\"" + v + "\"" + rest;
    PairTextShape(key, v, rest, s);
    EscapedPairAtShaped(s, key, v);
  }

  /** The same, read off the parts of `s`. */
  lemma EscapedPairAtShaped(s: string, key: string, v: string)
    requires IsKey(key) && EscapedText(v)
    requires |key| + |v| + 2 < |s| && s[..|key|] == key
    requires s[|key|] == '=' && s[|key| + 1] == '"'
    requires s[|key| + 2..|key| + 2 + |v|] == v && s[|key| + 2 + |v|] == '"'
    ensures EscapedPairAt(s, 0) == Some(Pair(key, v, |key| + |v| + 3))
  {
    var a, q := |key|, |key| + 2 + |v|;
    assert EscapedValueEnd(s, a + 2) == Some(q) by {
      EscapedValueEndAfter(s, a + 2, v);
    }
    EscapedPairAtParts(s, key, v);
  }

  lemma PairTextShape(key: string, v: string, rest: string, s: string)
    requires s == key + "=\"" + v + "\"" + rest
    ensures |key| + |v| + 2 < |s| && s[..|key|] == key
    ensures s[|key|] == '=' && s[|key| + 1] == '"'
    ensures s[|key| + 2..|key| + 2 + |v|] == v && s[|key| + 2 + |v|] == '"'
  {
    var a := |key|;
    assert s[..a] == key;
    assert s[a + 2..a + 2 + |v|] == v;
  }

  /** The pair at the start of `s` once its value's end is known. */
  lemma EscapedPairAtParts(s: string, key: string, v: string)
    requires IsKey(key) && |key| + |v| + 2 < |s| && s[..|key|] == key
    requires s[|key|] == '=' && s[|key| + 1] == '"' && s[|key| + 2..|key| + 2 + |v|] == v
    requires EscapedValueEnd(s, |key| + 2) == Some(|key| + 2 + |v|)
    ensures EscapedPairAt(s, 0) == Some(Pair(key, v, |key| + |v| + 3))
  {
    var a, q := |key|, |key| + 2 + |v|;
    KeyWordRun(s, key);
    EscapedPairAtFrom(s, a, q);
    assert s[0..a] == key;
  }

  /** A key followed by `=` is the whole word run at the start. */
  lemma KeyWordRun(s: string, key: string)
    requires IsKey(key) && |key| < |s| && s[..|key|] == key && s[|key|] == '='
    ensures WordRun(s, 0) == |key|
  {
    assert forall j :: 0 <= j < |key| ==> IsWordChar(s[j]) by {
      assert forall j :: 0 <= j < |key| ==> s[j] == key[j];
    }
    WordRunTo(s, 0, |key|);
  }

  lemma EscapedPairAtFrom(s: string, a: nat, q: nat)
    requires 0 < a && a + 1 < |s| && WordRun(s, 0) == a && s[a] == '=' && s[a + 1] == '"'
    requires EscapedValueEnd(s, a + 2) == Some(q)
    ensures EscapedPairAt(s, 0) == Some(Pair(s[0..a], s[a + 2..q], q + 1))
  {
  }

  // ---------------------------------------------------------------------------
  // `CounterRegex` = `\[\(([\w_]+)\)\([^\)]+\)\((\d+)\)\]`

  /** A counter found at `i`: its name, its digits and the position after `]`. */
  datatype CounterMatch = CounterMatch(name: string, digits: string, end: nat)

  /** `([\w_]+)\)\(` from `k`: the position of the `)` closing a non-empty
      name, followed by `(` and a first display-name character that is not `)`. */
  function NameEnd(s: string, k: nat): (a: Option<nat>)
    requires k <= |s|
    ensures a.Some? ==> k < a.value && a.value + 2 < |s| && s[a.value] == ')' && s[a.value + 1] == '(' && s[a.value + 2] != ')'
    ensures a.Some? ==> forall j :: k <= j < a.value ==> IsWordChar(s[j])
  {
    var a := k + WordRun(s, k);
    if a == k || a + 2 >= |s| || s[a] != ')' || s[a + 1] != '(' || s[a + 2] == ')' then None
    else Some(a)
  }

  /** `[^\)]+\)\(` after the name: the `)` closing the display name, followed
      by `(` and one more character. */
  function DisplayEnd(s: string, a: nat): (b: Option<nat>)
    requires a + 2 < |s|
    ensures b.Some? ==> a + 2 <= b.value && b.value + 2 < |s| && s[b.value] == ')' && s[b.value + 1] == '('
    ensures b.Some? ==> forall j :: a + 2 <= j < b.value ==> s[j] != ')'
  {
    match FindFrom(s, a + 2, ')')
    case None => None
    case Some(b) => if b + 2 >= |s| || s[b + 1] != '(' then None else Some(b)
  }

  /** `(\d+)\)\]` after the display name: the `)` closing a non-empty number,
      followed by `]`. */
  function NumberEnd(s: string, b: nat): (e: Option<nat>)
    requires b + 2 < |s|
    ensures e.Some? ==> b + 2 < e.value && e.value + 1 < |s| && s[e.value] == ')' && s[e.value + 1] == ']'
    ensures e.Some? ==> IsDigitString(s[b + 2..e.value])
  {
    var e := b + 2 + DigitRun(s, b + 2);
    if e == b + 2 || e + 1 >= |s| || s[e] != ')' || s[e + 1] != ']' then None
    else Some(e)
  }

  /** The counter pattern anchored at `i`: `[(name)(display name)(digits)]`.
      Every repeated part is taken whole: a shorter name leaves a word character
      where `)` is needed, a shorter display name a non-`)` character, a shorter
      number a digit. */
  function CounterAt(s: string, i: nat): (r: Option<CounterMatch>)
    ensures r.Some? ==> i < r.value.end <= |s| && IsDigitString(r.value.digits)
    ensures r.Some? ==> |r.value.name| > 0 && forall c :: c in r.value.name ==> IsWordChar(c)
  {
    if i + 2 > |s| || s[i] != '[' || s[i + 1] != '(' then None
    else
      match NameEnd(s, i + 2)
      case None => None
      case Some(a) =>
        match DisplayEnd(s, a)
        case None => None
        case Some(b) =>
          match NumberEnd(s, b)
          case None => None
          case Some(e) =>
            assert forall c :: c in s[i + 2..a] ==> IsWordChar(c);
            Some(CounterMatch(s[i + 2..a], s[b + 2..e], e + 2))
  }

  /** Every counter match, left to right (`CounterRegex.finditer(s)`). */
  function CounterMatches(s: string, i: nat): (r: seq<CounterMatch>)
    requires i <= |s|
    ensures forall k :: 0 <= k < |r| ==> IsDigitString(r[k].digits)
    decreases |s| - i
  {
    if i == |s| then []
    else
      match CounterAt(s, i)
      case None => CounterMatches(s, i + 1)
      case Some(m) => [m] + CounterMatches(s, m.end)
  }

  /** `CounterFilter`. */
  const CounterFilter: seq<string> := ["HDFS_BYTES_READ", "HDFS_BYTES_WRITTEN", "MAP_OUTPUT_BYTES"]

  /** `(not filter) or (name in filter)`: an empty filter keeps everything. */
  predicate Passes(name: string, filter: seq<string>) {
    |filter| == 0 || name in filter
  }

  /** Match `m` passes the filter and is stored under `key`. */
  predicate Kept(m: CounterMatch, filter: seq<string>, key: string) {
    Passes(m.name, filter) && Lower(m.name) == key
  }

  /** Some match in `ms` passes the filter and is stored under `key`. */
  predicate KeptIn(ms: seq<CounterMatch>, filter: seq<string>, key: string) {
    exists k :: 0 <= k < |ms| && Kept(ms[k], filter, key)
  }

  /** The loop of `parse_counters` over the matches `ms`, into `acc`: every
      stored key comes from a match that passes the filter, and every such match
      is stored. */
  function CollectCounters(acc: map<string, nat>, ms: seq<CounterMatch>, filter: seq<string>): (r: map<string, nat>)
    requires forall k :: 0 <= k < |ms| ==> IsDigitString(ms[k].digits)
    ensures acc.Keys <= r.Keys
    ensures forall k :: 0 <= k < |ms| && Passes(ms[k].name, filter) ==> Lower(ms[k].name) in r
    ensures forall key :: key in r ==> key in acc || KeptIn(ms, filter, key)
    decreases |ms|
  {
    if ms == [] then acc
    else
      var m := ms[0];
      assert IsDigitString(m.digits);
      var acc' := if Passes(m.name, filter) then acc[Lower(m.name) := ParseDigits(m.digits)] else acc;
      var r := CollectCounters(acc', ms[1..], filter);
      assert forall k :: 1 <= k < |ms| ==> ms[k] == ms[1..][k - 1];
      assert forall key :: key in r ==> key in acc || KeptIn(ms, filter, key) by {
        forall key | key in r && key !in acc
          ensures KeptIn(ms, filter, key)
        {
          if key in acc' {
            assert Kept(ms[0], filter, key);
          } else {
            var k :| 0 <= k < |ms[1..]| && Kept(ms[1..][k], filter, key);
            assert Kept(ms[k + 1], filter, key);
          }
        }
      }
      r
  }

  /** `parse_counters(s)` with the filter as a parameter: every stored key is
      the lower-cased name of a match that passes the filter, and every such
      match is stored. */
  function ParseCountersWith(s: string, filter: seq<string>): (r: map<string, nat>)
    ensures forall key :: key in r ==> KeptIn(CounterMatches(s, 0), filter, key)
    ensures forall k :: 0 <= k < |CounterMatches(s, 0)| && Passes(CounterMatches(s, 0)[k].name, filter) ==>
              Lower(CounterMatches(s, 0)[k].name) in r
  {
    CollectCounters(map[], CounterMatches(s, 0), filter)
  }

  /** `parse_counters(s)`. */
  function ParseCounters(s: string): map<string, nat> {
    ParseCountersWith(s, CounterFilter)
  }

  /** The value stored under a key is the number of the LAST match kept under
      it: each later match overwrites. */
  lemma {:induction false} CollectLastWins(acc: map<string, nat>, ms: seq<CounterMatch>, filter: seq<string>, k: nat)
    requires forall j :: 0 <= j < |ms| ==> IsDigitString(ms[j].digits)
    requires k < |ms| && Passes(ms[k].name, filter)
    requires forall j :: k < j < |ms| ==> !Kept(ms[j], filter, Lower(ms[k].name))
    ensures Lower(ms[k].name) in CollectCounters(acc, ms, filter)
    ensures CollectCounters(acc, ms, filter)[Lower(ms[k].name)] == ParseDigits(ms[k].digits)
    decreases |ms|
  {
    var m := ms[0];
    assert IsDigitString(m.digits);
    var acc' := if Passes(m.name, filter) then acc[Lower(m.name) := ParseDigits(m.digits)] else acc;
    assert forall j :: 1 <= j < |ms| ==> ms[j] == ms[1..][j - 1];
    if k == 0 {
      CollectUntouched(acc', ms[1..], filter, Lower(m.name));
    } else {
      CollectLastWins(acc', ms[1..], filter, k - 1);
    }
  }

  /** A key no match is kept under keeps its value. */
  lemma {:induction false} CollectUntouched(acc: map<string, nat>, ms: seq<CounterMatch>, filter: seq<string>, key: string)
    requires forall j :: 0 <= j < |ms| ==> IsDigitString(ms[j].digits)
    requires key in acc
    requires forall j :: 0 <= j < |ms| ==> !Kept(ms[j], filter, key)
    ensures key in CollectCounters(acc, ms, filter) && CollectCounters(acc, ms, filter)[key] == acc[key]
    decreases |ms|
  {
    if ms != [] {
      var m := ms[0];
      assert !Kept(m, filter, key) && IsDigitString(m.digits);
      var acc' := if Passes(m.name, filter) then acc[Lower(m.name) := ParseDigits(m.digits)] else acc;
      assert forall j :: 1 <= j < |ms| ==> ms[j] == ms[1..][j - 1];
      CollectUntouched(acc', ms[1..], filter, key);
    }
  }

  /** The text of one counter: `[(name)(display name)(digits)]`. */
  function CounterText(name: string, display: string, digits: string): string {
    "[(" + name + ")(" + display + ")(" + digits + ")]"
  }

  /** Where each part of a counter's text sits. */
  lemma CounterTextLayout(name: string, display: string, digits: string)
    ensures var t := CounterText(name, display, digits);
            var a := 2 + |name|;
            var b := a + 2 + |display|;
            var e := b + 2 + |digits|;
            && |t| == e + 2
            && t[0] == '[' && t[1] == '(' && t[a] == ')' && t[a + 1] == '('
            && t[b] == ')' && t[b + 1] == '(' && t[e] == ')' && t[e + 1] == ']'
            && t[2..a] == name && t[b + 2..e] == digits
            && (forall j :: 2 <= j < a ==> t[j] == name[j - 2])
            && (forall j :: a + 2 <= j < b ==> t[j] == display[j - a - 2])
            && (forall j :: b + 2 <= j < e ==> t[j] == digits[j - b - 2])
  {
  }

  /** The regular expression on the positions of a counter's parts. */
  lemma CounterAtParts(s: string, a: nat, b: nat, e: nat)
    requires 2 < a && a + 2 < b && b + 2 < e && e + 1 < |s|
    requires s[0] == '[' && s[1] == '(' && s[a] == ')' && s[a + 1] == '('
    requires s[b] == ')' && s[b + 1] == '(' && s[e] == ')' && s[e + 1] == ']'
    requires forall j :: 2 <= j < a ==> IsWordChar(s[j])
    requires forall j :: a + 2 <= j < b ==> s[j] != ')'
    requires forall j :: b + 2 <= j < e ==> IsDigit(s[j])
    ensures CounterAt(s, 0) == Some(CounterMatch(s[2..a], s[b + 2..e], e + 2))
  {
    NameEndAt(s, a);
    DisplayEndAt(s, a, b);
    NumberEndAt(s, b, e);
  }

  lemma NameEndAt(s: string, a: nat)
    requires 2 < a && a + 2 < |s| && s[a] == ')' && s[a + 1] == '(' && s[a + 2] != ')'
    requires forall j :: 2 <= j < a ==> IsWordChar(s[j])
    ensures NameEnd(s, 2) == Some(a)
  {
    WordRunTo(s, 2, a);
  }

  /** A run of word characters ending before a non-word character. */
  lemma {:induction false} WordRunTo(s: string, k: nat, a: nat)
    requires k <= a < |s| && !IsWordChar(s[a])
    requires forall j :: k <= j < a ==> IsWordChar(s[j])
    ensures WordRun(s, k) == a - k
    decreases a - k
  {
    if k < a {
      WordRunTo(s, k + 1, a);
    }
  }

  lemma DisplayEndAt(s: string, a: nat, b: nat)
    requires a + 2 < b && b + 2 < |s| && s[b] == ')' && s[b + 1] == '('
    requires forall j :: a + 2 <= j < b ==> s[j] != ')'
    ensures DisplayEnd(s, a) == Some(b)
  {
    CloseParenTo(s, a + 2, b);
  }

  lemma {:induction false} CloseParenTo(s: string, k: nat, b: nat)
    requires k <= b < |s| && s[b] == ')'
    requires forall j :: k <= j < b ==> s[j] != ')'
    ensures FindFrom(s, k, ')') == Some(b)
    decreases b - k
  {
    if k < b {
      CloseParenTo(s, k + 1, b);
    }
  }

  lemma NumberEndAt(s: string, b: nat, e: nat)
    requires b + 2 < e && e + 1 < |s| && s[e] == ')' && s[e + 1] == ']'
    requires forall j :: b + 2 <= j < e ==> IsDigit(s[j])
    ensures NumberEnd(s, b) == Some(e)
  {
    DigitsTo(s, b + 2, e);
  }

  lemma {:induction false} DigitsTo(s: string, k: nat, e: nat)
    requires k <= e < |s| && !IsDigit(s[e])
    requires forall j :: k <= j < e ==> IsDigit(s[j])
    ensures DigitRun(s, k) == e - k
    decreases e - k
  {
    if k < e {
      DigitsTo(s, k + 1, e);
    }
  }

  /** A counter written in that form is matched whole, name and number intact. */
  lemma CounterAtText(name: string, display: string, digits: string, rest: string)
    requires |name| > 0 && forall c :: c in name ==> IsWordChar(c)
    requires |display| > 0 && ')' !in display
    requires IsDigitString(digits)
    ensures var t := CounterText(name, display, digits);
            CounterAt(t + rest, 0) == Some(CounterMatch(name, digits, |t|))
  {
    CounterTextLayout(name, display, digits);
    CounterAtLaidOut(CounterText(name, display, digits), rest, name, display, digits);
  }

  /** The same, from the positions of the parts alone. */
  lemma CounterAtLaidOut(t: string, rest: string, name: string, display: string, digits: string)
    requires |name| > 0 && forall c :: c in name ==> IsWordChar(c)
    requires |display| > 0 && ')' !in display
    requires IsDigitString(digits)
    requires var a := 2 + |name|;
             var b := a + 2 + |display|;
             var e := b + 2 + |digits|;
             && |t| == e + 2
             && t[0] == '[' && t[1] == '(' && t[a] == ')' && t[a + 1] == '('
             && t[b] == ')' && t[b + 1] == '(' && t[e] == ')' && t[e + 1] == ']'
             && t[2..a] == name && t[b + 2..e] == digits
             && (forall j :: 2 <= j < a ==> t[j] == name[j - 2])
             && (forall j :: a + 2 <= j < b ==> t[j] == display[j - a - 2])
             && (forall j :: b + 2 <= j < e ==> t[j] == digits[j - b - 2])
    ensures CounterAt(t + rest, 0) == Some(CounterMatch(name, digits, |t|))
  {
    var s := t + rest;
    var a := 2 + |name|;
    var b := a + 2 + |display|;
    var e := b + 2 + |digits|;
    forall j | 2 <= j < a
      ensures IsWordChar(s[j])
    {
      assert s[j] == name[j - 2] && name[j - 2] in name;
    }
    forall j | a + 2 <= j < b
      ensures s[j] != ')'
    {
      assert s[j] == display[j - a - 2] && display[j - a - 2] in display;
    }
    forall j | b + 2 <= j < e
      ensures IsDigit(s[j])
    {
      assert s[j] == digits[j - b - 2];
    }
    CounterAtParts(s, a, b, e);
    PrefixSlice(t, rest, 2, a);
    PrefixSlice(t, rest, b + 2, e);
  }

  /** A slice inside `t` is the same slice of `t + rest`. */
  lemma PrefixSlice(t: string, rest: string, i: nat, j: nat)
    requires i <= j <= |t|
    ensures (t + rest)[i..j] == t[i..j]
  {
  }

  /** One counter alone: stored under its lower-cased name when the filter
      passes it, dropped otherwise. */
  lemma ParseOneCounter(name: string, display: string, digits: string, filter: seq<string>)
    requires |name| > 0 && forall c :: c in name ==> IsWordChar(c)
    requires |display| > 0 && ')' !in display
    requires IsDigitString(digits)
    ensures ParseCountersWith(CounterText(name, display, digits), filter)
            == if Passes(name, filter) then map[Lower(name) := ParseDigits(digits)] else map[]
  {
    OneCounterMatch(name, display, digits);
    CollectOne(CounterMatch(name, digits, |CounterText(name, display, digits)|), filter);
  }

  /** One counter's text holds exactly one match. */
  lemma OneCounterMatch(name: string, display: string, digits: string)
    requires |name| > 0 && forall c :: c in name ==> IsWordChar(c)
    requires |display| > 0 && ')' !in display
    requires IsDigitString(digits)
    ensures var t := CounterText(name, display, digits);
            CounterMatches(t, 0) == [CounterMatch(name, digits, |t|)]
  {
    var t := CounterText(name, display, digits);
    CounterAtText(name, display, digits, "");
    assert t + "" == t;
    assert CounterMatches(t, |t|) == [];
  }

  /** The loop over a single match. */
  lemma CollectOne(m: CounterMatch, filter: seq<string>)
    requires IsDigitString(m.digits)
    ensures CollectCounters(map[], [m], filter)
            == if Passes(m.name, filter) then map[Lower(m.name) := ParseDigits(m.digits)] else map[]
  {
    var acc := if Passes(m.name, filter) then map[][Lower(m.name) := ParseDigits(m.digits)] else map[];
    assert [m][1..] == [];
    assert CollectCounters(map[], [m], filter) == CollectCounters(acc, [], filter);
  }

  /** A counter outside `CounterFilter` is dropped. */
  lemma UnfilteredCounterDropped()
    ensures ParseCounters(CounterText("CPU", "x", "7")) == map[]
  {
    var name := "CPU";
    assert forall c :: c in name ==> IsWordChar(c) by {
      assert name == ['C', 'P', 'U'];
    }
    assert !Passes(name, CounterFilter) by {
      assert |name| == 3;
      assert forall k :: 0 <= k < |CounterFilter| ==> |CounterFilter[k]| > 3;
    }
    assert IsDigitString("7");
    ParseOneCounter(name, "x", "7", CounterFilter);
  }

  // ---------------------------------------------------------------------------
  // Attempt ids.

  /** `simplify(id)`: the id without its first three `_`-separated parts. */
  function Simplify(id: string): (r: string)
    ensures |Split(id, '_')| < 4 ==> r == ""
  {
    var parts := Split(id, '_');
    if |parts| <= 3 then "" else Join(parts[3..], '_')
  }

  /** For `a_b_c_rest` with underscore-free `a`, `b`, `c`, `simplify` gives
      `rest`. */
  lemma SimplifyDropsThree(a: string, b: string, c: string, rest: string)
    requires '_' !in a && '_' !in b && '_' !in c
    ensures Simplify(a + "_" + b + "_" + c + "_" + rest) == rest
  {
    var id := a + "_" + b + "_" + c + "_" + rest;
    assert id == a + ['_'] + (b + ['_'] + (c + ['_'] + rest));
    SplitAfterPiece(a, b + ['_'] + (c + ['_'] + rest), '_');
    SplitAfterPiece(b, c + ['_'] + rest, '_');
    SplitAfterPiece(c, rest, '_');
    var parts := Split(id, '_');
    assert parts == [a, b, c] + Split(rest, '_');
    assert parts[3..] == Split(rest, '_');
    JoinSplit(rest, '_');
  }

  /** The index fields `update_attempt` reads from `TASK_ATTEMPT_ID`: the last
      two `_`-separated parts through `int()`. None when there are fewer than two
      parts (`fds[-2]` raises IndexError) or a part is not an integer
      (ValueError). */
  function AttemptIndices(v: string): (r: Option<(int, int)>)
    ensures r.Some? <==> && LastTwoFields(v).Some?
                         && ParseInt(LastTwoFields(v).value.0).Some?
                         && ParseInt(LastTwoFields(v).value.1).Some?
  {
    match LastTwoFields(v)
    case None => None
    case Some(f) =>
      var task, attempt := ParseInt(f.0), ParseInt(f.1);
      if task.Some? && attempt.Some? then Some((task.value, attempt.value)) else None
  }

  /** `fds[-2]` and `fds[-1]` of `v.split('_')`; None when there are fewer than
      two parts. */
  function LastTwoFields(v: string): (r: Option<(string, string)>)
    ensures r.None? <==> |Split(v, '_')| < 2
  {
    var fds := Split(v, '_');
    if |fds| < 2 then None else Some((fds[|fds| - 2], fds[|fds| - 1]))
  }

  /** An id ending in `_<task>_<n>` with decimal `task` and `n` yields those two
      numbers, whatever comes before. */
  lemma AttemptIndicesLast(pre: string, task: string, n: string)
    requires IsDigitString(task) && IsDigitString(n)
    ensures AttemptIndices(pre + "_" + task + "_" + n) == Some((ParseDigits(task) as int, ParseDigits(n) as int))
  {
    assert '_' !in task by { assert forall k :: 0 <= k < |task| ==> IsDigit(task[k]); }
    assert '_' !in n by { assert forall k :: 0 <= k < |n| ==> IsDigit(n[k]); }
    SplitLastPiece(pre, task, '_');
    SplitLastPiece(pre + "_" + task, n, '_');
    var fds := Split(pre + "_" + task + "_" + n, '_');
    assert fds == Split(pre, '_') + [task] + [n];
    assert LastTwoFields(pre + "_" + task + "_" + n) == Some((task, n));
  }
}
