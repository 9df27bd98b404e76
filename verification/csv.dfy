/** The CSV side of util.py: `to_csv_value`, the line layout `table_to_csv`
    writes, and `load_csv` with its `pline` line parser, on in-memory text. */
module Csv {
  import opened Common
  import opened Strings

  /** A table as `table_to_csv` takes it and `load_csv` returns it:
      `{"columns": ..., "data": [row, ...]}`. */
  datatype Table = Table(columns: seq<Value>, data: seq<seq<Value>>)

  /** The exceptions the two functions raise. */
  datatype CsvError =
    | TypeError   // `",".join(columns)` with a column that is not a string
    | IndexError  // `pline("")` reads `line[-1]` of an empty line

  /** `s.replace(',', '')`. */
  function RemoveCommas(s: string): (r: string)
    ensures ',' !in r
    ensures multiset(r) == multiset(s)[',' := 0]
    ensures ',' !in s ==> r == s
  {
    if s == [] then []
    else
      assert s == [s[0]] + s[1..];
      (if s[0] == ',' then [] else [s[0]]) + RemoveCommas(s[1..])
  }

  /** `to_csv_value(v)`: `None` is empty, a string loses its commas, an integer
      is written in decimal, anything else is its `str()` text unchanged. */
  function ToCsvValue(v: Value): (r: string)
    ensures v.Null? ==> r == ""
    ensures v.Str? ==> ',' !in r && multiset(r) == multiset(v.s)[',' := 0]
    ensures v.Str? && ',' !in v.s ==> r == v.s
    ensures v.Int? ==> ParseInt(r) == Some(v.i) && (v.i >= 0 <==> IsDigitString(r))
    ensures v.Other? ==> r == v.text
  {
    match v
    case Null => ""
    case Str(s) => RemoveCommas(s)
    case Int(i) => ParseShowInt(i); ShowInt(i)
    case Other(text) => text
  }

  /** The cells of a row rendered by `to_csv_value`. */
  function Cells(row: seq<Value>): (r: seq<string>)
    ensures |r| == |row|
    ensures forall i :: 0 <= i < |row| ==> r[i] == ToCsvValue(row[i])
  {
    if row == [] then [] else [ToCsvValue(row[0])] + Cells(row[1..])
  }

  /** The header cells, when every column name is a string. */
  function ColumnNames(columns: seq<Value>): (r: Option<seq<string>>)
    ensures r.Some? <==> forall i :: 0 <= i < |columns| ==> columns[i].Str?
    ensures r.Some? ==> |r.value| == |columns| && forall i :: 0 <= i < |columns| ==> r.value[i] == columns[i].s
  {
    if columns == [] then Some([])
    else if !columns[0].Str? then None
    else
      match ColumnNames(columns[1..])
      case None => None
      case Some(rest) => Some([columns[0].s] + rest)
  }

  /** Lines written one after another, each followed by `"\n"`. */
  function Text(lines: seq<string>): string {
    if lines == [] then "" else lines[0] + "\n" + Text(lines[1..])
  }

  /** Each line with its `"\n"`. */
  function Ended(lines: seq<string>): (r: seq<string>)
    ensures |r| == |lines|
    ensures forall i :: 0 <= i < |lines| ==> r[i] == lines[i] + "\n"
  {
    if lines == [] then [] else [lines[0] + "\n"] + Ended(lines[1..])
  }

  /** The body lines, one per row. */
  function RowLines(data: seq<seq<Value>>): (r: seq<string>)
    ensures |r| == |data|
    ensures forall i :: 0 <= i < |data| ==> r[i] == Join(Cells(data[i]), ',')
  {
    if data == [] then [] else [Join(Cells(data[0]), ',')] + RowLines(data[1..])
  }

  /** `table_to_csv(ret, fout)`, returning what it writes to `fout`: the joined
      header, then one line per row, every line ended by `"\n"`. */
  function TableToCsv(t: Table): (r: Result<string, CsvError>)
    ensures r.Failure? <==> exists i :: 0 <= i < |t.columns| && !t.columns[i].Str?
    ensures r.Failure? ==> r.error == TypeError
  {
    match ColumnNames(t.columns)
    case None => Failure(TypeError)
    case Some(names) => Success(Text([Join(names, ',')] + RowLines(t.data)))
  }

  // ---------------------------------------------------------------------------
  // Reading back.

  /** The index of the first `c` in `s`. */
  function FindChar(s: string, c: char): (r: Option<nat>)
    ensures r.None? <==> c !in s
    ensures r.Some? ==> r.value < |s| && s[r.value] == c && c !in s[..r.value]
  {
    if s == [] then None
    else if s[0] == c then Some(0)
    else
      match FindChar(s[1..], c)
      case None => None
      case Some(i) =>
        assert s[..i + 1] == [s[0]] + s[1..][..i];
        Some(i + 1)
  }

  /** The lines a file iteration yields: each keeps its `"\n"`, the last may
      lack one, and there is no empty line. */
  function SplitLines(s: string): (r: seq<string>)
    ensures forall i :: 0 <= i < |r| ==> r[i] != ""
    decreases |s|
  {
    if s == [] then []
    else
      match FindChar(s, '\n')
      case None => [s]
      case Some(i) => [s[..i + 1]] + SplitLines(s[i + 1..])
  }

  /** One field of `pline`: an integer iff it is a non-empty run of decimal
      digits (`e.isdigit()`), the text itself otherwise. */
  function ParseField(e: string): (v: Value)
    ensures v.Int? <==> IsDigitString(e)
    ensures v.Int? ==> v.i >= 0 && ParseInt(e) == Some(v.i)
    ensures v.Str? ==> v.s == e
    ensures !v.Null?
  {
    if IsDigitString(e) then Int(ParseDigits(e)) else Str(e)
  }

  function ParseFields(fs: seq<string>): (r: seq<Value>)
    ensures |r| == |fs|
    ensures forall i :: 0 <= i < |fs| ==> r[i] == ParseField(fs[i])
  {
    if fs == [] then [] else [ParseField(fs[0])] + ParseFields(fs[1..])
  }

  /** The fields of a non-empty line: drop one trailing `"\n"`, split on `','`,
      convert each field. */
  function LineFields(line: string): (r: seq<Value>)
    requires line != ""
    ensures var body := if line[|line| - 1] == '\n' then line[..|line| - 1] else line;
            var fs := Split(body, ',');
            && |r| == |fs|
            && forall i :: 0 <= i < |fs| ==> (r[i].Int? <==> IsDigitString(fs[i])) && (r[i].Str? ==> r[i].s == fs[i])
  {
    var body := if line[|line| - 1] == '\n' then line[..|line| - 1] else line;
    ParseFields(Split(body, ','))
  }

  /** `pline(line)`, which fails on an empty line as `line[-1]` does. */
  function ParseLine(line: string): (r: Result<seq<Value>, CsvError>)
    ensures r.Failure? <==> line == ""
    ensures r.Failure? ==> r.error == IndexError
    ensures r.Success? ==> |r.value| >= 1
  {
    if line == [] then Failure(IndexError) else Success(LineFields(line))
  }

  function Rows(lines: seq<string>): (r: seq<seq<Value>>)
    requires forall i :: 0 <= i < |lines| ==> lines[i] != ""
    ensures |r| == |lines|
    ensures forall i :: 0 <= i < |lines| ==> r[i] == LineFields(lines[i])
  {
    if lines == [] then [] else [LineFields(lines[0])] + Rows(lines[1..])
  }

  /** `load_csv(fin)`: the first line (`readline()`, which is `""` on an empty
      file, making `pline` fail) gives the columns, every further line a row.
      File iteration never yields an empty line, so rows never fail. */
  function LoadCsv(text: string): (r: Result<Table, CsvError>)
    ensures r.Failure? <==> text == ""
    ensures r.Success? ==> |r.value.data| == |SplitLines(text)| - 1
  {
    var lines := SplitLines(text);
    if lines == [] then Failure(IndexError)
    else Success(Table(LineFields(lines[0]), Rows(lines[1..])))
  }

  // ---------------------------------------------------------------------------
  // The round trip.

  /** Text that survives a cell: no comma, no line break, not all digits. */
  predicate SafeText(s: string) {
    ',' !in s && '\n' !in s && !IsDigitString(s)
  }

  predicate SafeCell(v: Value) {
    (v.Int? && v.i >= 0) || (v.Str? && SafeText(v.s))
  }

  predicate SafeRow(row: seq<Value>) {
    |row| >= 1 && forall i :: 0 <= i < |row| ==> SafeCell(row[i])
  }

  /** The conditions under which writing then reading gives the table back:
      at least one column, every column name and every cell safe, and no row
      empty. */
  predicate CsvSafe(t: Table) {
    && SafeRow(t.columns)
    && (forall i :: 0 <= i < |t.columns| ==> t.columns[i].Str?)
    && forall r :: 0 <= r < |t.data| ==> SafeRow(t.data[r])
  }

  lemma {:induction false} FindAfterPiece(p: string, t: string, c: char)
    requires c !in p
    ensures FindChar(p + [c] + t, c) == Some(|p|)
    decreases |p|
  {
    if p != [] {
      assert (p + [c] + t)[1..] == p[1..] + [c] + t;
      FindAfterPiece(p[1..], t, c);
    }
  }

  lemma {:induction false} SplitLinesText(lines: seq<string>)
    requires forall i :: 0 <= i < |lines| ==> '\n' !in lines[i]
    ensures SplitLines(Text(lines)) == Ended(lines)
    decreases |lines|
  {
    if lines != [] {
      var l := lines[0];
      var rest := Text(lines[1..]);
      assert Text(lines) == l + ['\n'] + rest;
      FindAfterPiece(l, rest, '\n');
      assert (l + ['\n'] + rest)[..|l| + 1] == l + "\n";
      assert (l + ['\n'] + rest)[|l| + 1..] == rest;
      SplitLinesText(lines[1..]);
    }
  }

  lemma {:induction false} JoinAvoids(parts: seq<string>, sep: char, c: char)
    requires c != sep
    requires forall i :: 0 <= i < |parts| ==> c !in parts[i]
    ensures c !in Join(parts, sep)
    decreases |parts|
  {
    if |parts| > 1 {
      JoinAvoids(parts[1..], sep, c);
    }
  }

  lemma SafeCellText(v: Value)
    requires SafeCell(v)
    ensures ',' !in ToCsvValue(v) && '\n' !in ToCsvValue(v)
    ensures ParseField(ToCsvValue(v)) == v
  {
    if v.Int? {
      var s := ShowInt(v.i);
      assert forall k :: 0 <= k < |s| ==> IsDigit(s[k]);
      ParseShowInt(v.i);
    }
  }

  /** A safe row's line splits back into its cells, and each cell parses back. */
  lemma SafeRowLine(row: seq<Value>)
    requires SafeRow(row)
    ensures '\n' !in Join(Cells(row), ',')
    ensures LineFields(Join(Cells(row), ',') + "\n") == row
  {
    var cells := Cells(row);
    forall i | 0 <= i < |cells|
      ensures ',' !in cells[i] && '\n' !in cells[i] && ParseField(cells[i]) == row[i]
    {
      SafeCellText(row[i]);
    }
    JoinAvoids(cells, ',', '\n');
    SplitJoin(cells, ',');
    var line := Join(cells, ',') + "\n";
    assert line[..|line| - 1] == Join(cells, ',');
    assert ParseFields(cells) == row;
  }

  lemma {:induction false} SafeRowsParse(data: seq<seq<Value>>)
    requires forall r :: 0 <= r < |data| ==> SafeRow(data[r])
    ensures Rows(Ended(RowLines(data))) == data
    decreases |data|
  {
    if data != [] {
      SafeRowLine(data[0]);
      assert RowLines(data) == [Join(Cells(data[0]), ',')] + RowLines(data[1..]);
      assert Ended(RowLines(data))[1..] == Ended(RowLines(data[1..]));
      SafeRowsParse(data[1..]);
      assert data == [data[0]] + data[1..];
    }
  }

  /** The header of string column names is written as the names themselves. */
  lemma HeaderCells(columns: seq<Value>)
    requires SafeRow(columns) && forall i :: 0 <= i < |columns| ==> columns[i].Str?
    ensures ColumnNames(columns).Some? && Cells(columns) == ColumnNames(columns).value
  {
    var names := ColumnNames(columns).value;
    forall i | 0 <= i < |names|
      ensures Cells(columns)[i] == names[i]
    {
      SafeCellText(columns[i]);
    }
  }

  /** No line written for a safe row holds a line break. */
  lemma BodyLinesUnbroken(data: seq<seq<Value>>)
    requires forall r :: 0 <= r < |data| ==> SafeRow(data[r])
    ensures forall i :: 0 <= i < |data| ==> '\n' !in RowLines(data)[i]
  {
    forall i | 0 <= i < |data|
      ensures '\n' !in RowLines(data)[i]
    {
      SafeRowLine(data[i]);
    }
  }

  /** Writing a safe table with `table_to_csv` and reading the text back with
      `load_csv` gives the same table. */
  lemma CsvRoundTrip(t: Table)
    requires CsvSafe(t)
    ensures TableToCsv(t).Success?
    ensures LoadCsv(TableToCsv(t).value) == Success(t)
  {
    var names := ColumnNames(t.columns).value;
    HeaderCells(t.columns);
    SafeRowLine(t.columns);
    var body := RowLines(t.data);
    BodyLinesUnbroken(t.data);
    var lines := [Join(names, ',')] + body;
    SplitLinesText(lines);
    assert Ended(lines) == [Join(names, ',') + "\n"] + Ended(body);
    SafeRowsParse(t.data);
  }
}
