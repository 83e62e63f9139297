/** The attachment text parsers of frontend/src/utils/attachements.ts:
    `parseCSV` (a preamble line, a header line, then comma-separated data
    lines) and `parseJSONL` (one JSON document per line). */
module Attachments {
  import opened Wrappers
  import opened JsString

  // ---------------------------------------------------------------------
  // parseCSV
  // ---------------------------------------------------------------------

  /** One data line as the object the parser builds: header name to field,
      `null` modelled as `None`. */
  type Row = map<string, Option<string>>

  datatype Table = Table(headers: seq<string>, rows: seq<Row>)

  /** `lines[0]` is undefined once the first line is shifted off, and
      `lines[0].split` throws. */
  datatype CsvError = MissingHeaderLine

  /** `values[index] || null`: a field that is absent or empty is `null`,
      any other field is kept verbatim (fields are not trimmed). */
  function Cell(values: seq<string>, i: nat): (c: Option<string>)
    ensures c.Some? <==> i < |values| && values[i] != ""
    ensures c.Some? ==> c.value == values[i]
  {
    if i < |values| && values[i] != "" then Some(values[i]) else None
  }

  /** The object the `reduce` builds: the headers are visited left to right
      and each one assigns its field, so a later duplicate header overwrites
      an earlier one. */
  function Record(headers: seq<string>, values: seq<string>): (row: Row)
    ensures headers != [] ==>
      headers[|headers| - 1] in row && row[headers[|headers| - 1]] == Cell(values, |headers| - 1)
  {
    if headers == [] then map[]
    else Record(headers[..|headers| - 1], values)[headers[|headers| - 1] := Cell(values, |headers| - 1)]
  }

  /** `headers[i]` is not repeated after position `i`. */
  predicate LastOccurrence(headers: seq<string>, i: nat)
    requires i < |headers|
  {
    forall j :: i < j < |headers| ==> headers[j] != headers[i]
  }

  /** A record has exactly the header names as keys. */
  lemma {:induction false} RecordKeys(headers: seq<string>, values: seq<string>)
    ensures Record(headers, values).Keys == set h | h in headers
  {
    if headers != [] {
      var init := headers[..|headers| - 1];
      RecordKeys(init, values);
      assert headers == init + [headers[|headers| - 1]];
    }
  }

  /** The value under a header is the field at that header's last column. */
  lemma {:induction false} RecordValue(headers: seq<string>, values: seq<string>, i: nat)
    requires i < |headers| && LastOccurrence(headers, i)
    ensures headers[i] in Record(headers, values)
    ensures Record(headers, values)[headers[i]] == Cell(values, i)
  {
    var n := |headers| - 1;
    if i < n {
      var init := headers[..n];
      assert init[i] == headers[i];
      assert LastOccurrence(init, i);
      RecordValue(init, values, i);
    }
  }

  /** Fields past the last header are dropped. */
  lemma {:induction false} RecordDropsExtraFields(headers: seq<string>, values: seq<string>)
    requires |values| >= |headers|
    ensures Record(headers, values) == Record(headers, values[..|headers|])
  {
    if headers != [] {
      var n := |headers| - 1;
      var init := headers[..n];
      RecordDropsExtraFields(init, values);
      assert values[..|headers|][..n] == values[..n];
      RecordDropsExtraFields(init, values[..|headers|]);
      assert Cell(values, n) == Cell(values[..|headers|], n);
    }
  }

  /** Builds one record the way the `reduce` does, assigning into an
      accumulator object. */
  method BuildRecord(headers: seq<string>, values: seq<string>) returns (row: Row)
    ensures row == Record(headers, values)
    ensures row.Keys == set h | h in headers
    ensures forall i :: 0 <= i < |headers| && LastOccurrence(headers, i) ==> row[headers[i]] == Cell(values, i)
  {
    row := map[];
    for i := 0 to |headers|
      invariant row == Record(headers[..i], values)
    {
      assert headers[..i + 1][..i] == headers[..i];
      row := row[headers[i] := Cell(values, i)];
    }
    assert headers[..|headers|] == headers;
    RecordKeys(headers, values);
    forall i | 0 <= i < |headers| && LastOccurrence(headers, i) ensures row[headers[i]] == Cell(values, i) {
      RecordValue(headers, values, i);
    }
  }

  /** What `parseCSV` resolves to: the trimmed input split into lines, the
      first line dropped, the next one split on commas into the headers, and
      one record per later line. */
  function CsvTable(data: string): (r: Result<Table, CsvError>)
    ensures r.Success? ==>
      && |Split(Trim(data), '\n')| >= 2
      && r.value.headers == Split(Split(Trim(data), '\n')[1], ',')
      && |r.value.rows| == Count(Trim(data), '\n') - 1
  {
    TableOfLines(Split(Trim(data), '\n'))
  }

  function TableOfLines(lines: seq<string>): (r: Result<Table, CsvError>)
    ensures r.Success? <==> |lines| >= 2
    ensures r.Success? ==> |r.value.rows| == |lines| - 2
  {
    if |lines| < 2 then Failure(MissingHeaderLine)
    else
      var headers := Split(lines[1], ',');
      Success(Table(headers, seq(|lines| - 2, k requires 0 <= k < |lines| - 2 => Record(headers, Split(lines[k + 2], ',')))))
  }

  /** `parseCSV(data)`. */
  method ParseCsv(data: string) returns (r: Result<Table, CsvError>)
    ensures r == CsvTable(data)
    ensures r.Success? <==> '\n' in Trim(data)
    ensures r.Success? ==> |r.value.rows| == Count(Trim(data), '\n') - 1
  {
    var lines := Split(Trim(data), '\n');
    ghost var all := lines;
    CsvFailsIff(data);
    lines := lines[1..];
    if |lines| == 0 {
      return Failure(MissingHeaderLine);
    }
    var headers := Split(lines[0], ',');
    var rows: seq<Row> := [];
    var k := 1;
    while k < |lines|
      invariant 1 <= k <= |lines|
      invariant |rows| == k - 1
      invariant forall j :: 0 <= j < k - 1 ==> rows[j] == Record(headers, Split(all[j + 2], ','))
    {
      var row := BuildRecord(headers, Split(lines[k], ','));
      rows := rows + [row];
      k := k + 1;
    }
    r := Success(Table(headers, rows));
    TableOfLinesRows(all);
    assert TableOfLines(all).value.rows == rows;
  }

  /** `parseCSV` fails exactly when the trimmed input is a single line. */
  lemma CsvFailsIff(data: string)
    ensures CsvTable(data).Failure? <==> '\n' !in Trim(data)
  {
    CountZero(Trim(data), '\n');
  }

  /** In terms of the input's lines: when the trimmed input is the lines `lines`
      joined by newlines, the first line is dropped, the headers are the
      comma-split of the second line and there is one record per later
      line, in order. */
  lemma CsvFromLines(data: string, lines: seq<string>)
    requires |lines| >= 2 && Trim(data) == Join(lines, '\n')
    requires forall k :: 0 <= k < |lines| ==> '\n' !in lines[k]
    ensures CsvTable(data).Success?
    ensures CsvTable(data).value.headers == Split(lines[1], ',')
    ensures |CsvTable(data).value.rows| == |lines| - 2
    ensures forall k :: 0 <= k < |lines| - 2 ==>
      CsvTable(data).value.rows[k] == Record(Split(lines[1], ','), Split(lines[k + 2], ','))
  {
    SplitJoin(lines, '\n');
    TableOfLinesRows(lines);
  }

  /** The records of a table, one per line after the header line. */
  lemma TableOfLinesRows(lines: seq<string>)
    requires |lines| >= 2
    ensures TableOfLines(lines).Success?
    ensures |TableOfLines(lines).value.rows| == |lines| - 2
    ensures forall k :: 0 <= k < |lines| - 2 ==>
      TableOfLines(lines).value.rows[k] == Record(Split(lines[1], ','), Split(lines[k + 2], ','))
  {
  }

  /** Every record has exactly the headers as keys, and the value under a
      header is the field in that header's last column: absent or empty
      fields are `null`, a duplicated header takes the later column. */
  lemma CsvRowFields(data: string, k: nat, i: nat)
    requires CsvTable(data).Success?
    requires k < |CsvTable(data).value.rows| && i < |CsvTable(data).value.headers|
    requires LastOccurrence(CsvTable(data).value.headers, i)
    ensures CsvTable(data).value.rows[k].Keys == set h | h in CsvTable(data).value.headers
    ensures CsvTable(data).value.rows[k][CsvTable(data).value.headers[i]]
         == Cell(Split(Split(Trim(data), '\n')[k + 2], ','), i)
  {
    var t := CsvTable(data).value;
    var values := Split(Split(Trim(data), '\n')[k + 2], ',');
    RecordKeys(t.headers, values);
    RecordValue(t.headers, values, i);
  }

  /** The sample export: preamble, header line "a,b", rows "1,2" and "3". */
  lemma CsvExample()
    ensures CsvTable("preamble\na,b\n1,2\n3\n")
         == Success(Table(["a", "b"], [map["a" := Some("1"), "b" := Some("2")], map["a" := Some("3"), "b" := None]]))
  {
    ExampleLines();
    CsvFromLines("preamble\na,b\n1,2\n3\n", ["preamble", "a,b", "1,2", "3"]);
    ExampleFields();
    ExampleRecords();
    ExampleRows(CsvTable("preamble\na,b\n1,2\n3\n").value.rows);
  }

  /** Proof helper: a two-element sequence as a display. */
  lemma ExampleRows(rows: seq<Row>)
    requires |rows| == 2
    ensures rows == [rows[0], rows[1]]
  {
  }

  lemma ExampleLines()
    ensures Trim("preamble\na,b\n1,2\n3\n") == Join(["preamble", "a,b", "1,2", "3"], '\n')
  {
    ExampleTrim();
    ExampleJoin();
  }

  lemma ExampleTrim()
    ensures Trim("preamble\na,b\n1,2\n3\n") == "preamble\na,b\n1,2\n3"
  {
    var data := "preamble\na,b\n1,2\n3\n";
    assert |data| == 19 && IsWhitespace(data[18]) && !IsWhitespace(data[17]);
    assert SkipWhitespace(data, 0) == 0;
    assert SkipWhitespaceBack(data, 0, 18) == 18;
    assert SkipWhitespaceBack(data, 0, 19) == 18;
    assert data[0..18] == "preamble\na,b\n1,2\n3";
  }

  lemma ExampleJoin()
    ensures Join(["preamble", "a,b", "1,2", "3"], '\n') == "preamble\na,b\n1,2\n3"
  {
    var lines := ["preamble", "a,b", "1,2", "3"];
    assert Join(lines[2..], '\n') == "1,2\n3";
    assert Join(lines[1..], '\n') == "a,b\n1,2\n3";
  }

  lemma ExampleFields()
    ensures Split("a,b", ',') == ["a", "b"]
    ensures Split("1,2", ',') == ["1", "2"]
    ensures Split("3", ',') == ["3"]
  {
    assert "a,b" == "a" + [','] + "b";
    SplitPair("a", "b", ',');
    assert "1,2" == "1" + [','] + "2";
    SplitPair("1", "2", ',');
    SplitNoSep("3", ',');
  }

  lemma ExampleRecords()
    ensures Record(["a", "b"], ["1", "2"]) == map["a" := Some("1"), "b" := Some("2")]
    ensures Record(["a", "b"], ["3"]) == map["a" := Some("3"), "b" := None]
  {
    var h := ["a", "b"];
    assert h[..1] == ["a"];
    assert Record(["a"], ["1", "2"]) == map["a" := Some("1")];
    assert Record(["a"], ["3"]) == map["a" := Some("3")];
  }

  // ---------------------------------------------------------------------
  // parseJSONL
  // ---------------------------------------------------------------------

  /** `JSON.parse` throws on the line at this index (the first one that
      does not parse). */
  datatype JsonlError = MalformedLine(index: nat)

  /** `lines.map(line => JSON.parse(line))`, with `JSON.parse` given as
      `parse`: all lines parsed in order, or the first failure. */
  function ParseEach<J>(lines: seq<string>, parse: string -> Option<J>): (r: Result<seq<J>, JsonlError>)
    ensures r.Success? <==> forall k :: 0 <= k < |lines| ==> parse(lines[k]).Some?
    ensures r.Success? ==> |r.value| == |lines| && forall k :: 0 <= k < |lines| ==> parse(lines[k]) == Some(r.value[k])
    ensures r.Failure? ==>
      && r.error.index < |lines| && parse(lines[r.error.index]).None?
      && forall k :: 0 <= k < r.error.index ==> parse(lines[k]).Some?
  {
    if lines == [] then Success([])
    else match parse(lines[0])
      case None => Failure(MalformedLine(0))
      case Some(v) =>
        match ParseEach(lines[1..], parse)
        case Success(vs) => Success([v] + vs)
        case Failure(MalformedLine(i)) => Failure(MalformedLine(i + 1))
  }

  /** `parseJSONL(data)`. */
  function ParseJsonl<J>(data: string, parse: string -> Option<J>): (r: Result<seq<J>, JsonlError>)
    ensures r.Success? ==> forall k :: 0 <= k < |Split(Trim(data), '\n')| ==> parse(Split(Trim(data), '\n')[k]).Some?
    ensures (forall k :: 0 <= k < |Split(Trim(data), '\n')| ==> parse(Split(Trim(data), '\n')[k]).Some?) ==> r.Success?
    ensures r.Success? ==>
      && |r.value| == |Split(Trim(data), '\n')|
      && forall k :: 0 <= k < |r.value| ==> parse(Split(Trim(data), '\n')[k]) == Some(r.value[k])
  {
    ParseEach(Split(Trim(data), '\n'), parse)
  }

  /** In terms of the input's lines: the output has one value per line of the
      trimmed input, in order, each the parse of its line. */
  lemma JsonlFromLines<J>(data: string, lines: seq<string>, parse: string -> Option<J>)
    requires |lines| >= 1 && Trim(data) == Join(lines, '\n')
    requires forall k :: 0 <= k < |lines| ==> '\n' !in lines[k]
    requires forall k :: 0 <= k < |lines| ==> parse(lines[k]).Some?
    ensures ParseJsonl(data, parse).Success?
    ensures |ParseJsonl(data, parse).value| == |lines|
    ensures forall k :: 0 <= k < |lines| ==> Some(ParseJsonl(data, parse).value[k]) == parse(lines[k])
  {
    SplitJoin(lines, '\n');
  }

  /** An empty line inside the input (two newlines in a row) makes the
      whole call fail when the empty string does not parse: there is no
      partial result. */
  lemma JsonlBlankLineFails<J>(data: string, before: string, after: string, parse: string -> Option<J>)
    requires Trim(data) == before + "\n\n" + after
    requires parse("").None?
    ensures ParseJsonl(data, parse).Failure?
  {
    SplitEmptyPiece(before, after, '\n');
  }

  /** Blank input is one empty line, which fails to parse. */
  lemma JsonlBlankInputFails<J>(data: string, parse: string -> Option<J>)
    requires Trim(data) == ""
    requires parse("").None?
    ensures ParseJsonl(data, parse) == Failure(MalformedLine(0))
  {
  }
}
