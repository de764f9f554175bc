/** The output step of the scanner: the document written for the JSON and
    YAML formats, the choice of format, and the CSV text. Writing files and
    serialising JSON or YAML are outside the model. */
module OutputWriter {
  import opened JsValue
  import opened Terms
  import opened TermExtractor
  import Config = ConfigManager

  // ---------------------------------------------------------------------
  // The output document

  datatype Metadata = Metadata(extractedAt: string, totalTerms: nat, summary: Summary)

  datatype OutputData = OutputData(metadata: Metadata, terms: seq<Term>)

  /** The short form of a term: only `text` and `extractedAt`. */
  function TextOnly(t: Term): Term {
    Term(t.text, None, None, None, t.extractedAt, None)
  }

  /** `outputData` of `outputResults`: the terms as they are when locations
      are included, otherwise each reduced to its text and timestamp. */
  function OutputDataOf(terms: seq<Term>, includeLocation: bool, summary: Summary, now: string): (r: OutputData)
    ensures r.metadata.totalTerms == |terms| && |r.terms| == |terms|
    ensures r.metadata.extractedAt == now && r.metadata.summary == summary
    ensures includeLocation ==> r.terms == terms
    ensures forall i :: 0 <= i < |terms| ==>
      r.terms[i].text == terms[i].text && r.terms[i].extractedAt == terms[i].extractedAt
    ensures !includeLocation ==> forall i :: 0 <= i < |terms| ==>
      && r.terms[i].file.None? && r.terms[i].position.None?
      && r.terms[i].argumentIndex.None? && r.terms[i].locations.None?
  {
    OutputData(
      Metadata(now, |terms|, summary),
      if includeLocation then terms else seq(|terms|, i requires 0 <= i < |terms| => TextOnly(terms[i])))
  }

  /** Reducing is idempotent: the short form of the short form is itself. */
  lemma ShortFormStable(terms: seq<Term>, summary: Summary, now: string)
    ensures OutputDataOf(OutputDataOf(terms, false, summary, now).terms, false, summary, now).terms ==
      OutputDataOf(terms, false, summary, now).terms
  {
  }

  // ---------------------------------------------------------------------
  // Choosing the format

  datatype OutputFormat = Json | Csv | Yaml

  function AsciiLower(s: string): (r: string)
    ensures |r| == |s|
  {
    if s == [] then []
    else [if 'A' <= s[0] <= 'Z' then (s[0] as int + 32) as char else s[0]] + AsciiLower(s[1..])
  }

  const UnsupportedFormatPrefix: string := "不支持的输出格式: "

  /** `switch ((outputConfig.format || 'json').toLowerCase())`: a truthy
      non-string format throws a TypeError; an unknown name is reported with
      its original spelling. */
  function SelectFormat(format: Value): (r: Result<OutputFormat, string>)
    ensures r.Ok? ==> !Truthy(format) || format.Str?
    ensures r == Ok(Json) && Truthy(format) ==> AsciiLower(format.s) == "json"
    ensures r == Ok(Csv) ==> Truthy(format) && AsciiLower(format.s) == "csv"
    ensures r == Ok(Yaml) ==> Truthy(format) && AsciiLower(format.s) == "yaml"
  {
    var f := Or(format, Str("json"));
    if !f.Str? then Err("format.toLowerCase is not a function")
    else
      var name := AsciiLower(f.s);
      if name == "json" then Ok(Json)
      else if name == "csv" then Ok(Csv)
      else if name == "yaml" then Ok(Yaml)
      else Err(UnsupportedFormatPrefix + f.s)
  }

  lemma {:induction false} AsciiLowerIdempotent(s: string)
    ensures AsciiLower(AsciiLower(s)) == AsciiLower(s)
  {
    if s != [] {
      AsciiLowerIdempotent(s[1..]);
      assert AsciiLower(s)[1..] == AsciiLower(s[1..]);
    }
  }

  /** A missing or empty format means JSON; any other falsy value too. */
  lemma FormatDefault(format: Value)
    requires !Truthy(format)
    ensures SelectFormat(format) == Ok(Json)
  {
    assert AsciiLower("json") == "json";
  }

  /** The format name is matched without regard to case: a name selects the
      same format as its lower-case spelling, and an unknown name is
      reported as it was written. */
  lemma FormatCaseInsensitive(s: string)
    requires s != ""
    ensures SelectFormat(Str(s)).Ok? ==> SelectFormat(Str(AsciiLower(s))) == SelectFormat(Str(s))
    ensures SelectFormat(Str(s)).Err? ==> SelectFormat(Str(s)) == Err(UnsupportedFormatPrefix + s)
  {
    AsciiLowerIdempotent(s);
  }

  /** A truthy format that is not a string throws. */
  lemma FormatNotAString(format: Value)
    requires Truthy(format) && !format.Str?
    ensures SelectFormat(format).Err?
  {
  }

  /** The getter's `|| 'json'` and the output step's `|| 'json'` agree: for
      every loaded document, the format chosen from `getOutputConfig()` is
      the one chosen from the raw `output_config.format`. */
  lemma GetterFormatAgrees(m: Config.ConfigManager)
    requires Truthy(m.config)
    ensures m.GetOutputConfig().Ok?
    ensures SelectFormat(m.GetOutputConfig().value.format) == SelectFormat(Get(Get(m.config, "output_config"), "format"))
  {
    assert AsciiLower("json") == "json";
  }

  /** A configured format spelled `csv` in any case selects CSV output,
      whatever else the document holds. */
  lemma SelectFormatOfConfig(m: Config.ConfigManager, output: map<string, Value>, s: string)
    requires m.config.Obj? && "output_config" in m.config.fields && m.config.fields["output_config"] == Obj(output)
    requires "format" in output && output["format"] == Str(s)
    requires AsciiLower(s) == "csv"
    ensures m.GetOutputConfig().Ok? && SelectFormat(m.GetOutputConfig().value.format) == Ok(Csv)
  {
  }

  // ---------------------------------------------------------------------
  // CSV

  const CsvHeader: string := "文本,文件,位置,参数索引,提取时间"

  /** `s.replace(/"/g, '""')` */
  function DoubleQuotes(s: string): (r: string)
    ensures |r| >= |s|
  {
    if s == [] then []
    else (if s[0] == '"' then "\"\"" else [s[0]]) + DoubleQuotes(s[1..])
  }

  function TextField(text: string): string {
    "\"" + DoubleQuotes(text) + "\""
  }

  /** `"${term.file}"`: quoted without escaping; an absent file (a merged
      term) prints as `undefined`. */
  function FileField(file: Option<string>): string {
    "\"" + (match file case Some(f) => f case None => "undefined") + "\""
  }

  /** `${v || ''}` for one end of the position. */
  function PositionEnd(v: int): string {
    if v == 0 then "" else IntToString(v)
  }

  function PositionField(position: Option<Position>): string {
    match position
    case Some(p) => "\"" + PositionEnd(p.start) + "-" + PositionEnd(p.end) + "\""
    case None => "\"-\""
  }

  /** `term.argumentIndex || ''` */
  function ArgumentIndexField(index: Option<int>): string {
    match index
    case Some(i) => if i == 0 then "" else IntToString(i)
    case None => ""
  }

  /** `term.extractedAt || ''` */
  function ExtractedAtField(extractedAt: Option<string>): string {
    match extractedAt
    case Some(s) => s
    case None => ""
  }

  /** `items.join(sep)` */
  function Join(items: seq<string>, sep: string): string {
    if items == [] then ""
    else if |items| == 1 then items[0]
    else Join(items[..|items| - 1], sep) + sep + items[|items| - 1]
  }

  lemma {:induction false} JoinFront(items: seq<string>, sep: string)
    requires |items| >= 2
    ensures Join(items, sep) == items[0] + sep + Join(items[1..], sep)
  {
    var n := |items| - 1;
    if |items| > 2 {
      JoinFront(items[..n], sep);
      assert items[..n][1..] == items[1..][..|items[1..]| - 1];
    } else {
      assert items[..n] == [items[0]] && items[1..] == [items[1]];
    }
  }

  /** The five fields of one term's row. */
  function RowFields(t: Term): seq<string> {
    [TextField(t.text), FileField(t.file), PositionField(t.position),
     ArgumentIndexField(t.argumentIndex), ExtractedAtField(t.extractedAt)]
  }

  /** `[fields].join(',')`: the quoted text field first, then a comma and
      the other four fields. */
  function CsvRow(t: Term): (r: string)
    ensures r == TextField(t.text) + RowTail(t)
  {
    JoinFront(RowFields(t), ",");
    Join(RowFields(t), ",")
  }

  /** The row after its text field: a comma and the other four fields. */
  function RowTail(t: Term): string {
    "," + Join(RowFields(t)[1..], ",")
  }

  /** One row per term, in order. */
  function CsvRows(terms: seq<Term>): (r: seq<string>)
    ensures |r| == |terms|
  {
    seq(|terms|, i requires 0 <= i < |terms| => CsvRow(terms[i]))
  }

  /** The text `outputCsv(terms, outputFile)` writes. */
  method OutputCsv(terms: seq<Term>) returns (csv: string)
    ensures csv == Join([CsvHeader] + CsvRows(terms), "\n")
  {
    var rows := [CsvHeader];
    var i := 0;
    while i < |terms|
      invariant 0 <= i <= |terms|
      invariant rows == [CsvHeader] + CsvRows(terms[..i])
    {
      assert terms[..i + 1][..i] == terms[..i];
      assert CsvRows(terms[..i + 1]) == CsvRows(terms[..i]) + [CsvRow(terms[i])];
      var row := CsvRow(terms[i]);
      rows := rows + [row];
      i := i + 1;
    }
    assert terms[..i] == terms;
    csv := Join(rows, "\n");
  }

  // Reading the text field back

  /** Reads the body of a quoted field: `""` stands for one quote and a
      lone quote ends the field. Returns the text and what follows. */
  function ReadQuotedBody(s: string): Option<(string, string)> {
    if s == [] then None
    else if s[0] == '"' then
      if |s| >= 2 && s[1] == '"' then
        match ReadQuotedBody(s[2..])
        case Some(p) => Some(("\"" + p.0, p.1))
        case None => None
      else Some(("", s[1..]))
    else
      match ReadQuotedBody(s[1..])
      case Some(p) => Some(([s[0]] + p.0, p.1))
      case None => None
  }

  function ReadQuotedField(s: string): Option<(string, string)> {
    if s != [] && s[0] == '"' then ReadQuotedBody(s[1..]) else None
  }

  lemma {:induction false} ReadQuotedBodyRoundTrip(text: string, rest: string)
    requires rest == [] || rest[0] != '"'
    ensures ReadQuotedBody(DoubleQuotes(text) + "\"" + rest) == Some((text, rest))
  {
    var s := DoubleQuotes(text) + "\"" + rest;
    if text == [] {
      assert s == "\"" + rest;
      assert s[1..] == rest;
    } else if text[0] == '"' {
      assert s == "\"\"" + (DoubleQuotes(text[1..]) + "\"" + rest);
      assert s[2..] == DoubleQuotes(text[1..]) + "\"" + rest;
      ReadQuotedBodyRoundTrip(text[1..], rest);
      assert "\"" + text[1..] == text;
    } else {
      assert s == [text[0]] + (DoubleQuotes(text[1..]) + "\"" + rest);
      assert s[1..] == DoubleQuotes(text[1..]) + "\"" + rest;
      ReadQuotedBodyRoundTrip(text[1..], rest);
      assert [text[0]] + text[1..] == text;
    }
  }

  /** Undoing the quote doubling recovers the text exactly, whatever it
      holds (quotes, commas, line breaks), and leaves the rest of the row. */
  lemma TextFieldRoundTrip(t: Term)
    ensures ReadQuotedField(CsvRow(t)) == Some((t.text, RowTail(t)))
  {
    var tail := RowTail(t);
    var body := DoubleQuotes(t.text) + "\"" + tail;
    assert tail[0] == ',';
    ReadQuotedBodyRoundTrip(t.text, tail);
    assert CsvRow(t) == "\"" + body;
    assert CsvRow(t)[1..] == body;
  }

  // Splitting the text back into lines

  function LastNewline(s: string): (r: Option<nat>)
    ensures r.Some? ==> r.value < |s| && s[r.value] == '\n' && '\n' !in s[r.value + 1..]
    ensures r.None? ==> '\n' !in s
  {
    if s == [] then None
    else if s[|s| - 1] == '\n' then Some(|s| - 1)
    else
      var r := LastNewline(s[..|s| - 1]);
      LastNewlineStep(s, r);
      r
  }

  /** A last character other than a line break keeps the last line break
      of the rest. */
  lemma LastNewlineStep(s: string, r: Option<nat>)
    requires s != [] && s[|s| - 1] != '\n'
    requires r.Some? ==> r.value < |s| - 1 && s[..|s| - 1][r.value] == '\n' && '\n' !in s[..|s| - 1][r.value + 1..]
    requires r.None? ==> '\n' !in s[..|s| - 1]
    ensures r.Some? ==> r.value < |s| && s[r.value] == '\n' && '\n' !in s[r.value + 1..]
    ensures r.None? ==> '\n' !in s
  {
    var p := s[..|s| - 1];
    if r.Some? {
      assert s[r.value] == p[r.value];
      assert s[r.value + 1..] == p[r.value + 1..] + [s[|s| - 1]];
    } else {
      assert s == p + [s[|s| - 1]];
    }
  }

  /** `s.split('\n')` */
  function SplitLines(s: string): seq<string>
    decreases |s|
  {
    match LastNewline(s)
    case None => [s]
    case Some(i) => SplitLines(s[..i]) + [s[i + 1..]]
  }

  lemma {:induction false} SplitJoin(lines: seq<string>)
    requires lines != []
    requires forall k :: 0 <= k < |lines| ==> '\n' !in lines[k]
    ensures SplitLines(Join(lines, "\n")) == lines
  {
    if |lines| > 1 {
      var n := |lines| - 1;
      var init := Join(lines[..n], "\n");
      var s := init + "\n" + lines[n];
      assert s[|init|] == '\n' && s[..|init|] == init && s[|init| + 1..] == lines[n];
      LastNewlineAfter(init, lines[n]);
      SplitJoin(lines[..n]);
      assert lines[..n] + [lines[n]] == lines;
    }
  }

  lemma {:induction false} LastNewlineAfter(a: string, b: string)
    requires '\n' !in b
    ensures LastNewline(a + "\n" + b) == Some(|a|)
    decreases |b|
  {
    var s := a + "\n" + b;
    if b != [] {
      var n := |b| - 1;
      assert s[|s| - 1] == b[n];
      assert s[..|s| - 1] == a + "\n" + b[..n];
      LastNewlineAfter(a, b[..n]);
    }
  }

  /** When no field holds a line break, the CSV text consists of the header
      line followed by exactly one line per term, in order. */
  lemma CsvLines(terms: seq<Term>)
    requires forall i :: 0 <= i < |terms| ==> '\n' !in CsvRow(terms[i])
    ensures SplitLines(Join([CsvHeader] + CsvRows(terms), "\n")) == [CsvHeader] + CsvRows(terms)
    ensures |SplitLines(Join([CsvHeader] + CsvRows(terms), "\n"))| == |terms| + 1
  {
    var lines := [CsvHeader] + CsvRows(terms);
    forall k | 0 <= k < |lines| ensures '\n' !in lines[k] {
      if k > 0 {
        assert lines[k] == CsvRow(terms[k - 1]);
      }
    }
    SplitJoin(lines);
  }

  /** A freshly extracted term, whose position is {0, 0}, and a merged
      term, which has no position, print the same position field; the
      first argument prints the same index field as a missing index. */
  lemma FalsyFieldsPrintEmpty(text: string, file: string, now: string, locations: seq<Location>)
    ensures var extracted := Occurrence(text, file, 0, now);
            var merged := Term(text, None, None, Some(0), Some(now), Some(locations));
            && PositionField(extracted.position) == PositionField(merged.position) == "\"-\""
            && ArgumentIndexField(extracted.argumentIndex) == ArgumentIndexField(None) == ""
            && FileField(merged.file) == "\"undefined\""
  {
  }
}
