/**
 The findings export (reporting/assessment_report_exporter.py::to_findings_csv) and a
 reader for it: section 2 of RFC 4180, with a line feed as the row break.
 */
module FindingsCsv {
  import opened Prelude
  import opened Store
  import opened Text

  // ------------------------------------------------------------------ printing

  /** `value.replace('"', '""')` */
  function Doubled(value: string): string {
    if value == [] then []
    else (if value[0] == '"' then "\"\"" else [value[0]]) + Doubled(value[1..])
  }

  /** `_csv_escape` */
  function CsvEscape(value: string): string {
    "\"" + Doubled(value) + "\""
  }

  function SeverityText(severity: Severity): string {
    match severity
    case Critical => "critical"
    case High => "high"
    case Medium => "medium"
    case Low => "low"
    case Info => "info"
  }

  function ConfidenceText(confidence: Confidence): string {
    match confidence
    case HighConfidence => "high"
    case MediumConfidence => "medium"
    case LowConfidence => "low"
  }

  function ReviewText(status: ReviewStatus): string {
    match status
    case Pending => "pending"
    case Approved => "approved"
    case Rejected => "rejected"
    case Overridden => "overridden"
  }

  /** `str(f.line_start)` */
  function LineText(line: Option<int>): string {
    if line.None? then "None" else PrintInt(line.value)
  }

  const HEADER: seq<string> := [
    "finding_id", "rule_id", "severity", "confidence", "banking_domains", "source_relative_path", "line_start",
    "human_review_status", "masked_evidence"]

  /** A column is written as it is, or quoted. */
  datatype Column = AsIs(text: string) | Quoted(text: string)

  function Render(c: Column): string {
    match c
    case AsIs(text) => text
    case Quoted(text) => CsvEscape(text)
  }

  function RenderRow(row: seq<Column>): string {
    Join(",", Map(Render, row))
  }

  function Texts(row: seq<Column>): seq<string> {
    Map((c: Column) => c.text, row)
  }

  function RowOf(sanitize: string -> string, f: Finding): seq<Column>
    requires f.maskedEvidence.Some?
  {
    [AsIs(f.id), AsIs(f.ruleId), AsIs(SeverityText(f.severity)), AsIs(ConfidenceText(f.confidence)),
     Quoted(Join("|", f.bankingDomains)), Quoted(f.sourceRelativePath), AsIs(LineText(f.lineStart)),
     AsIs(ReviewText(f.humanReviewStatus)), Quoted(sanitize(f.maskedEvidence.value))]
  }

  function HeaderRow(): seq<Column> {
    Map((name: string) => AsIs(name), HEADER)
  }

  /** The evidence column is never null. */
  ghost predicate Exportable(findings: seq<Finding>) {
    forall i :: 0 <= i < |findings| ==> findings[i].maskedEvidence.Some?
  }

  function FindingRows(sanitize: string -> string, findings: seq<Finding>): seq<seq<Column>>
    requires Exportable(findings)
  {
    seq(|findings|, i requires 0 <= i < |findings| => RowOf(sanitize, findings[i]))
  }

  function RowsOf(sanitize: string -> string, findings: seq<Finding>): seq<seq<Column>>
    requires Exportable(findings)
  {
    [HeaderRow()] + FindingRows(sanitize, findings)
  }

  function CsvOf(sanitize: string -> string, findings: seq<Finding>): string
    requires Exportable(findings)
  {
    Join("\n", Map(RenderRow, RowsOf(sanitize, findings)))
  }

  lemma HeaderRendered()
    ensures RenderRow(HeaderRow()) == Join(",", HEADER)
  {
    assert Map(Render, HeaderRow()) == HEADER;
  }

  /** The line the loop builds for one finding. */
  method FindingLine(sanitize: string -> string, f: Finding) returns (line: string)
    requires f.maskedEvidence.Some?
    ensures line == RenderRow(RowOf(sanitize, f))
  {
    var row := [f.id, f.ruleId, SeverityText(f.severity), ConfidenceText(f.confidence),
                CsvEscape(Join("|", f.bankingDomains)),
                CsvEscape(f.sourceRelativePath), LineText(f.lineStart), ReviewText(f.humanReviewStatus),
                CsvEscape(sanitize(f.maskedEvidence.value))];
    assert row == Map(Render, RowOf(sanitize, f));
    line := Join(",", row);
  }

  /** The lines the loop has built after its first `i` findings. */
  function LinesOf(sanitize: string -> string, findings: seq<Finding>, i: nat): seq<string>
    requires Exportable(findings) && i <= |findings|
  {
    Map(RenderRow, RowsOf(sanitize, findings)[..i + 1])
  }

  lemma FirstLine(sanitize: string -> string, findings: seq<Finding>)
    requires Exportable(findings)
    ensures LinesOf(sanitize, findings, 0) == [Join(",", HEADER)]
  {
    HeaderRendered();
    assert RowsOf(sanitize, findings)[..1] == [HeaderRow()];
  }

  lemma NextLine(sanitize: string -> string, findings: seq<Finding>, i: nat)
    requires Exportable(findings) && i < |findings|
    ensures LinesOf(sanitize, findings, i + 1)
            == LinesOf(sanitize, findings, i) + [RenderRow(RowOf(sanitize, findings[i]))]
  {
    var table := RowsOf(sanitize, findings);
    assert table[i + 1] == RowOf(sanitize, findings[i]);
    assert table[..i + 2] == table[..i + 1] + [table[i + 1]];
    MapConcat(RenderRow, table[..i + 1], [table[i + 1]]);
  }

  lemma AllLines(sanitize: string -> string, findings: seq<Finding>)
    requires Exportable(findings)
    ensures Join("\n", LinesOf(sanitize, findings, |findings|)) == CsvOf(sanitize, findings)
  {
    var table := RowsOf(sanitize, findings);
    assert table[..|findings| + 1] == table;
  }

  method ToFindingsCsv(sanitize: string -> string, findings: seq<Finding>) returns (csv: string)
    requires Exportable(findings)
    ensures csv == CsvOf(sanitize, findings)
  {
    FirstLine(sanitize, findings);
    var rows := [Join(",", HEADER)];
    for i := 0 to |findings|
      invariant rows == LinesOf(sanitize, findings, i)
    {
      var line := FindingLine(sanitize, findings[i]);
      NextLine(sanitize, findings, i);
      rows := rows + [line];
    }
    AllLines(sanitize, findings);
    csv := Join("\n", rows);
  }

  // ------------------------------------------------------------------- reading

  /** A value and the text after it. */
  datatype Parsed<T> = Parsed(value: T, rest: string)

  /** After the opening quote: up to the first quote that is not doubled. */
  function ParseQuoted(text: string): Option<Parsed<string>> {
    if text == [] then None
    else if text[0] != '"' then Prepend(text[0], ParseQuoted(text[1..]))
    else if |text| >= 2 && text[1] == '"' then Prepend('"', ParseQuoted(text[2..]))
    else Some(Parsed([], text[1..]))
  }

  /** Up to a comma, a row break or the end; a quote or a carriage return is an error. */
  function ParsePlain(text: string): Option<Parsed<string>> {
    if text == [] || text[0] == ',' || text[0] == '\n' then Some(Parsed([], text))
    else if text[0] == '"' || text[0] == '\r' then None
    else Prepend(text[0], ParsePlain(text[1..]))
  }

  function Prepend(c: char, parsed: Option<Parsed<string>>): Option<Parsed<string>> {
    if parsed.None? then None else Some(Parsed([c] + parsed.value.value, parsed.value.rest))
  }

  function ParseField(text: string): Option<Parsed<string>> {
    if text != [] && text[0] == '"' then ParseQuoted(text[1..]) else ParsePlain(text)
  }

  lemma {:induction false} QuotedShrinks(text: string)
    requires ParseQuoted(text).Some?
    ensures |ParseQuoted(text).value.rest| < |text|
    decreases |text|
  {
    if text[0] != '"' {
      QuotedShrinks(text[1..]);
    } else if |text| >= 2 && text[1] == '"' {
      QuotedShrinks(text[2..]);
    }
  }

  lemma {:induction false} PlainShrinks(text: string)
    requires ParsePlain(text).Some?
    ensures |ParsePlain(text).value.rest| <= |text|
  {
    if text != [] && text[0] != ',' && text[0] != '\n' {
      PlainShrinks(text[1..]);
    }
  }

  lemma FieldShrinks(text: string)
    requires ParseField(text).Some?
    ensures |ParseField(text).value.rest| <= |text|
  {
    if text != [] && text[0] == '"' {
      QuotedShrinks(text[1..]);
    } else {
      PlainShrinks(text);
    }
  }

  function ParseRecord(text: string): (r: Option<Parsed<seq<string>>>)
    ensures r.Some? ==> |r.value.rest| <= |text| && r.value.value != []
    decreases |text|
  {
    var field := ParseField(text);
    if field.None? then None
    else
      FieldShrinks(text);
      var rest := field.value.rest;
      if rest == [] || rest[0] == '\n' then Some(Parsed([field.value.value], rest))
      else if rest[0] != ',' then None
      else
        var more := ParseRecord(rest[1..]);
        if more.None? then None else Some(Parsed([field.value.value] + more.value.value, more.value.rest))
  }

  /** All records; a row break after the last one is optional. */
  function ParseCsv(text: string): Option<seq<seq<string>>>
    decreases |text|
  {
    var first := ParseRecord(text);
    if first.None? then None
    else
      var rest := first.value.rest;
      if rest == [] || rest == "\n" then Some([first.value.value])
      else
        var more := ParseCsv(rest[1..]);
        if more.None? then None else Some([first.value.value] + more.value)
  }

  // ---------------------------------------------------------------- reading back

  predicate IsPlain(text: string) {
    forall i :: 0 <= i < |text| ==> text[i] !in {'"', ',', '\n', '\r'}
  }

  /** What may follow a field. */
  predicate EndsField(rest: string) {
    rest == [] || rest[0] == ',' || rest[0] == '\n'
  }

  /** A column that reads back: quoted, or without special characters. */
  predicate Safe(c: Column) {
    c.Quoted? || IsPlain(c.text)
  }

  lemma {:induction false} DoubledReadsBack(value: string, rest: string)
    requires EndsField(rest)
    ensures ParseQuoted(Doubled(value) + "\"" + rest) == Some(Parsed(value, rest))
  {
    var text := Doubled(value) + "\"" + rest;
    if value == [] {
      assert text[1..] == rest;
    } else {
      DoubledReadsBack(value[1..], rest);
      var tail := Doubled(value[1..]) + "\"" + rest;
      assert value == [value[0]] + value[1..];
      if value[0] == '"' {
        assert text == "\"\"" + tail && text[2..] == tail;
      } else {
        assert text == [value[0]] + tail && text[1..] == tail;
      }
    }
  }

  lemma {:induction false} PlainReadsBack(value: string, rest: string)
    requires IsPlain(value) && EndsField(rest)
    ensures ParsePlain(value + rest) == Some(Parsed(value, rest))
  {
    if value == [] {
      assert value + rest == rest;
    } else {
      PlainReadsBack(value[1..], rest);
      assert (value + rest)[1..] == value[1..] + rest;
      assert value == [value[0]] + value[1..];
    }
  }

  lemma ColumnReadsBack(c: Column, rest: string)
    requires Safe(c) && EndsField(rest)
    ensures ParseField(Render(c) + rest) == Some(Parsed(c.text, rest))
  {
    if c.Quoted? {
      DoubledReadsBack(c.text, rest);
      assert (Render(c) + rest)[1..] == Doubled(c.text) + "\"" + rest;
    } else {
      PlainReadsBack(c.text, rest);
    }
  }

  /** How many quotes a text starts with. */
  function LeadingQuotes(text: string): nat {
    if text == [] || text[0] != '"' then 0 else 1 + LeadingQuotes(text[1..])
  }

  /** Each quote at the start of a quoted value was written as two. */
  lemma {:induction false} QuotedHalvesQuotes(text: string)
    requires ParseQuoted(text).Some?
    ensures LeadingQuotes(text) >= 2 * LeadingQuotes(ParseQuoted(text).value.value)
    decreases |text|
  {
    if text[0] == '"' && |text| >= 2 && text[1] == '"' {
      QuotedHalvesQuotes(text[2..]);
      assert ParseQuoted(text).value.value[1..] == ParseQuoted(text[2..]).value.value;
      assert text[1..][1..] == text[2..];
    }
  }

  lemma {:induction false} LeadingQuotesThen(text: string, rest: string)
    requires EndsField(rest)
    ensures LeadingQuotes(text + rest) == LeadingQuotes(text)
  {
    if text == [] {
      assert text + rest == rest;
    } else {
      LeadingQuotesThen(text[1..], rest);
      assert (text + rest)[1..] == text[1..] + rest;
    }
  }

  lemma {:induction false} SpecialMisreads(value: string, rest: string)
    requires !IsPlain(value)
    ensures ParsePlain(value + rest).None? || |ParsePlain(value + rest).value.value| < |value|
  {
    var text := value + rest;
    assert text[0] == value[0] && text[1..] == value[1..] + rest;
    if value[0] !in {'"', ',', '\n', '\r'} {
      assert !IsPlain(value[1..]) by {
        var i :| 0 <= i < |value| && value[i] in {'"', ',', '\n', '\r'};
        assert value[1..][i - 1] == value[i];
      }
      SpecialMisreads(value[1..], rest);
    }
  }

  /** An unquoted text with a special character never reads back as itself. */
  lemma UnsafeMisreads(value: string, rest: string)
    requires !IsPlain(value) && EndsField(rest)
    ensures ParseField(value + rest).None? || ParseField(value + rest).value.value != value
  {
    var text := value + rest;
    if value[0] == '"' {
      assert text[1..] == value[1..] + rest;
      LeadingQuotesThen(value[1..], rest);
      if ParseField(text).Some? {
        QuotedHalvesQuotes(text[1..]);
      }
    } else {
      SpecialMisreads(value, rest);
    }
  }

  lemma RenderRowFirst(row: seq<Column>)
    requires |row| >= 2
    ensures RenderRow(row) == Render(row[0]) + "," + RenderRow(row[1..])
  {
    assert Map(Render, row)[1..] == Map(Render, row[1..]);
  }

  predicate SafeRow(row: seq<Column>) {
    forall i :: 0 <= i < |row| ==> Safe(row[i])
  }

  lemma SafeRowFirst(row: seq<Column>)
    requires row != []
    ensures SafeRow(row) <==> Safe(row[0]) && SafeRow(row[1..])
  {
    if Safe(row[0]) && SafeRow(row[1..]) {
      forall i | 0 < i < |row| ensures Safe(row[i]) {
        assert Safe(row[1..][i - 1]);
      }
    }
  }

  /** The record read is the row's texts, or there is none. */
  ghost predicate Reads(text: string, row: seq<Column>, rest: string) {
    ParseRecord(text) == Some(Parsed(Texts(row), rest))
  }

  ghost predicate Misreads(text: string, row: seq<Column>) {
    ParseRecord(text).None? || ParseRecord(text).value.value != Texts(row)
  }

  lemma LastColumn(row: seq<Column>, rest: string)
    requires |row| == 1 && (rest == [] || rest[0] == '\n')
    ensures if Safe(row[0]) then Reads(RenderRow(row) + rest, row, rest) else Misreads(RenderRow(row) + rest, row)
  {
    assert Texts(row) == [row[0].text];
    if Safe(row[0]) {
      ColumnReadsBack(row[0], rest);
    } else {
      UnsafeMisreads(row[0].text, rest);
    }
  }

  lemma FirstColumn(row: seq<Column>, later: string, rest: string)
    requires |row| >= 2
    ensures Safe(row[0]) && Reads(later, row[1..], rest) ==> Reads(Render(row[0]) + ("," + later), row, rest)
    ensures !Safe(row[0]) || Misreads(later, row[1..]) ==> Misreads(Render(row[0]) + ("," + later), row)
  {
    var tail := "," + later;
    assert tail[1..] == later;
    assert Texts(row) == [row[0].text] + Texts(row[1..]);
    if Safe(row[0]) {
      ColumnReadsBack(row[0], tail);
    } else {
      UnsafeMisreads(row[0].text, tail);
    }
  }

  /** A row reads back exactly when each of its columns is safe. */
  lemma {:induction false} RowReadsBackIff(row: seq<Column>, rest: string)
    requires row != [] && (rest == [] || rest[0] == '\n')
    ensures if SafeRow(row) then Reads(RenderRow(row) + rest, row, rest) else Misreads(RenderRow(row) + rest, row)
  {
    if |row| == 1 {
      LastColumn(row, rest);
    } else {
      var later := RenderRow(row[1..]) + rest;
      RenderRowFirst(row);
      assert RenderRow(row) + rest == Render(row[0]) + ("," + later);
      RowReadsBackIff(row[1..], rest);
      SafeRowFirst(row);
      FirstColumn(row, later, rest);
    }
  }

  ghost predicate AllSafe(rows: seq<seq<Column>>) {
    forall i :: 0 <= i < |rows| ==> SafeRow(rows[i])
  }

  lemma RowsFirst(rows: seq<seq<Column>>)
    requires |rows| >= 2
    ensures Join("\n", Map(RenderRow, rows)) == RenderRow(rows[0]) + ("\n" + Join("\n", Map(RenderRow, rows[1..])))
    ensures Map(Texts, rows) == [Texts(rows[0])] + Map(Texts, rows[1..])
  {
    assert Map(RenderRow, rows)[1..] == Map(RenderRow, rows[1..]);
    AppendAssociates(RenderRow(rows[0]), "\n", Join("\n", Map(RenderRow, rows[1..])));
  }

  lemma RowIsNotEmpty(rows: seq<seq<Column>>)
    requires rows != [] && |rows[0]| >= 2
    ensures Join("\n", Map(RenderRow, rows)) != []
  {
    RenderRowFirst(rows[0]);
  }

  lemma LastRow(row: seq<Column>)
    requires row != []
    ensures ParseCsv(RenderRow(row)) == Some([Texts(row)]) <==> SafeRow(row)
  {
    assert RenderRow(row) + [] == RenderRow(row);
    RowReadsBackIff(row, []);
  }

  lemma ConsEqual<T>(a: T, s: seq<T>, b: T, t: seq<T>)
    ensures [a] + s == [b] + t <==> a == b && s == t
  {
    assert ([a] + s)[1..] == s && ([b] + t)[1..] == t;
    assert ([a] + s)[0] == a && ([b] + t)[0] == b;
  }

  lemma FirstRow(row: seq<Column>, later: string, records: seq<seq<string>>)
    requires row != [] && later != []
    ensures ParseCsv(RenderRow(row) + ("\n" + later)) == Some([Texts(row)] + records)
            <==> SafeRow(row) && ParseCsv(later) == Some(records)
  {
    var rest := "\n" + later;
    var text := RenderRow(row) + rest;
    RowReadsBackIff(row, rest);
    assert rest[1..] == later;
    if ParseCsv(text).Some? {
      var parsed := ParseCsv(text).value;
      assert parsed == [parsed[0]] + parsed[1..] && parsed[0] == ParseRecord(text).value.value;
      ConsEqual(parsed[0], parsed[1..], Texts(row), records);
      if SafeRow(row) {
        assert parsed[1..] == ParseCsv(later).value;
      }
    }
  }

  /** A table of at least two columns reads back exactly when every column is safe. */
  lemma {:induction false} TableReadsBackIff(rows: seq<seq<Column>>)
    requires rows != [] && forall i :: 0 <= i < |rows| ==> |rows[i]| >= 2
    ensures ParseCsv(Join("\n", Map(RenderRow, rows))) == Some(Map(Texts, rows)) <==> AllSafe(rows)
  {
    if |rows| == 1 {
      LastRow(rows[0]);
      assert Map(Texts, rows) == [Texts(rows[0])];
    } else {
      var later := Join("\n", Map(RenderRow, rows[1..]));
      RowsFirst(rows);
      RowIsNotEmpty(rows[1..]);
      FirstRow(rows[0], later, Map(Texts, rows[1..]));
      TableReadsBackIff(rows[1..]);
      AllSafeFirst(rows);
    }
  }

  lemma AllSafeFirst(rows: seq<seq<Column>>)
    requires rows != []
    ensures AllSafe(rows) <==> SafeRow(rows[0]) && AllSafe(rows[1..])
  {
    if AllSafe(rows[1..]) && SafeRow(rows[0]) {
      forall i | 0 < i < |rows| ensures SafeRow(rows[i]) {
        assert SafeRow(rows[1..][i - 1]);
      }
    }
  }

  // ------------------------------------------------------------ the whole export

  /** The record a reader should get of a finding. */
  function RecordOf(sanitize: string -> string, f: Finding): seq<string>
    requires f.maskedEvidence.Some?
  {
    [f.id, f.ruleId, SeverityText(f.severity), ConfidenceText(f.confidence), Join("|", f.bankingDomains),
     f.sourceRelativePath, LineText(f.lineStart), ReviewText(f.humanReviewStatus), sanitize(f.maskedEvidence.value)]
  }

  function RecordsOf(sanitize: string -> string, findings: seq<Finding>): seq<seq<string>>
    requires Exportable(findings)
  {
    seq(|findings|, i requires 0 <= i < |findings| => RecordOf(sanitize, findings[i]))
  }

  /** Every level and status is written by its own name, in lower case. */
  lemma TextsNameTheirValues(severity: Severity, confidence: Confidence, status: ReviewStatus)
    ensures SeverityText(severity) == "critical" <==> severity == Critical
    ensures SeverityText(severity) == "high" <==> severity == High
    ensures SeverityText(severity) == "medium" <==> severity == Medium
    ensures SeverityText(severity) == "low" <==> severity == Low
    ensures SeverityText(severity) == "info" <==> severity == Info
    ensures ConfidenceText(confidence) == "high" <==> confidence == HighConfidence
    ensures ConfidenceText(confidence) == "medium" <==> confidence == MediumConfidence
    ensures ConfidenceText(confidence) == "low" <==> confidence == LowConfidence
    ensures ReviewText(status) == "pending" <==> status == Pending
    ensures ReviewText(status) == "approved" <==> status == Approved
    ensures ReviewText(status) == "rejected" <==> status == Rejected
    ensures ReviewText(status) == "overridden" <==> status == Overridden
  {}

  /** The value stands in a column of that name. */
  predicate StandsUnder(record: seq<string>, name: string, value: string) {
    |record| == |HEADER| && exists k :: 0 <= k < |HEADER| && HEADER[k] == name && record[k] == value
  }

  lemma HeaderNamesDiffer()
    ensures Distinct(HEADER)
  {
    assert |HEADER[0]| == 10 && |HEADER[1]| == 7 && |HEADER[2]| == 8 && |HEADER[3]| == 10 && |HEADER[4]| == 15;
    assert |HEADER[5]| == 20 && |HEADER[6]| == 10 && |HEADER[7]| == 19 && |HEADER[8]| == 15;
    assert HEADER[0][0] == 'f' && HEADER[3][0] == 'c' && HEADER[6][0] == 'l';
    assert HEADER[4][0] == 'b' && HEADER[8][0] == 'm';
  }

  /** Every value of an exported finding stands under its own column name. */
  lemma ColumnsAreNamed(sanitize: string -> string, f: Finding)
    requires f.maskedEvidence.Some?
    ensures var record := RecordOf(sanitize, f);
            && StandsUnder(record, "finding_id", f.id) && StandsUnder(record, "rule_id", f.ruleId)
            && StandsUnder(record, "severity", SeverityText(f.severity))
            && StandsUnder(record, "confidence", ConfidenceText(f.confidence))
            && StandsUnder(record, "banking_domains", Join("|", f.bankingDomains))
            && StandsUnder(record, "source_relative_path", f.sourceRelativePath)
            && StandsUnder(record, "line_start", if f.lineStart.Some? then PrintInt(f.lineStart.value) else "None")
            && StandsUnder(record, "human_review_status", ReviewText(f.humanReviewStatus))
            && StandsUnder(record, "masked_evidence", sanitize(f.maskedEvidence.value))
  {
    var record := RecordOf(sanitize, f);
    assert HEADER[0] == "finding_id" && HEADER[1] == "rule_id" && HEADER[2] == "severity";
    assert HEADER[3] == "confidence" && HEADER[4] == "banking_domains" && HEADER[5] == "source_relative_path";
    assert HEADER[6] == "line_start" && HEADER[7] == "human_review_status" && HEADER[8] == "masked_evidence";
  }

  lemma LevelsArePlain(severity: Severity, confidence: Confidence)
    ensures IsPlain(SeverityText(severity)) && IsPlain(ConfidenceText(confidence))
  {}

  lemma StatusIsPlain(status: ReviewStatus)
    ensures IsPlain(ReviewText(status))
  {}

  lemma LineIsPlain(line: Option<int>)
    ensures IsPlain(LineText(line))
  {
    if line.Some? {
      PrintedIntIsPlain(line.value);
    }
  }

  lemma ComputedColumnsArePlain(f: Finding)
    ensures IsPlain(SeverityText(f.severity)) && IsPlain(ConfidenceText(f.confidence))
    ensures IsPlain(LineText(f.lineStart)) && IsPlain(ReviewText(f.humanReviewStatus))
  {
    LevelsArePlain(f.severity, f.confidence);
    StatusIsPlain(f.humanReviewStatus);
    LineIsPlain(f.lineStart);
  }

  lemma FindingRowSafeIff(sanitize: string -> string, f: Finding)
    requires f.maskedEvidence.Some?
    ensures SafeRow(RowOf(sanitize, f)) <==> IsPlain(f.id) && IsPlain(f.ruleId)
    ensures Texts(RowOf(sanitize, f)) == RecordOf(sanitize, f)
  {
    ComputedColumnsArePlain(f);
    var row := RowOf(sanitize, f);
    assert row[0] == AsIs(f.id) && row[1] == AsIs(f.ruleId);
  }

  lemma HeaderIsSafe()
    ensures SafeRow(HeaderRow()) && Texts(HeaderRow()) == HEADER
  {
    HeaderNamesArePlain();
    var row := HeaderRow();
    forall i | 0 <= i < |row| ensures Safe(row[i]) {
      assert row[i] == AsIs(HEADER[i]);
    }
    assert Texts(row) == HEADER;
  }

  lemma HeaderNamesArePlain()
    ensures forall i :: 0 <= i < |HEADER| ==> IsPlain(HEADER[i])
  {
    assert IsPlain("finding_id") && IsPlain("rule_id") && IsPlain("severity") && IsPlain("confidence");
    assert IsPlain("banking_domains") && IsPlain("source_relative_path") && IsPlain("line_start");
    assert IsPlain("human_review_status") && IsPlain("masked_evidence");
  }

  lemma TextsAreRecords(sanitize: string -> string, findings: seq<Finding>)
    requires Exportable(findings)
    ensures Map(Texts, FindingRows(sanitize, findings)) == RecordsOf(sanitize, findings)
  {
    forall i | 0 <= i < |findings| ensures Texts(FindingRows(sanitize, findings)[i])
        == RecordOf(sanitize, findings[i]) {
      FindingRowSafeIff(sanitize, findings[i]);
    }
  }

  lemma ExportSafeIff(sanitize: string -> string, findings: seq<Finding>)
    requires Exportable(findings)
    ensures AllSafe(RowsOf(sanitize, findings)) <==> forall f :: f in findings ==> IsPlain(f.id) && IsPlain(f.ruleId)
  {
    var rows := FindingRows(sanitize, findings);
    HeaderIsSafe();
    AllSafeFirst(RowsOf(sanitize, findings));
    assert RowsOf(sanitize, findings)[1..] == rows;
    forall i | 0 <= i < |findings| ensures SafeRow(rows[i])
        <==> IsPlain(findings[i].id) && IsPlain(findings[i].ruleId) {
      FindingRowSafeIff(sanitize, findings[i]);
    }
    if AllSafe(rows) {
      forall f | f in findings ensures IsPlain(f.id) && IsPlain(f.ruleId) {
        var i :| 0 <= i < |findings| && findings[i] == f;
        assert SafeRow(rows[i]);
      }
    }
  }

  /**
   The export read by section 2 of RFC 4180 gives the header and one record for each
   finding with exactly its path, joined domains and sanitised evidence, whatever quotes,
   commas or line breaks these hold, if and only if no finding id and no rule id, which are
   written unquoted, holds a quote, a comma or a line break.
   */
  lemma ExportReadsBackIff(sanitize: string -> string, findings: seq<Finding>)
    requires Exportable(findings)
    ensures ParseCsv(CsvOf(sanitize, findings)) == Some([HEADER] + RecordsOf(sanitize, findings))
            <==> forall f :: f in findings ==> IsPlain(f.id) && IsPlain(f.ruleId)
  {
    var rows := RowsOf(sanitize, findings);
    TableReadsBackIff(rows);
    ExportSafeIff(sanitize, findings);
    HeaderIsSafe();
    TextsAreRecords(sanitize, findings);
    MapConcat(Texts, [HeaderRow()], FindingRows(sanitize, findings));
    assert Map(Texts, [HeaderRow()]) == [Texts(HeaderRow())];
  }
}
