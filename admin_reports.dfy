/**
  The administrator's report page: the summary figures above the report table
  and the CSV file it exports.
 */
module AdminReports {
  import opened Common
  import opened Validation
  import opened ProgressReport

  // ---------------------------------------------------------------------------
  // Summary

  datatype Summary = Summary(total: nat, completed: nat, inProgress: nat, avgProgress: int)

  /** The rows whose project has status `st`. */
  function CountStatus(rows: seq<ReportRow>, st: ProjectStatus): (r: nat)
    ensures r <= |rows|
  {
    if rows == [] then 0 else CountStatus(rows[1..], st) + (if rows[0].status == st then 1 else 0)
  }

  /** A row has one status, so two different statuses together count no more than the rows. */
  lemma {:induction false} TwoStatusesBounded(rows: seq<ReportRow>, a: ProjectStatus, b: ProjectStatus)
    requires a != b
    ensures CountStatus(rows, a) + CountStatus(rows, b) <= |rows|
  {
    if rows != [] {
      TwoStatusesBounded(rows[1..], a, b);
    }
  }

  /** `reduce((sum, p) => sum + p.progress, 0)`. */
  function ProgressSum(rows: seq<ReportRow>): int {
    if rows == [] then 0 else rows[0].progress + ProgressSum(rows[1..])
  }

  lemma {:induction false} ProgressSumBounds(rows: seq<ReportRow>)
    requires forall i :: 0 <= i < |rows| ==> 0 <= rows[i].progress <= 100
    ensures 0 <= ProgressSum(rows) <= 100 * |rows|
  {
    if rows != [] {
      ProgressSumBounds(rows[1..]);
    }
  }

  /** `Math.round(sum / n)`, the quotient taken exactly, halves rounded up. */
  function RoundedMean(sum: int, n: nat): (r: int)
    requires n > 0
    ensures 2 * n * r <= 2 * sum + n < 2 * n * (r + 1)
  {
    var d := 2 * n;
    var r := (2 * sum + n) / d;
    assert 2 * sum + n == d * r + (2 * sum + n) % d;
    r
  }

  lemma RoundedMeanBounds(sum: int, n: nat)
    requires n > 0 && 0 <= sum <= 100 * n
    ensures 0 <= RoundedMean(sum, n) <= 100
  {
    var r := RoundedMean(sum, n);
    if r < 0 {
      MulMono(2 * n, r + 1, 0);
      assert false;
    }
    if r > 100 {
      MulMono(2 * n, 101, r);
      assert false;
    }
  }

  lemma MulMono(d: nat, a: int, b: int)
    requires a <= b
    ensures d * a <= d * b
  {
    assert d * b - d * a == d * (b - a);
  }

  /** `calculateSummary`: zeros for an empty report; otherwise the row count,
      the `completed` and `active` counts and the rounded mean progress. */
  function CalculateSummary(rows: seq<ReportRow>): (s: Summary)
    ensures rows == [] ==> s == Summary(0, 0, 0, 0)
    ensures s.total == |rows|
    ensures s.completed == CountStatus(rows, Completed) && s.inProgress == CountStatus(rows, Active)
    ensures s.completed + s.inProgress <= s.total
    ensures rows != [] ==>
              2 * |rows| * s.avgProgress <= 2 * ProgressSum(rows) + |rows| < 2 * |rows| * (s.avgProgress + 1)
    ensures (forall i :: 0 <= i < |rows| ==> 0 <= rows[i].progress <= 100) ==> 0 <= s.avgProgress <= 100
  {
    TwoStatusesBounded(rows, Completed, Active);
    if rows == [] then Summary(0, 0, 0, 0)
    else
      var s := Summary(|rows|, CountStatus(rows, Completed), CountStatus(rows, Active),
                       RoundedMean(ProgressSum(rows), |rows|));
      if forall i :: 0 <= i < |rows| ==> 0 <= rows[i].progress <= 100 then
        ProgressSumBounds(rows);
        RoundedMeanBounds(ProgressSum(rows), |rows|);
        s
      else s
  }

  /** The summary of a report the progress endpoint produced has a mean progress in 0..100. */
  lemma SummaryOfProgressReport(views: seq<ProjectView>, rows: seq<ReportRow>)
    requires |rows| == |views| && forall i :: 0 <= i < |views| ==> rows[i] == RowOf(views[i])
    ensures 0 <= CalculateSummary(rows).avgProgress <= 100
  {
    forall i | 0 <= i < |rows| ensures 0 <= rows[i].progress <= 100 {
      RowBounds(views[i]);
    }
  }

  // ---------------------------------------------------------------------------
  // CSV text: fields, records and a reader following RFC 4180

  /** A field written as it is, or between double quotes. */
  datatype CsvField = Plain(text: string) | Quoted(text: string)

  /** Text that can stand unquoted: no separator, line break or quote. */
  predicate PlainSafe(t: string) {
    ',' !in t && '\n' !in t && '"' !in t
  }

  predicate Safe(f: CsvField) {
    f.Quoted? || PlainSafe(f.text)
  }

  /** Each double quote written twice, as section 2 of RFC 4180 asks inside a quoted field. */
  function DoubleQuotes(t: string): string {
    if t == [] then [] else (if t[0] == '"' then "\"\"" else [t[0]]) + DoubleQuotes(t[1..])
  }

  function Encode(f: CsvField): string {
    match f
    case Plain(t) => t
    case Quoted(t) => "\"" + DoubleQuotes(t) + "\""
  }

  /** `fields.join(',')`. */
  function EncodeRecord(fs: seq<CsvField>): string
    requires |fs| >= 1
  {
    if |fs| == 1 then Encode(fs[0]) else Encode(fs[0]) + "," + EncodeRecord(fs[1..])
  }

  /** `records.join('\n')`. */
  function EncodeDocument(rs: seq<seq<CsvField>>): string
    requires |rs| >= 1 && forall i :: 0 <= i < |rs| ==> |rs[i]| >= 1
  {
    if |rs| == 1 then EncodeRecord(rs[0]) else EncodeRecord(rs[0]) + "\n" + EncodeDocument(rs[1..])
  }

  function Texts(fs: seq<CsvField>): (r: seq<string>)
    ensures |r| == |fs| && forall i :: 0 <= i < |fs| ==> r[i] == fs[i].text
  {
    seq(|fs|, i requires 0 <= i < |fs| => fs[i].text)
  }

  lemma TextsCons(fs: seq<CsvField>)
    requires |fs| >= 1
    ensures Texts(fs) == [fs[0].text] + Texts(fs[1..])
  {
  }

  /** After an opening quote: the text up to the closing quote, a doubled
      quote standing for one, and what follows the closing quote. */
  function ReadQuoted(s: string): (r: Option<(string, string)>)
    ensures r.Some? ==> |r.value.1| < |s|
  {
    if s == [] then None
    else if s[0] == '"' then
      if |s| >= 2 && s[1] == '"' then
        match ReadQuoted(s[2..])
        case None => None
        case Some(p) => Some(("\"" + p.0, p.1))
      else Some(("", s[1..]))
    else
      match ReadQuoted(s[1..])
      case None => None
      case Some(p) => Some(([s[0]] + p.0, p.1))
  }

  /** An unquoted field: the text up to the next comma or line break. */
  function ReadPlain(s: string): (r: (string, string))
    ensures |r.1| <= |s|
  {
    if s == [] || s[0] == ',' || s[0] == '\n' then ("", s)
    else
      var p := ReadPlain(s[1..]);
      ([s[0]] + p.0, p.1)
  }

  function ReadField(s: string): (r: Option<(string, string)>)
    ensures r.Some? ==> |r.value.1| <= |s|
  {
    if s != [] && s[0] == '"' then ReadQuoted(s[1..]) else Some(ReadPlain(s))
  }

  /** One record: fields separated by commas, up to a line break, whose
      remainder is returned, or up to the end of the text (`None`). */
  function ReadRecord(s: string): (r: Option<(seq<string>, Option<string>)>)
    ensures r.Some? && r.value.1.Some? ==> |r.value.1.value| < |s|
    decreases |s|
  {
    match ReadField(s)
    case None => None
    case Some(p) =>
      var (f, rest) := p;
      if rest == [] then Some(([f], None))
      else if rest[0] == '\n' then Some(([f], Some(rest[1..])))
      else if rest[0] == ',' then
        match ReadRecord(rest[1..])
        case None => None
        case Some(q) => Some(([f] + q.0, q.1))
      else None
  }

  /** The records of a CSV text. */
  function ReadDocument(s: string): Option<seq<seq<string>>>
    decreases |s|
  {
    match ReadRecord(s)
    case None => None
    case Some(p) =>
      if p.1.None? then Some([p.0])
      else
        match ReadDocument(p.1.value)
        case None => None
        case Some(rs) => Some([p.0] + rs)
  }

  /** Reading a quoted field back gives its text, whatever quotes it holds. */
  lemma {:induction false} QuotedRoundTrip(t: string, rest: string)
    requires rest == [] || rest[0] != '"'
    ensures ReadQuoted(DoubleQuotes(t) + "\"" + rest) == Some((t, rest))
  {
    var s := DoubleQuotes(t) + "\"" + rest;
    if t == [] {
      assert s == "\"" + rest;
    } else {
      QuotedRoundTrip(t[1..], rest);
      if t[0] == '"' {
        assert s == "\"\"" + (DoubleQuotes(t[1..]) + "\"" + rest);
        assert s[2..] == DoubleQuotes(t[1..]) + "\"" + rest;
        assert "\"" + t[1..] == t;
      } else {
        assert s == [t[0]] + (DoubleQuotes(t[1..]) + "\"" + rest);
        assert s[1..] == DoubleQuotes(t[1..]) + "\"" + rest;
        assert [t[0]] + t[1..] == t;
      }
    }
  }

  lemma {:induction false} PlainRoundTrip(t: string, rest: string)
    requires PlainSafe(t)
    requires rest == [] || rest[0] == ',' || rest[0] == '\n'
    ensures ReadPlain(t + rest) == (t, rest)
  {
    if t == [] {
      assert t + rest == rest;
    } else {
      PlainRoundTrip(t[1..], rest);
      assert (t + rest)[1..] == t[1..] + rest;
      assert [t[0]] + t[1..] == t;
    }
  }

  lemma FieldRoundTrip(f: CsvField, rest: string)
    requires Safe(f)
    requires rest == [] || rest[0] == ',' || rest[0] == '\n'
    ensures ReadField(Encode(f) + rest) == Some((f.text, rest))
  {
    match f
    case Plain(t) =>
      PlainRoundTrip(t, rest);
    case Quoted(t) =>
      QuotedRoundTrip(t, rest);
      assert (Encode(f) + rest)[1..] == DoubleQuotes(t) + "\"" + rest;
  }

  /** A field followed by a line break or the end of the text closes the record. */
  lemma ReadRecordEnd(s: string, f: string, rest: string)
    requires ReadField(s) == Some((f, rest)) && (rest == [] || rest[0] == '\n')
    ensures ReadRecord(s) == Some(([f], if rest == [] then None else Some(rest[1..])))
  {
  }

  /** A field followed by a comma is the first of the fields read after it. */
  lemma ReadRecordComma(s: string, f: string, tail: string)
    requires ReadField(s) == Some((f, "," + tail))
    ensures ReadRecord(tail).None? ==> ReadRecord(s).None?
    ensures ReadRecord(tail).Some? ==> ReadRecord(s) == Some(([f] + ReadRecord(tail).value.0, ReadRecord(tail).value.1))
  {
    assert ("," + tail)[1..] == tail;
  }

  /** A field followed by anything but a comma or a line break spoils the record. */
  lemma ReadRecordStray(s: string, f: string, rest: string)
    requires ReadField(s) == Some((f, rest)) && rest != [] && rest[0] != ',' && rest[0] != '\n'
    ensures ReadRecord(s).None?
  {
  }

  /** A record of one field. */
  lemma SingleFieldRecord(fs: seq<CsvField>, rest: string)
    requires |fs| == 1 && Safe(fs[0])
    requires rest == [] || rest[0] == '\n'
    ensures ReadRecord(EncodeRecord(fs) + rest) == Some((Texts(fs), if rest == [] then None else Some(rest[1..])))
  {
    FieldRoundTrip(fs[0], rest);
    ReadRecordEnd(EncodeRecord(fs) + rest, fs[0].text, rest);
    assert Texts(fs) == [fs[0].text];
  }

  /** A record of several fields reads as its first field and then the rest of it. */
  lemma FieldThenRecord(fs: seq<CsvField>, rest: string, tail: (seq<string>, Option<string>))
    requires |fs| >= 2 && Safe(fs[0])
    requires ReadRecord(EncodeRecord(fs[1..]) + rest) == Some(tail)
    ensures ReadRecord(EncodeRecord(fs) + rest) == Some(([fs[0].text] + tail.0, tail.1))
  {
    var after := EncodeRecord(fs[1..]) + rest;
    FieldRoundTrip(fs[0], "," + after);
    EncodeRecordCons(fs, rest);
    ReadRecordComma(EncodeRecord(fs) + rest, fs[0].text, after);
  }

  lemma EncodeRecordCons(fs: seq<CsvField>, rest: string)
    requires |fs| >= 2
    ensures EncodeRecord(fs) + rest == Encode(fs[0]) + ("," + (EncodeRecord(fs[1..]) + rest))
  {
  }

  /** Reading an encoded record gives back the texts of its fields, and stops
      at the line break that follows it, if any. */
  lemma {:induction false} RecordRoundTrip(fs: seq<CsvField>, rest: string)
    requires |fs| >= 1 && forall i :: 0 <= i < |fs| ==> Safe(fs[i])
    requires rest == [] || rest[0] == '\n'
    ensures ReadRecord(EncodeRecord(fs) + rest) == Some((Texts(fs), if rest == [] then None else Some(rest[1..])))
  {
    if |fs| == 1 {
      SingleFieldRecord(fs, rest);
    } else {
      RecordRoundTrip(fs[1..], rest);
      FieldThenRecord(fs, rest, (Texts(fs[1..]), if rest == [] then None else Some(rest[1..])));
      TextsCons(fs);
    }
  }

  /** A record followed by a line break is the first of the records read after it. */
  lemma RecordThenDocument(s: string, fields: seq<string>, rest: string)
    requires ReadRecord(s) == Some((fields, Some(rest)))
    ensures ReadDocument(rest).None? ==> ReadDocument(s).None?
    ensures ReadDocument(rest).Some? ==> ReadDocument(s) == Some([fields] + ReadDocument(rest).value)
  {
  }

  /** The texts of each record, in order. */
  function AllTexts(rs: seq<seq<CsvField>>): (r: seq<seq<string>>)
    ensures |r| == |rs| && forall i :: 0 <= i < |rs| ==> r[i] == Texts(rs[i])
  {
    seq(|rs|, i requires 0 <= i < |rs| => Texts(rs[i]))
  }

  lemma SingleRecordDocument(rs: seq<seq<CsvField>>)
    requires |rs| == 1 && |rs[0]| >= 1
    requires forall j :: 0 <= j < |rs[0]| ==> Safe(rs[0][j])
    ensures ReadDocument(EncodeDocument(rs)) == Some(AllTexts(rs))
  {
    RecordRoundTrip(rs[0], "");
    assert EncodeRecord(rs[0]) + "" == EncodeRecord(rs[0]);
    assert AllTexts(rs) == [Texts(rs[0])];
  }

  lemma RecordThenRecords(rs: seq<seq<CsvField>>)
    requires |rs| >= 2 && forall i :: 0 <= i < |rs| ==> |rs[i]| >= 1
    requires forall j :: 0 <= j < |rs[0]| ==> Safe(rs[0][j])
    requires ReadDocument(EncodeDocument(rs[1..])) == Some(AllTexts(rs[1..]))
    ensures ReadDocument(EncodeDocument(rs)) == Some(AllTexts(rs))
  {
    var rest := EncodeDocument(rs[1..]);
    RecordRoundTrip(rs[0], "\n" + rest);
    assert EncodeDocument(rs) == EncodeRecord(rs[0]) + ("\n" + rest);
    assert ("\n" + rest)[1..] == rest;
    RecordThenDocument(EncodeDocument(rs), Texts(rs[0]), rest);
    AllTextsCons(rs);
  }

  lemma AllTextsCons(rs: seq<seq<CsvField>>)
    requires |rs| >= 1
    ensures AllTexts(rs) == [Texts(rs[0])] + AllTexts(rs[1..])
  {
  }

  /** Reading an encoded document gives back one record per encoded record, in order. */
  lemma {:induction false} DocumentRoundTrip(rs: seq<seq<CsvField>>)
    requires |rs| >= 1 && forall i :: 0 <= i < |rs| ==> |rs[i]| >= 1
    requires forall i, j :: 0 <= i < |rs| && 0 <= j < |rs[i]| ==> Safe(rs[i][j])
    ensures ReadDocument(EncodeDocument(rs)) == Some(AllTexts(rs))
  {
    if |rs| == 1 {
      SingleRecordDocument(rs);
    } else {
      DocumentRoundTrip(rs[1..]);
      RecordThenRecords(rs);
    }
  }

  // ---------------------------------------------------------------------------
  // The exported report

  /** The twelve column titles of the header line. */
  const HeaderTitles: seq<string> := LeadingTitles + CountTitles

  /** Code, name, department, owner, fiscal year and status. */
  const LeadingTitles: seq<string> :=
    ["รหัสโครงการ", "ชื่อโครงการ", "แผนก", "เจ้าของโครงการ", "ปีงบประมาณ", "สถานะ"]

  /** Progress, milestones, completed milestones, documents, complete and missing compliance. */
  const CountTitles: seq<string> :=
    ["ความคืบหน้า (%)", "งวดทั้งหมด", "งวดเสร็จ", "เอกสารทั้งหมด", "เอกสารครบ", "เอกสารขาด"]

  lemma LeadingTitlesSafe()
    ensures |LeadingTitles| == 6
    ensures forall i :: 0 <= i < 6 ==> PlainSafe(LeadingTitles[i])
  {
  }

  lemma CountTitlesSafe()
    ensures |CountTitles| == 6
    ensures forall i :: 0 <= i < 6 ==> PlainSafe(CountTitles[i])
  {
  }

  lemma HeaderSafe()
    ensures |HeaderTitles| == 12
    ensures forall i :: 0 <= i < |HeaderTitles| ==> PlainSafe(HeaderTitles[i])
  {
    LeadingTitlesSafe();
    CountTitlesSafe();
    forall i | 0 <= i < 12 ensures PlainSafe(HeaderTitles[i]) {
      if i < 6 {
        assert HeaderTitles[i] == LeadingTitles[i];
      } else {
        assert HeaderTitles[i] == CountTitles[i - 6];
      }
    }
  }

  /** A header line: every title plain. */
  function Titled(titles: seq<string>): (r: seq<CsvField>)
    ensures |r| == |titles| && Texts(r) == titles
    ensures forall i :: 0 <= i < |titles| ==> r[i] == Plain(titles[i])
  {
    seq(|titles|, i requires 0 <= i < |titles| => Plain(titles[i]))
  }

  lemma DecimalSafe(n: int)
    ensures PlainSafe(IntToDecimal(n))
  {
    var d := NatToDecimal(if n >= 0 then n else -n);
    assert forall i :: 0 <= i < |d| ==> '0' <= d[i] <= '9';
  }

  lemma StatusNameSafe(s: ProjectStatus)
    ensures PlainSafe(ProjectStatusName(s))
  {
  }

  /** The twelve values of a report row, as the source lays them out. */
  function RowValues(row: ReportRow): (r: seq<string>)
    ensures |r| == 12
  {
    [row.projectCode, row.projectName, row.department, row.owner,
     IntToDecimal(row.fiscalYear), ProjectStatusName(row.status), IntToDecimal(row.progress),
     IntToDecimal(row.totalMilestones), IntToDecimal(row.completedMilestones),
     IntToDecimal(row.totalDocuments), IntToDecimal(row.compliance.full), IntToDecimal(row.compliance.missing)]
  }

  /** Columns 5 to 12 (fiscal year, status and the numbers) can stand unquoted. */
  lemma RowValuesSafe(row: ReportRow)
    ensures forall i :: 4 <= i < 12 ==> PlainSafe(RowValues(row)[i])
  {
    DecimalSafe(row.fiscalYear);
    DecimalSafe(row.progress);
    DecimalSafe(row.totalMilestones);
    DecimalSafe(row.completedMilestones);
    DecimalSafe(row.totalDocuments);
    DecimalSafe(row.compliance.full);
    DecimalSafe(row.compliance.missing);
    StatusNameSafe(row.status);
  }

  /** The fields of a report row: the four text columns quoted with their quotes
      doubled, the status and the numbers plain. */
  function RowFields(row: ReportRow): (r: seq<CsvField>)
    ensures |r| == 12
  {
    var v := RowValues(row);
    seq(12, i requires 0 <= i < 12 => if i < 4 then Quoted(v[i]) else Plain(v[i]))
  }

  /** A row's fields carry its values, and every one of them can be written. */
  lemma RowFieldsSound(row: ReportRow)
    ensures Texts(RowFields(row)) == RowValues(row)
    ensures forall i :: 0 <= i < 12 ==> Safe(RowFields(row)[i])
  {
    RowValuesSafe(row);
  }

  /** The header record followed by one record per row. */
  function Records(titles: seq<string>, rows: seq<ReportRow>): (r: seq<seq<CsvField>>)
    requires |titles| >= 1
    ensures |r| == |rows| + 1 && r[0] == Titled(titles)
    ensures forall i :: 0 <= i < |rows| ==> r[i + 1] == RowFields(rows[i])
    ensures forall i :: 0 <= i < |r| ==> |r[i]| >= 1
  {
    [Titled(titles)] + RowRecords(rows)
  }

  function RowRecords(rows: seq<ReportRow>): (r: seq<seq<CsvField>>)
    ensures |r| == |rows|
    ensures forall i :: 0 <= i < |rows| ==> r[i] == RowFields(rows[i]) && |r[i]| == 12
  {
    if rows == [] then [] else [RowFields(rows[0])] + RowRecords(rows[1..])
  }

  /** The byte-order mark written before the text. */
  const Bom: string := "\U{FEFF}"

  /** `exportCSV`, corrected: nothing without rows; otherwise the header line and
      one line per row, every text column quoted with its quotes doubled. */
  function ExportCsv(rows: seq<ReportRow>): (r: Option<string>)
    ensures r.None? <==> rows == []
  {
    HeaderSafe();
    if rows == [] then None else Some(Bom + EncodeDocument(Records(HeaderTitles, rows)))
  }

  /** The records read back as the titles followed by the values of each row, in order. */
  lemma RecordsReadBack(titles: seq<string>, rows: seq<ReportRow>)
    requires |titles| >= 1 && forall i :: 0 <= i < |titles| ==> PlainSafe(titles[i])
    ensures ReadDocument(EncodeDocument(Records(titles, rows))).Some?
    ensures var d := ReadDocument(EncodeDocument(Records(titles, rows))).value;
            && |d| == |rows| + 1
            && d[0] == titles
            && forall i :: 0 <= i < |rows| ==> d[i + 1] == RowValues(rows[i]) && |d[i + 1]| == 12
  {
    var rs := Records(titles, rows);
    RecordsSafe(titles, rows);
    DocumentRoundTrip(rs);
    var d := ReadDocument(EncodeDocument(rs)).value;
    forall i | 0 <= i < |rows| ensures d[i + 1] == RowValues(rows[i]) && |d[i + 1]| == 12 {
      assert d[i + 1] == Texts(rs[i + 1]);
      RowFieldsSound(rows[i]);
    }
  }

  lemma RecordsSafe(titles: seq<string>, rows: seq<ReportRow>)
    requires |titles| >= 1 && forall i :: 0 <= i < |titles| ==> PlainSafe(titles[i])
    ensures forall i, j :: 0 <= i < |Records(titles, rows)| && 0 <= j < |Records(titles, rows)[i]| ==>
              Safe(Records(titles, rows)[i][j])
  {
    var rs := Records(titles, rows);
    forall i, j | 0 <= i < |rs| && 0 <= j < |rs[i]| ensures Safe(rs[i][j]) {
      if i > 0 {
        RowFieldsSound(rows[i - 1]);
      }
    }
  }

  /** A byte-order mark before the records leaves them readable after it. */
  lemma MarkedRecordsReadBack(titles: seq<string>, rows: seq<ReportRow>, t: string)
    requires |titles| >= 1 && forall i :: 0 <= i < |titles| ==> PlainSafe(titles[i])
    requires t == Bom + EncodeDocument(Records(titles, rows))
    ensures t[..|Bom|] == Bom
    ensures ReadDocument(t[|Bom|..]).Some?
    ensures var d := ReadDocument(t[|Bom|..]).value;
            && |d| == |rows| + 1
            && d[0] == titles
            && forall i :: 0 <= i < |rows| ==> d[i + 1] == RowValues(rows[i]) && |d[i + 1]| == 12
  {
    var doc := EncodeDocument(Records(titles, rows));
    RecordsReadBack(titles, rows);
    assert t[|Bom|..] == doc;
    var d := ReadDocument(doc).value;
    forall i | 0 <= i < |rows| ensures d[i + 1] == RowValues(rows[i]) && |d[i + 1]| == 12 {
    }
  }

  /** The exported text reads back as the twelve column titles followed by the
      twelve values of each report row, one record per row, in order. */
  lemma ExportReadsBack(rows: seq<ReportRow>)
    requires rows != []
    ensures var t := ExportCsv(rows).value;
            && t[..|Bom|] == Bom
            && ReadDocument(t[|Bom|..]).Some?
            && var d := ReadDocument(t[|Bom|..]).value;
               && |d| == |rows| + 1
               && d[0] == HeaderTitles
               && forall i :: 0 <= i < |rows| ==> d[i + 1] == RowValues(rows[i]) && |d[i + 1]| == 12
  {
    HeaderSafe();
    MarkedRecordsReadBack(HeaderTitles, rows, ExportCsv(rows).value);
  }

  // ---------------------------------------------------------------------------
  // The quoting the page performs

  /** The page wraps a text column in quotes and leaves quotes inside it as they are. */
  function EncodeAsWritten(f: CsvField): string {
    match f
    case Plain(t) => t
    case Quoted(t) => "\"" + t + "\""
  }

  function EncodeRecordAsWritten(fs: seq<CsvField>): string
    requires |fs| >= 1
  {
    if |fs| == 1 then EncodeAsWritten(fs[0]) else EncodeAsWritten(fs[0]) + "," + EncodeRecordAsWritten(fs[1..])
  }

  /** The page's fields for a row: the code unquoted, name, department and
      owner between quotes, the rest plain. */
  function RowFieldsAsWritten(row: ReportRow): (r: seq<CsvField>)
    ensures |r| == 12 && Texts(r) == RowValues(row)
    ensures r[0] == Plain(row.projectCode) && r[1] == Quoted(row.projectName)
  {
    var v := RowValues(row);
    seq(12, i requires 0 <= i < 12 => if 1 <= i < 4 then Quoted(v[i]) else Plain(v[i]))
  }

  /** Read back, the page's `"a"b"` stops at its second quote and leaves `b"` behind. */
  lemma EarlyClosingQuote(after: string)
    ensures ReadField("\"a\"b\"" + after) == Some(("a", "b\"" + after))
  {
    var second := "\"a\"b\"" + after;
    assert second[1..] == "a\"b\"" + after;
    assert ("a\"b\"" + after)[1..] == "\"b\"" + after;
    assert ("\"b\"" + after)[1..] == "b\"" + after;
    assert ReadQuoted("\"b\"" + after) == Some(("", "b\"" + after));
    assert "a" + "" == "a";
  }

  /** The page's line for such a record: the first field, a comma, `"a"b"`, and the rest. */
  lemma AsWrittenLayout(fs: seq<CsvField>) returns (after: string)
    requires |fs| >= 2 && fs[0].Plain? && fs[1] == Quoted("a\"b")
    ensures EncodeRecordAsWritten(fs) == fs[0].text + ("," + ("\"a\"b\"" + after))
  {
    after := if |fs| == 2 then "" else "," + EncodeRecordAsWritten(fs[2..]);
    assert EncodeAsWritten(fs[1]) == "\"a\"b\"";
    assert EncodeRecordAsWritten(fs[1..]) == "\"a\"b\"" + after;
  }

  /** A record whose second field is `a"b`, written as the page writes it, cannot be read:
      the quote ends the field early and a stray `b` follows it. */
  lemma QuoteBreaksRecord(fs: seq<CsvField>)
    requires |fs| >= 2 && fs[0].Plain? && PlainSafe(fs[0].text) && fs[1] == Quoted("a\"b")
    ensures ReadRecord(EncodeRecordAsWritten(fs)) == None
  {
    var after := AsWrittenLayout(fs);
    var second := "\"a\"b\"" + after;
    PlainRoundTrip(fs[0].text, "," + second);
    EarlyClosingQuote(after);
    ReadRecordStray(second, "a", "b\"" + after);
    ReadRecordComma(EncodeRecordAsWritten(fs), fs[0].text, second);
  }

  /** A project named `a"b` makes the page's line for it unreadable. */
  lemma QuoteInNameBreaksLine(row: ReportRow)
    requires PlainSafe(row.projectCode) && row.projectName == "a\"b"
    ensures ReadRecord(EncodeRecordAsWritten(RowFieldsAsWritten(row))) == None
  {
    QuoteBreaksRecord(RowFieldsAsWritten(row));
  }

  /** The page writes the code bare: a code `a,b` is read back as the field `a`
      followed by a field `b`, so the line no longer carries the row's values. */
  lemma CodeWithCommaBreaksLine(row: ReportRow)
    requires row.projectCode == "a,b"
    ensures ReadRecord(EncodeRecordAsWritten(RowFieldsAsWritten(row))) != Some((RowValues(row), None))
  {
    var fs := RowFieldsAsWritten(row);
    var s := EncodeRecordAsWritten(fs);
    var tail := "," + EncodeRecordAsWritten(fs[1..]);
    assert s == "a,b" + tail;
    assert s[1..] == ",b" + tail;
    assert ReadPlain(s[1..]) == ("", s[1..]);
    assert s[0] == 'a' && s != [] && s[0] != ',' && s[0] != '\n';
    assert ReadPlain(s) == ([s[0]] + ReadPlain(s[1..]).0, ReadPlain(s[1..]).1);
    assert [s[0]] + "" == "a";
    assert ReadPlain(s) == ("a", s[1..]);
    assert ReadField(s) == Some(("a", s[1..]));
    match ReadRecord(s[2..])
    case None =>
    case Some(q) =>
      assert ReadRecord(s) == Some((["a"] + q.0, q.1));
      assert RowValues(row)[0] == "a,b";
  }

  /** With the code quoted and the quotes doubled the same line reads back as its twelve values. */
  lemma QuotedLineReadsBack(row: ReportRow)
    ensures ReadRecord(EncodeRecord(RowFields(row))) == Some((RowValues(row), None))
  {
    RowFieldsSound(row);
    RecordRoundTrip(RowFields(row), "");
    assert EncodeRecord(RowFields(row)) + "" == EncodeRecord(RowFields(row));
  }
}
