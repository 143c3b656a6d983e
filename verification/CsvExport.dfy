/** The comma separated export (src/report/csv_exporter.cpp), and a reader for the format of section 2 of
  * RFC 4180 with a line feed as record separator. */
module CsvExport {
  import opened Sequences

  // ---- The reader ----------------------------------------------------------------------------------------

  /** Where the reader stands: before a field, in an unquoted one, in a quoted one, or after a quote in a quoted
    * field, which either ends it or is the first half of a doubled quote. */
  datatype Mode = Start | Plain | Quoted | QuoteSeen

  datatype Reader =
    | Reading(mode: Mode, field: string, record: seq<string>, records: seq<seq<string>>)
    | Malformed

  const FRESH := Reading(Start, "", [], [])

  ghost function EndField(r: Reader): Reader
    requires r.Reading?
  {
    Reading(Start, "", r.record + [r.field], r.records)
  }

  ghost function EndRecord(r: Reader): Reader
    requires r.Reading?
  {
    Reading(Start, "", [], r.records + [r.record + [r.field]])
  }

  /** One character of the file. Quotes and carriage returns may stand only inside quoted fields. */
  ghost function ReadChar(r: Reader, c: char): Reader {
    match r
    case Malformed => Malformed
    case Reading(mode, field, record, records) =>
      match mode
      case Quoted => if c == '"' then r.(mode := QuoteSeen) else r.(field := field + [c])
      case QuoteSeen =>
        if c == '"' then r.(mode := Quoted, field := field + [c])
        else if c == ',' then EndField(r)
        else if c == '\n' then EndRecord(r)
        else Malformed
      case _ =>
        if c == ',' then EndField(r)
        else if c == '\n' then EndRecord(r)
        else if c == '"' then (if mode == Start then r.(mode := Quoted) else Malformed)
        else if c == '\r' then Malformed
        else r.(mode := Plain, field := field + [c])
  }

  ghost function ReadText(r: Reader, text: string): Reader {
    if text == "" then r else ReadChar(ReadText(r, text[..|text| - 1]), text[|text| - 1])
  }

  /** The file was read to its end, and these are its records. */
  ghost predicate Parses(text: string, records: seq<seq<string>>) {
    ReadText(FRESH, text) == Reading(Start, "", [], records)
  }

  lemma {:induction false} ReadAppend(r: Reader, a: string, b: string)
    ensures ReadText(r, a + b) == ReadText(ReadText(r, a), b)
  {
    if b == "" {
      assert a + b == a;
    } else {
      ReadAppend(r, a, b[..|b| - 1]);
      assert (a + b)[..|a + b| - 1] == a + b[..|b| - 1];
    }
  }

  lemma ReadOne(r: Reader, c: char)
    ensures ReadText(r, [c]) == ReadChar(r, c)
  {
    assert [c][..0] == "";
    assert ReadText(r, "") == r;
  }

  lemma {:induction false} MalformedForGood(text: string)
    ensures ReadText(Malformed, text) == Malformed
  {
    if text == "" {
    } else {
      MalformedForGood(text[..|text| - 1]);
    }
  }

  // ---- Escaping ------------------------------------------------------------------------------------------

  predicate NeedsQuotes(s: string) {
    ',' in s || '"' in s || '\n' in s
  }

  function DoubleQuotes(s: string): string {
    if s == "" then "" else
      DoubleQuotes(s[..|s| - 1]) + (if s[|s| - 1] == '"' then "\"\"" else [s[|s| - 1]])
  }

  function EscapeCsv(s: string): string {
    if NeedsQuotes(s) then "\"" + DoubleQuotes(s) + "\"" else s
  }

  /** The fields the exporter writes so that they can be read: a carriage return alone does not make it quote. */
  predicate Readable(s: string) {
    NeedsQuotes(s) || '\r' !in s
  }

  /** Inside quotes a doubled quote reads as one quote. */
  lemma ReadQuotePair(field: string, record: seq<string>, records: seq<seq<string>>)
    ensures ReadText(Reading(Quoted, field, record, records), "\"\"") ==
      Reading(Quoted, field + "\"", record, records)
  {
    hide ReadText;
    assert "\"\"" == "\"" + "\"";
    ReadAppend(Reading(Quoted, field, record, records), "\"", "\"");
    ReadOne(Reading(Quoted, field, record, records), '"');
    ReadOne(Reading(QuoteSeen, field, record, records), '"');
  }

  lemma {:induction false} ReadDoubled(s: string, record: seq<string>, records: seq<seq<string>>)
    ensures ReadText(Reading(Quoted, "", record, records), DoubleQuotes(s)) == Reading(Quoted, s, record, records)
  {
    hide ReadText;
    var r := Reading(Quoted, "", record, records);
    if s != "" {
      var front, c := s[..|s| - 1], s[|s| - 1];
      ReadDoubled(front, record, records);
      assert s == front + [c];
      if c == '"' {
        ReadAppend(r, DoubleQuotes(front), "\"\"");
        ReadQuotePair(front, record, records);
      } else {
        ReadAppend(r, DoubleQuotes(front), [c]);
        ReadOne(Reading(Quoted, front, record, records), c);
      }
    } else {
      ReadNothing(r);
    }
  }

  lemma {:induction false} ReadPlain(s: string, record: seq<string>, records: seq<seq<string>>)
    requires !NeedsQuotes(s)
    ensures ReadText(Reading(Start, "", record, records), s) ==
      if '\r' in s then Malformed else Reading(if s == "" then Start else Plain, s, record, records)
  {
    if s == "" {
    } else {
      var front := s[..|s| - 1];
      assert s == front + [s[|s| - 1]];
      ReadPlain(front, record, records);
    }
  }

  /** An escaped field followed by a separator is read back as it was, exactly when it is readable. */
  lemma ReadEscaped(s: string, separator: char, record: seq<string>, records: seq<seq<string>>)
    requires separator == ',' || separator == '\n'
    ensures var r := ReadText(Reading(Start, "", record, records), EscapeCsv(s) + [separator]);
      r == if !Readable(s) then Malformed
           else if separator == ',' then Reading(Start, "", record + [s], records)
           else Reading(Start, "", [], records + [record + [s]])
  {
    hide ReadText, DoubleQuotes;
    var r := Reading(Start, "", record, records);
    ReadAppend(r, EscapeCsv(s), [separator]);
    if NeedsQuotes(s) {
      assert EscapeCsv(s) == ("\"" + DoubleQuotes(s)) + "\"";
      ReadAppend(r, "\"" + DoubleQuotes(s), "\"");
      ReadAppend(r, "\"", DoubleQuotes(s));
      ReadOne(r, '"');
      ReadDoubled(s, record, records);
      ReadOne(Reading(Quoted, s, record, records), '"');
      ReadOne(Reading(QuoteSeen, s, record, records), separator);
    } else {
      ReadPlain(s, record, records);
      ReadOne(ReadText(r, s), separator);
    }
  }

  // ---- Rows ----------------------------------------------------------------------------------------------

  /** A row has at least one field. */
  type Row = fields: seq<string> | fields != [] witness [""]

  /** A row as the exporter lays it out: escaped fields with commas between them and a line feed at the end. */
  ghost function RowText(fields: Row): string {
    FrontText(fields[..|fields| - 1]) + EscapeCsv(fields[|fields| - 1]) + "\n"
  }

  ghost function FrontText(fields: seq<string>): string {
    if fields == [] then "" else
      FrontText(fields[..|fields| - 1]) + EscapeCsv(fields[|fields| - 1]) + ","
  }

  ghost predicate AllReadable(fields: seq<string>) {
    forall i :: 0 <= i < |fields| ==> Readable(fields[i])
  }

  lemma AllReadableStep(fields: seq<string>, f: string)
    ensures AllReadable(fields + [f]) <==> AllReadable(fields) && Readable(f)
  {
    hide Readable;
    if AllReadable(fields + [f]) {
      assert (fields + [f])[|fields|] == f;
      forall i | 0 <= i < |fields| ensures Readable(fields[i]) {
        assert (fields + [f])[i] == fields[i];
      }
    }
  }

  lemma FrontStep(fields: seq<string>, f: string)
    ensures FrontText(fields + [f]) == FrontText(fields) + EscapeCsv(f) + ","
  {
    assert (fields + [f])[..|fields|] == fields;
  }

  lemma {:induction false} ReadFront(fields: seq<string>, records: seq<seq<string>>)
    ensures ReadText(Reading(Start, "", [], records), FrontText(fields)) ==
      if AllReadable(fields) then Reading(Start, "", fields, records) else Malformed
  {
    hide ReadText, EscapeCsv, Readable, AllReadable, ReadChar;
    if fields != [] {
      var front, f := fields[..|fields| - 1], fields[|fields| - 1];
      var r := Reading(Start, "", [], records);
      ReadFront(front, records);
      assert fields == front + [f];
      AllReadableStep(front, f);
      FrontStep(front, f);
      assert FrontText(fields) == FrontText(front) + (EscapeCsv(f) + ",");
      ReadAppend(r, FrontText(front), EscapeCsv(f) + ",");
      ReadEscaped(f, ',', front, records);
      MalformedForGood(EscapeCsv(f) + ",");
    } else {
      ReadNothing(Reading(Start, "", [], records));
      NothingReadable();
    }
  }

  lemma NothingReadable()
    ensures AllReadable([])
  {
  }

  lemma ReadNothing(r: Reader)
    ensures ReadText(r, "") == r
  {
  }

  /** A row is read back field by field exactly when all its fields are readable. */
  lemma ReadRow(fields: Row, records: seq<Row>)
    ensures ReadText(Reading(Start, "", [], records), RowText(fields)) ==
      if AllReadable(fields) then Reading(Start, "", [], records + [fields]) else Malformed
  {
    hide ReadText, EscapeCsv, Readable, FrontText, AllReadable, ReadChar;
    var front, f := fields[..|fields| - 1], fields[|fields| - 1];
    ReadFront(front, records);
    assert fields == front + [f];
    AllReadableStep(front, f);
    assert RowText(fields) == FrontText(front) + (EscapeCsv(f) + "\n");
    ReadAppend(Reading(Start, "", [], records), FrontText(front), EscapeCsv(f) + "\n");
    ReadEscaped(f, '\n', front, records);
    MalformedForGood(EscapeCsv(f) + "\n");
  }

  ghost function RowsText(rows: seq<Row>): string {
    if rows == [] then "" else RowsText(rows[..|rows| - 1]) + RowText(rows[|rows| - 1])
  }

  ghost predicate AllRowsReadable(rows: seq<Row>) {
    forall i :: 0 <= i < |rows| ==> AllReadable(rows[i])
  }

  lemma AllRowsReadableStep(rows: seq<Row>, row: Row)
    ensures AllRowsReadable(rows + [row]) <==> AllRowsReadable(rows) && AllReadable(row)
  {
    hide AllReadable;
    if AllRowsReadable(rows + [row]) {
      assert (rows + [row])[|rows|] == row;
      forall i | 0 <= i < |rows| ensures AllReadable(rows[i]) {
        assert (rows + [row])[i] == rows[i];
      }
    }
  }

  lemma RowsStep(rows: seq<Row>, row: Row)
    ensures RowsText(rows + [row]) == RowsText(rows) + RowText(row)
  {
    assert (rows + [row])[..|rows|] == rows;
  }

  /** Any table is read back exactly as written if and only if no field has a carriage return without also having
    * a comma, a quote or a line feed; otherwise the file is malformed. */
  lemma {:induction false} TableRoundTrip(rows: seq<Row>)
    ensures ReadText(FRESH, RowsText(rows)) ==
      if AllRowsReadable(rows) then Reading(Start, "", [], rows) else Malformed
  {
    hide ReadText, RowText, AllReadable, AllRowsReadable, RowsText;
    if rows != [] {
      var front, row := rows[..|rows| - 1], rows[|rows| - 1];
      TableRoundTrip(front);
      assert rows == front + [row];
      AllRowsReadableStep(front, row);
      RowsStep(front, row);
      ReadAppend(FRESH, RowsText(front), RowText(row));
      ReadRow(row, front);
      MalformedForGood(RowText(row));
    } else {
      NoRows();
    }
  }

  lemma NoRows()
    ensures AllRowsReadable([]) && RowsText([]) == "" && ReadText(FRESH, "") == FRESH
  {
  }

  // ---- The two files -------------------------------------------------------------------------------------

  /** The text of a number in the default locale of the output stream. */
  type NumberText = s: string | IsNumber(s) witness "0"

  predicate IsNumberChar(c: char) {
    '0' <= c <= '9' || c == '+' || c == '-' || c == '.' || 'a' <= c <= 'z'
  }

  predicate IsNumber(s: string) {
    forall i :: 0 <= i < |s| ==> IsNumberChar(s[i])
  }

  datatype TestResultData = TestResultData(
    timestamp: string, testType: string, mode: string, duration: string, errorCount: int, passed: bool)

  datatype SensorDataPoint = SensorDataPoint(timestamp: real, sensorName: string, value: real, unit: string)

  const MARKER := "\U{FEFF}"

  function ResultsHeader(): Row {
    ["timestamp", "test_type", "mode", "duration", "errors", "result"]
  }

  function SensorsHeader(): Row {
    ["timestamp_sec", "sensor_name", "value", "unit"]
  }

  function NatText(n: nat): NumberText {
    var digit := ['0' + (n % 10) as char];
    if n < 10 then digit else NatText(n / 10) + digit
  }

  function IntText(n: int): NumberText {
    if n < 0 then "-" + NatText(-n) else NatText(n)
  }

  /** The number a row of decimal digits stands for. */
  ghost function DigitsValue(s: string): int {
    if s == "" then 0 else DigitsValue(s[..|s| - 1]) * 10 + (s[|s| - 1] as int - '0' as int)
  }

  lemma {:induction false} NatTextValue(n: nat)
    ensures DigitsValue(NatText(n)) == n && NatText(n) != "" && NatText(n)[0] != '-'
  {
    var digit := ['0' + (n % 10) as char];
    assert digit[..0] == "";
    if n >= 10 {
      NatTextValue(n / 10);
      assert NatText(n)[..|NatText(n)| - 1] == NatText(n / 10);
    }
  }

  /** Different counts are written differently. */
  lemma IntTextInjective(a: int, b: int)
    requires IntText(a) == IntText(b)
    ensures a == b
  {
    NatTextValue(if a < 0 then -a else a);
    NatTextValue(if b < 0 then -b else b);
    if a < 0 {
      assert IntText(a)[1..] == NatText(-a);
    }
    if b < 0 {
      assert IntText(b)[1..] == NatText(-b);
    }
  }

  /** The text of a number is its decimal form: a minus sign for negative ones only, then the digits, the first of which
    * is 0 only for 0 itself. */
  lemma IntTextValue(n: int)
    ensures n < 0 ==> IntText(n)[0] == '-' && DigitsValue(IntText(n)[1..]) == -n
    ensures n >= 0 ==> DigitsValue(IntText(n)) == n
    ensures n > 0 ==> IntText(n)[0] != '0' && IntText(n)[0] != '-'
    ensures IntText(0) == "0"
  {
    NatTextValue(if n < 0 then -n else n);
    if n < 0 { assert IntText(n)[1..] == NatText(-n); }
    if n > 0 { NoLeadingZero(n); }
  }

  lemma {:induction false} NoLeadingZero(n: nat)
    requires n > 0
    ensures NatText(n) != "" && NatText(n)[0] != '0'
  {
    if n >= 10 {
      NoLeadingZero(n / 10);
    }
  }

  function PassText(passed: bool): string {
    if passed then "PASS" else "FAIL"
  }

  ghost function ResultRow(r: TestResultData): Row {
    [r.timestamp, r.testType, r.mode, r.duration, IntText(r.errorCount), PassText(r.passed)]
  }

  ghost function SensorRow(p: SensorDataPoint, format: real -> NumberText): Row {
    [format(p.timestamp), p.sensorName, format(p.value), p.unit]
  }

  ghost function ResultRows(data: seq<TestResultData>): seq<Row> {
    [ResultsHeader()] + seq(|data|, i requires 0 <= i < |data| => ResultRow(data[i]))
  }

  ghost function SensorRows(data: seq<SensorDataPoint>, format: real -> NumberText): seq<Row> {
    [SensorsHeader()] + seq(|data|, i requires 0 <= i < |data| => SensorRow(data[i], format))
  }

  ghost predicate ResultReadable(r: TestResultData) {
    Readable(r.timestamp) && Readable(r.testType) && Readable(r.mode) && Readable(r.duration)
  }

  ghost predicate PointReadable(p: SensorDataPoint) {
    Readable(p.sensorName) && Readable(p.unit)
  }

  lemma RowDetermines(r: TestResultData, q: TestResultData)
    requires ResultRow(r) == ResultRow(q)
    ensures r == q
  {
    hide IntText, IsNumber;
    var a, b := ResultRow(r), ResultRow(q);
    assert a[0] == b[0] && a[1] == b[1] && a[2] == b[2] && a[3] == b[3] && a[4] == b[4] && a[5] == b[5];
    IntTextInjective(r.errorCount, q.errorCount);
  }

  /** Nothing is lost: the rows of a results file determine every field of every result, the verdicts included. */
  lemma ResultsDetermined(data: seq<TestResultData>, other: seq<TestResultData>)
    requires ResultRows(data) == ResultRows(other)
    ensures data == other
  {
    hide ResultRow, ResultsHeader;
    assert |ResultRows(data)| == |data| + 1 && |ResultRows(other)| == |other| + 1;
    forall i | 0 <= i < |data| ensures data[i] == other[i] {
      assert ResultRows(data)[i + 1] == ResultRow(data[i]);
      assert ResultRows(other)[i + 1] == ResultRow(other[i]);
      RowDetermines(data[i], other[i]);
    }
  }

  /** So do those of a sensor file, up to the precision of the number format. */
  lemma SensorsDetermined(data: seq<SensorDataPoint>, other: seq<SensorDataPoint>, format: real -> NumberText, i: nat)
    requires SensorRows(data, format) == SensorRows(other, format) && i < |data|
    ensures |data| == |other|
    ensures data[i].sensorName == other[i].sensorName && data[i].unit == other[i].unit
    ensures format(data[i].timestamp) == format(other[i].timestamp) && format(data[i].value) == format(other[i].value)
  {
    hide SensorsHeader, IsNumber;
    assert |SensorRows(data, format)| == |data| + 1 && |SensorRows(other, format)| == |other| + 1;
    var a, b := SensorRows(data, format)[i + 1], SensorRows(other, format)[i + 1];
    assert a == SensorRow(data[i], format) && b == SensorRow(other[i], format);
    assert a[0] == b[0] && a[1] == b[1] && a[2] == b[2] && a[3] == b[3];
  }

  lemma NumbersArePlain(s: NumberText)
    ensures !NeedsQuotes(s) && Readable(s) && EscapeCsv(s) == s
  {
    hide DoubleQuotes;
  }

  /** The results file is read back as its header and one row per result exactly when the text fields are
    * readable; counts and verdicts never spoil it. */
  lemma ResultsRoundTrip(data: seq<TestResultData>)
    ensures Parses(RowsText(ResultRows(data)), ResultRows(data)) <==> forall r :: r in data ==> ResultReadable(r)
  {
    hide RowsText, Readable, IntText, ReadText, ResultRow, AllReadable, ResultsHeader, IsNumber, ResultReadable;
    TableRoundTrip(ResultRows(data));
    forall i | 0 <= i < |data| ensures AllReadable(ResultRows(data)[i + 1]) <==> ResultReadable(data[i]) {
      ResultRowReadable(data[i]);
    }
    HeadersReadable();
    var rows := ResultRows(data);
    assert rows[0] in rows;
    assert AllRowsReadable(rows) <==> forall i :: 0 <= i < |rows| ==> AllReadable(rows[i]);
    assert forall i :: 0 < i < |rows| ==> (AllReadable(rows[i]) <==> ResultReadable(data[i - 1]));
  }

  lemma ResultRowReadable(r: TestResultData)
    ensures AllReadable(ResultRow(r)) <==> ResultReadable(r)
  {
    hide Readable, IntText, IsNumber;
    NumbersArePlain(IntText(r.errorCount));
    VerdictIsPlain(r.passed);
    assert r.timestamp == ResultRow(r)[0] && r.testType == ResultRow(r)[1];
    assert r.mode == ResultRow(r)[2] && r.duration == ResultRow(r)[3];
  }

  lemma SensorRowReadable(p: SensorDataPoint, format: real -> NumberText)
    ensures AllReadable(SensorRow(p, format)) <==> PointReadable(p)
  {
    hide Readable, IsNumber;
    NumbersArePlain(format(p.timestamp));
    NumbersArePlain(format(p.value));
    assert p.sensorName == SensorRow(p, format)[1] && p.unit == SensorRow(p, format)[3];
  }

  lemma HeadersReadable()
    ensures AllReadable(ResultsHeader()) && AllReadable(SensorsHeader())
  {
    assert forall i :: 0 <= i < 6 ==> '\r' !in ResultsHeader()[i];
    assert forall i :: 0 <= i < 4 ==> '\r' !in SensorsHeader()[i];
  }

  /** The same for the sensor file. */
  lemma SensorsRoundTrip(data: seq<SensorDataPoint>, format: real -> NumberText)
    ensures Parses(RowsText(SensorRows(data, format)), SensorRows(data, format)) <==>
      forall p :: p in data ==> PointReadable(p)
  {
    hide RowsText, Readable, ReadText, SensorRow, AllReadable, SensorsHeader, IsNumber, PointReadable;
    var rows := SensorRows(data, format);
    TableRoundTrip(rows);
    forall i | 0 <= i < |data| ensures AllReadable(rows[i + 1]) <==> PointReadable(data[i]) {
      SensorRowReadable(data[i], format);
    }
    HeadersReadable();
    assert AllRowsReadable(rows) <==> forall i :: 0 <= i < |rows| ==> AllReadable(rows[i]);
    assert forall i :: 0 < i < |rows| ==> (AllReadable(rows[i]) <==> PointReadable(data[i - 1]));
  }

  /** A name with a carriage return and nothing else that needs quoting makes the whole file unreadable. */
  lemma CarriageReturnSpoilsFile(p: SensorDataPoint, format: real -> NumberText)
    requires p.sensorName == "Fan\r" && p.unit == "RPM"
    ensures !Parses(RowsText(SensorRows([p], format)), SensorRows([p], format))
  {
    hide RowsText, SensorRow, SensorsHeader, ReadText, IsNumber;
    SensorsRoundTrip([p], format);
    assert '\r' == p.sensorName[3];
    assert p in [p];
  }

  // ---- Writing -------------------------------------------------------------------------------------------

  lemma RowsTextStep(rows: seq<Row>, i: nat)
    requires i < |rows|
    ensures RowsText(rows[..i + 1]) == RowsText(rows[..i]) + RowText(rows[i])
  {
    assert rows[..i + 1] == rows[..i] + [rows[i]];
    RowsStep(rows[..i], rows[i]);
  }

  lemma OneField(f: string)
    ensures FrontText([f]) == EscapeCsv(f) + ","
  {
    FrontStep([], f);
    assert [] + [f] == [f];
    assert FrontText([]) == "";
    assert "" + EscapeCsv(f) == EscapeCsv(f);
  }

  lemma FourFields(a: string, b: string, c: string, d: string)
    ensures FrontText([a, b, c, d]) ==
      EscapeCsv(a) + "," + EscapeCsv(b) + "," + EscapeCsv(c) + "," + EscapeCsv(d) + ","
    ensures RowText([a, b, c, d]) ==
      EscapeCsv(a) + "," + EscapeCsv(b) + "," + EscapeCsv(c) + "," + EscapeCsv(d) + "\n"
  {
    hide EscapeCsv, FrontText;
    OneField(a);
    FrontStep([a], b);
    FrontStep([a, b], c);
    FrontStep([a, b, c], d);
    assert [a] + [b] == [a, b] && [a, b] + [c] == [a, b, c] && [a, b, c] + [d] == [a, b, c, d];
    assert [a, b, c, d][..3] == [a, b, c];
  }

  lemma SixFields(a: string, b: string, c: string, d: string, e: string, f: string)
    ensures RowText([a, b, c, d, e, f]) ==
      (EscapeCsv(a) + "," + EscapeCsv(b) + "," + EscapeCsv(c) + ",") +
      (EscapeCsv(d) + "," + EscapeCsv(e) + "," + EscapeCsv(f) + "\n")
  {
    hide EscapeCsv, FrontText;
    FourFields(a, b, c, d);
    FrontStep([a, b, c, d], e);
    assert [a, b, c, d, e, f][..5] == [a, b, c, d] + [e];
  }

  lemma ResultRowText(r: TestResultData)
    ensures RowText(ResultRow(r)) ==
      EscapeCsv(r.timestamp) + "," + EscapeCsv(r.testType) + "," + EscapeCsv(r.mode) + "," +
      EscapeCsv(r.duration) + "," + IntText(r.errorCount) + "," + PassText(r.passed) + "\n"
  {
    hide EscapeCsv, RowText, IntText, PassText, IsNumber;
    SixFields(r.timestamp, r.testType, r.mode, r.duration, IntText(r.errorCount), PassText(r.passed));
    NumbersArePlain(IntText(r.errorCount));
    VerdictIsPlain(r.passed);
  }

  lemma VerdictIsPlain(passed: bool)
    ensures EscapeCsv(PassText(passed)) == PassText(passed) && Readable(PassText(passed))
  {
  }

  lemma SensorRowText(p: SensorDataPoint, format: real -> NumberText)
    ensures RowText(SensorRow(p, format)) ==
      format(p.timestamp) + "," + EscapeCsv(p.sensorName) + "," + format(p.value) + "," + EscapeCsv(p.unit) + "\n"
  {
    FourFields(format(p.timestamp), p.sensorName, format(p.value), p.unit);
    NumbersArePlain(format(p.timestamp));
    NumbersArePlain(format(p.value));
  }

  /** A column name consists of lower case letters and underscores. */
  predicate IsName(s: string) {
    forall i :: 0 <= i < |s| ==> s[i] == '_' || 'a' <= s[i] <= 'z'
  }

  lemma NamesArePlain(s: string)
    requires IsName(s)
    ensures EscapeCsv(s) == s
  {
    hide DoubleQuotes;
  }

  lemma ResultsHeaderLine()
    ensures "timestamp" + "," + "test_type" + "," + "mode" + "," == "timestamp,test_type,mode,"
    ensures "duration" + "," + "errors" + "," + "result" + "\n" == "duration,errors,result\n"
  {
  }

  lemma SensorsHeaderLine()
    ensures "timestamp_sec" + "," + "sensor_name" + "," + "value" + "," + "unit" + "\n" ==
      "timestamp_sec,sensor_name,value,unit\n"
  {
  }

  lemma ResultsHeaderText()
    ensures RowsText([ResultsHeader()]) == "timestamp,test_type,mode," + "duration,errors,result\n"
  {
    hide FrontText, EscapeCsv, RowsText;
    NamesArePlain("timestamp");
    NamesArePlain("test_type");
    NamesArePlain("mode");
    NamesArePlain("duration");
    NamesArePlain("errors");
    NamesArePlain("result");
    SixFields("timestamp", "test_type", "mode", "duration", "errors", "result");
    OneRow(ResultsHeader());
    ResultsHeaderLine();
  }

  lemma SensorsHeaderText()
    ensures RowsText([SensorsHeader()]) == "timestamp_sec,sensor_name,value,unit\n"
  {
    hide FrontText, EscapeCsv, RowsText;
    NamesArePlain("timestamp_sec");
    NamesArePlain("sensor_name");
    NamesArePlain("value");
    NamesArePlain("unit");
    FourFields("timestamp_sec", "sensor_name", "value", "unit");
    OneRow(SensorsHeader());
    SensorsHeaderLine();
  }

  lemma OneRow(row: Row)
    ensures RowsText([row]) == RowText(row)
  {
    var none: seq<Row> := [];
    assert [row][..0] == none;
    assert RowsText(none) == "";
  }

  method ResultLine(r: TestResultData) returns (line: string)
    ensures line == RowText(ResultRow(r))
  {
    hide EscapeCsv, RowText, ResultRow, IntText, PassText, IsNumber;
    line := EscapeCsv(r.timestamp) + "," + EscapeCsv(r.testType) + "," + EscapeCsv(r.mode) + ","
      + EscapeCsv(r.duration) + "," + IntText(r.errorCount) + "," + PassText(r.passed) + "\n";
    ResultRowText(r);
  }

  method SensorLine(p: SensorDataPoint, format: real -> NumberText) returns (line: string)
    ensures line == RowText(SensorRow(p, format))
  {
    hide EscapeCsv, RowText, SensorRow, IsNumber;
    line := format(p.timestamp) + "," + EscapeCsv(p.sensorName) + "," + format(p.value) + ","
      + EscapeCsv(p.unit) + "\n";
    SensorRowText(p, format);
  }

  /** The file is written if it can be opened and takes the marker; it then holds marker, header and rows. */
  method SaveResults(data: seq<TestResultData>, opens: bool, takesMarker: bool) returns (ok: bool, file: string)
    ensures ok <==> opens && takesMarker
    ensures ok ==> file == MARKER + RowsText(ResultRows(data))
  {
    hide RowsText, RowText, ResultRow, ResultsHeader;
    file := "";
    if !opens {
      return false, file;
    }
    if !takesMarker {
      return false, file;
    }
    file := file + MARKER;
    file := file + ("timestamp,test_type,mode," + "duration,errors,result\n");
    ghost var rows := ResultRows(data);
    ResultsHeaderText();
    assert rows[..1] == [ResultsHeader()];
    for i := 0 to |data|
      invariant file == MARKER + RowsText(rows[..i + 1])
    {
      var line := ResultLine(data[i]);
      RowsTextStep(rows, i + 1);
      Associate(MARKER, RowsText(rows[..i + 1]), line);
      file := file + line;
    }
    assert rows[..|data| + 1] == rows;
    ok := true;
  }

  method SaveSensors(data: seq<SensorDataPoint>, format: real -> NumberText, opens: bool, takesMarker: bool)
    returns (ok: bool, file: string)
    ensures ok <==> opens && takesMarker
    ensures ok ==> file == MARKER + RowsText(SensorRows(data, format))
  {
    hide RowsText, RowText, SensorRow, SensorsHeader;
    file := "";
    if !opens {
      return false, file;
    }
    if !takesMarker {
      return false, file;
    }
    file := file + MARKER;
    file := file + "timestamp_sec,sensor_name,value,unit\n";
    ghost var rows := SensorRows(data, format);
    SensorsHeaderText();
    assert rows[..1] == [SensorsHeader()];
    for i := 0 to |data|
      invariant file == MARKER + RowsText(rows[..i + 1])
    {
      var line := SensorLine(data[i], format);
      RowsTextStep(rows, i + 1);
      Associate(MARKER, RowsText(rows[..i + 1]), line);
      file := file + line;
    }
    assert rows[..|data| + 1] == rows;
    ok := true;
  }

  // ---- an example ----------------------------------------------------------------------------------------

  lemma ExampleRow(r: TestResultData)
    requires r == TestResultData("10:00", "cpu", "a,b", "60", 12, false)
    ensures RowText(ResultRow(r)) == "10:00,cpu,\"a,b\",60,12,FAIL\n"
  {
    hide RowText, ResultRow, EscapeCsv, IntText, IsNumber;
    ResultRowText(r);
    ExamplePlain();
    ExampleQuoted();
    ExampleCount();
    ExampleText();
  }

  lemma ExampleText()
    ensures "10:00" + "," + "cpu" + "," + "\"a,b\"" + "," + "60" + "," + "12" + "," + "FAIL" + "\n" ==
      "10:00,cpu,\"a,b\",60,12,FAIL\n"
  {
  }

  lemma ExamplePlain()
    ensures EscapeCsv("10:00") == "10:00" && EscapeCsv("cpu") == "cpu" && EscapeCsv("60") == "60"
  {
    hide DoubleQuotes;
  }

  lemma ExampleQuoted()
    ensures EscapeCsv("a,b") == "\"a,b\""
  {
    hide DoubleQuotes;
    assert "a,b"[1] == ',';
    NoQuotes("a,b");
    assert "\"" + "a,b" + "\"" == "\"a,b\"";
  }

  lemma {:induction false} NoQuotes(s: string)
    requires '"' !in s
    ensures DoubleQuotes(s) == s
  {
    if s == "" {
    } else {
      NoQuotes(s[..|s| - 1]);
    }
  }

  lemma ExampleCount()
    ensures IntText(12) == "12"
  {
    assert NatText(1) == "1";
    assert NatText(12) == NatText(1) + "2";
  }

  /** For example: the file for one failed test. */
  method SaveOneResult() returns (ok: bool, file: string)
    ensures ok
    ensures file == "\U{FEFF}" + ("timestamp,test_type,mode," + "duration,errors,result\n"
      + "10:00,cpu,\"a,b\",60,12,FAIL\n")
  {
    hide RowText, ResultRow, RowsText;
    var r := TestResultData("10:00", "cpu", "a,b", "60", 12, false);
    ok, file := SaveResults([r], true, true);
    ExampleRow(r);
    ResultsHeaderText();
    assert ResultRows([r]) == [ResultsHeader()] + [ResultRow(r)];
    RowsStep([ResultsHeader()], ResultRow(r));
  }

  lemma ExampleSensor(p: SensorDataPoint, format: real -> NumberText)
    requires p == SensorDataPoint(2.0, "Fan 1", 900.0, "RPM") && format(2.0) == "2" && format(900.0) == "900"
    ensures RowText(SensorRow(p, format)) == "2,Fan 1,900,RPM\n"
  {
    hide RowText, SensorRow, EscapeCsv, IsNumber;
    SensorRowText(p, format);
    ExampleNames();
  }

  lemma ExampleNames()
    ensures EscapeCsv("Fan 1") == "Fan 1" && EscapeCsv("RPM") == "RPM"
    ensures "2" + "," + "Fan 1" + "," + "900" + "," + "RPM" + "\n" == "2,Fan 1,900,RPM\n"
  {
    hide DoubleQuotes;
  }

  /** For example: the file for one reading, in any format that writes 2 and 900 like this. */
  method SaveOneSensor(format: real -> NumberText) returns (ok: bool, file: string)
    requires format(2.0) == "2" && format(900.0) == "900"
    ensures ok
    ensures file == "\U{FEFF}" + ("timestamp_sec,sensor_name,value,unit\n" + "2,Fan 1,900,RPM\n")
  {
    hide RowText, SensorRow, RowsText, IsNumber;
    var p := SensorDataPoint(2.0, "Fan 1", 900.0, "RPM");
    ok, file := SaveSensors([p], format, true, true);
    ExampleSensor(p, format);
    SensorsHeaderText();
    assert SensorRows([p], format) == [SensorsHeader()] + [SensorRow(p, format)];
    RowsStep([SensorsHeader()], SensorRow(p, format));
  }
}
