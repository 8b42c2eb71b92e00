/**
 * The check-in CSV export of src/state/mockStore.ts: field quoting
 * (`csvEscape`) and the text `exportCheckInsCsv` builds before it hands it
 * to the browser as a download.
 *
 * Quoting follows rules 6 and 7 of section 2 of RFC 4180 (a field holding a
 * comma, a double quote or a line break is enclosed in double quotes, and a
 * double quote inside it is written twice), with two departures: records are
 * joined with "\n" rather than CRLF, and a lone "\r" does not cause quoting.
 * The reader below (RecordOf, DocumentOf) follows the same conventions and
 * exists to state what the writer promises: reading recovers every field.
 */
module CsvExport {
  import opened Wrappers
  import opened Records

  /** `value.includes(',') || value.includes('"') || value.includes('\n')`. */
  predicate NeedsQuoting(value: string)
  {
    ',' in value || '"' in value || '\n' in value
  }

  /** `value.replace(/"/g, '""')`. */
  function DoubleQuotes(value: string): (r: string)
    ensures |r| >= |value|
    ensures '"' !in value ==> r == value
  {
    if value == [] then []
    else (if value[0] == '"' then "\"\"" else [value[0]]) + DoubleQuotes(value[1..])
  }

  /** `csvEscape`: a field as written to the file; reading it back gives the value. */
  function CsvEscape(value: string): (r: string)
    ensures r == value <==> !NeedsQuoting(value)
    ensures NeedsQuoting(value) ==> |r| >= 2 && r[0] == '"' && r[|r| - 1] == '"'
    ensures FieldOf(r) == Some((value, ""))
  {
    FieldRoundTrip(value, "");
    if NeedsQuoting(value) then
      var quoted := "\"" + DoubleQuotes(value) + "\"";
      assert quoted + "" == quoted;
      quoted
    else
      assert value + "" == value;
      value
  }

  /**
   * Where the quoting departs from RFC 4180: a carriage return alone does not
   * cause quoting; a comma does, and a quote inside is doubled.
   */
  lemma {:induction false} CsvEscapeExamples()
    ensures CsvEscape("a\rb") == "a\rb"
    ensures CsvEscape(",\"") == "\",\"\"\""
  {
    assert !NeedsQuoting("a\rb") by {
      assert "a\rb" == ['a', '\r', 'b'];
    }
    assert DoubleQuotes("\"") == "\"\"" by {
      assert "\""[1..] == [];
    }
    assert DoubleQuotes(",\"") == "," + DoubleQuotes("\"") by {
      assert ",\""[1..] == "\"";
    }
  }

  // ---------------------------------------------------------------------------
  // Reading

  /** An unquoted field: everything up to the next ',' or '\n'. */
  function UnquotedField(s: string): (r: (string, string))
    ensures r.0 + r.1 == s
  {
    if s == [] || s[0] == ',' || s[0] == '\n' then ([], s)
    else
      var (field, rest) := UnquotedField(s[1..]);
      assert [s[0]] + (field + rest) == s;
      ([s[0]] + field, rest)
  }

  /**
   * The rest of a quoted field after its opening quote, up to and including
   * the closing quote; a doubled quote stands for one. None when the closing
   * quote is missing.
   */
  function QuotedField(s: string): (r: Option<(string, string)>)
    ensures r.Some? ==> |r.value.1| < |s|
  {
    if s == [] then None
    else if s[0] == '"' then
      if |s| > 1 && s[1] == '"' then
        match QuotedField(s[2..])
        case None => None
        case Some((field, rest)) => Some(("\"" + field, rest))
      else Some(([], s[1..]))
    else
      match QuotedField(s[1..])
      case None => None
      case Some((field, rest)) => Some(([s[0]] + field, rest))
  }

  /** One field and the text after it. */
  function FieldOf(s: string): (r: Option<(string, string)>)
    ensures r.Some? ==> |r.value.1| <= |s|
  {
    if s != [] && s[0] == '"' then QuotedField(s[1..]) else Some(UnquotedField(s))
  }

  /** The fields of one record and the text after it, which is empty or starts with '\n'. */
  function RecordOf(s: string): (r: Option<(seq<string>, string)>)
    ensures r.Some? ==> |r.value.1| <= |s| && (r.value.1 == [] || r.value.1[0] == '\n')
    decreases |s|
  {
    match FieldOf(s)
    case None => None
    case Some((field, rest)) =>
      if rest == [] || rest[0] == '\n' then Some(([field], rest))
      else if rest[0] == ',' then
        match RecordOf(rest[1..])
        case None => None
        case Some((fields, tail)) => Some(([field] + fields, tail))
      else None
  }

  /** The records of a whole text, separated by '\n'. */
  function DocumentOf(s: string): (r: Option<seq<seq<string>>>)
    decreases |s|
  {
    match RecordOf(s)
    case None => None
    case Some((record, rest)) =>
      if rest == [] then Some([record])
      else
        match DocumentOf(rest[1..])
        case None => None
        case Some(records) => Some([record] + records)
  }

  // ---------------------------------------------------------------------------
  // Writing

  /** `parts.join(sep)`. */
  function Join(parts: seq<string>, sep: char): string
  {
    if |parts| == 0 then ""
    else if |parts| == 1 then parts[0]
    else parts[0] + [sep] + Join(parts[1..], sep)
  }

  /** `fields.map(csvEscape).join(",")`. */
  function RecordLine(fields: seq<string>): string
  {
    Join(EscapeAll(fields), ',')
  }

  function EscapeAll(fields: seq<string>): (r: seq<string>)
    ensures |r| == |fields|
    ensures forall i :: 0 <= i < |fields| ==> r[i] == CsvEscape(fields[i])
  {
    if fields == [] then []
    else
      var rest := EscapeAll(fields[1..]);
      assert forall i :: 1 <= i < |fields| ==> rest[i - 1] == CsvEscape(fields[i]);
      [CsvEscape(fields[0])] + rest
  }

  /** `records.map(RecordLine).join("\n")`. */
  function Lines(records: seq<seq<string>>): (r: seq<string>)
    ensures |r| == |records|
    ensures forall i :: 0 <= i < |records| ==> r[i] == RecordLine(records[i])
  {
    if records == [] then [] else [RecordLine(records[0])] + Lines(records[1..])
  }

  // ---------------------------------------------------------------------------
  // Round trips

  lemma {:induction false} UnquotedRoundTrip(value: string, rest: string)
    requires !NeedsQuoting(value)
    requires rest == [] || rest[0] == ',' || rest[0] == '\n'
    ensures UnquotedField(value + rest) == (value, rest)
  {
    if value != [] {
      assert (value + rest)[0] == value[0] && value[0] in value;
      assert (value + rest)[1..] == value[1..] + rest;
      assert !NeedsQuoting(value[1..]) by {
        forall c | c in value[1..] ensures c in value { }
      }
      UnquotedRoundTrip(value[1..], rest);
      assert [value[0]] + value[1..] == value;
    } else {
      assert value + rest == rest;
    }
  }

  lemma {:induction false} QuotedRoundTrip(value: string, rest: string)
    requires rest == [] || rest[0] != '"'
    ensures QuotedField(DoubleQuotes(value) + "\"" + rest) == Some((value, rest))
  {
    if value == [] {
      var s := DoubleQuotes(value) + "\"" + rest;
      assert s == ['"'] + rest;
      assert s[0] == '"' && s[1..] == rest;
      assert |s| > 1 ==> s[1] != '"';
    } else {
      QuotedRoundTrip(value[1..], rest);
      if value[0] == '"' {
        QuotedStepQuote(value, rest);
      } else {
        QuotedStepPlain(value, rest);
      }
    }
  }

  /** The doubled text of a value, one character at a time. */
  lemma {:induction false} DoubleQuotesCons(value: string, after: string)
    requires value != []
    ensures DoubleQuotes(value) + after ==
      (if value[0] == '"' then "\"\"" else [value[0]]) + (DoubleQuotes(value[1..]) + after)
  {
  }

  /** One character of the value more: a quote is read back from its doubled form. */
  lemma {:induction false} QuotedStepQuote(value: string, rest: string)
    requires value != [] && value[0] == '"'
    requires QuotedField(DoubleQuotes(value[1..]) + "\"" + rest) == Some((value[1..], rest))
    ensures QuotedField(DoubleQuotes(value) + "\"" + rest) == Some((value, rest))
  {
    var tail := DoubleQuotes(value[1..]) + "\"" + rest;
    var s := DoubleQuotes(value) + "\"" + rest;
    DoubleQuotesCons(value, "\"" + rest);
    assert s == "\"\"" + tail;
    assert s[0] == '"' && s[1] == '"' && s[2..] == tail;
    assert "\"" + value[1..] == value;
  }

  /** One character of the value more: any other character is read back as itself. */
  lemma {:induction false} QuotedStepPlain(value: string, rest: string)
    requires value != [] && value[0] != '"'
    requires QuotedField(DoubleQuotes(value[1..]) + "\"" + rest) == Some((value[1..], rest))
    ensures QuotedField(DoubleQuotes(value) + "\"" + rest) == Some((value, rest))
  {
    var tail := DoubleQuotes(value[1..]) + "\"" + rest;
    var s := DoubleQuotes(value) + "\"" + rest;
    DoubleQuotesCons(value, "\"" + rest);
    assert s == [value[0]] + tail;
    assert s[0] == value[0] && s[1..] == tail;
    assert [value[0]] + value[1..] == value;
  }

  /** An escaped field followed by a separator or the end reads back as the value. */
  lemma {:induction false} FieldRoundTrip(value: string, rest: string)
    requires rest == [] || rest[0] == ',' || rest[0] == '\n'
    ensures NeedsQuoting(value) ==> FieldOf("\"" + DoubleQuotes(value) + "\"" + rest) == Some((value, rest))
    ensures !NeedsQuoting(value) ==> FieldOf(value + rest) == Some((value, rest))
  {
    if NeedsQuoting(value) {
      QuotedFieldRoundTrip(value, rest);
    } else {
      UnquotedRoundTrip(value, rest);
    }
  }

  lemma {:induction false} QuotedFieldRoundTrip(value: string, rest: string)
    requires rest == [] || rest[0] == ',' || rest[0] == '\n'
    ensures FieldOf("\"" + DoubleQuotes(value) + "\"" + rest) == Some((value, rest))
  {
    QuotedRoundTrip(value, rest);
    var body := DoubleQuotes(value) + "\"" + rest;
    var s := "\"" + DoubleQuotes(value) + "\"" + rest;
    assert s == ['"'] + body;
    assert s[0] == '"' && s[1..] == body;
  }

  /** The escaped field placed before a separator or the end reads back as the value. */
  lemma {:induction false} EscapedFieldRoundTrip(value: string, rest: string)
    requires rest == [] || rest[0] == ',' || rest[0] == '\n'
    ensures FieldOf(CsvEscape(value) + rest) == Some((value, rest))
  {
    FieldRoundTrip(value, rest);
  }

  /** The record reader, one field at a time: a field followed by ',' continues the record. */
  lemma {:induction false} RecordOfComma(s: string, field: string, tail: string)
    requires FieldOf(s) == Some((field, [','] + tail))
    ensures RecordOf(s) == match RecordOf(tail)
      case None => None
      case Some((fields, after)) => Some(([field] + fields, after))
  {
    assert ([','] + tail)[1..] == tail;
  }

  /** The document reader, one record at a time: a record followed by '\n' continues the document. */
  lemma {:induction false} DocumentOfNewline(s: string, record: seq<string>, tail: string)
    requires RecordOf(s) == Some((record, ['\n'] + tail))
    ensures DocumentOf(s) == match DocumentOf(tail)
      case None => None
      case Some(records) => Some([record] + records)
  {
    assert (['\n'] + tail)[1..] == tail;
  }

  /** A record line followed by '\n' or the end reads back as its fields. */
  lemma {:induction false} RecordRoundTrip(fields: seq<string>, rest: string)
    requires |fields| >= 1
    requires rest == [] || rest[0] == '\n'
    ensures RecordOf(RecordLine(fields) + rest) == Some((fields, rest))
  {
    if |fields| == 1 {
      assert RecordLine(fields) == CsvEscape(fields[0]);
      EscapedFieldRoundTrip(fields[0], rest);
      assert fields == [fields[0]];
    } else {
      RecordRoundTrip(fields[1..], rest);
      RecordStep(fields, rest);
    }
  }

  /** One field more in front of a record that reads back. */
  lemma {:induction false} RecordStep(fields: seq<string>, rest: string)
    requires |fields| >= 2
    requires rest == [] || rest[0] == '\n'
    requires RecordOf(RecordLine(fields[1..]) + rest) == Some((fields[1..], rest))
    ensures RecordOf(RecordLine(fields) + rest) == Some((fields, rest))
  {
    var tail := RecordLine(fields[1..]) + rest;
    RecordLineCons(fields, rest);
    EscapedFieldRoundTrip(fields[0], [','] + tail);
    RecordOfComma(RecordLine(fields) + rest, fields[0], tail);
    assert [fields[0]] + fields[1..] == fields;
  }

  /** A record line of two fields or more is the first field escaped, a comma, and the rest. */
  lemma {:induction false} RecordLineCons(fields: seq<string>, rest: string)
    requires |fields| >= 2
    ensures RecordLine(fields) + rest == CsvEscape(fields[0]) + ([','] + (RecordLine(fields[1..]) + rest))
  {
    var escaped := EscapeAll(fields);
    assert escaped[1..] == EscapeAll(fields[1..]);
    assert RecordLine(fields) == CsvEscape(fields[0]) + [','] + RecordLine(fields[1..]);
  }

  /** Lines joined with '\n' read back as the records they were written from. */
  lemma {:induction false} DocumentRoundTrip(records: seq<seq<string>>)
    requires |records| >= 1
    requires forall i :: 0 <= i < |records| ==> |records[i]| >= 1
    ensures DocumentOf(Join(Lines(records), '\n')) == Some(records)
  {
    if |records| == 1 {
      assert Join(Lines(records), '\n') == RecordLine(records[0]) + "";
      RecordRoundTrip(records[0], "");
      assert records == [records[0]];
    } else {
      DocumentRoundTrip(records[1..]);
      DocumentStep(records);
    }
  }

  /** One record more in front of a document that reads back. */
  lemma {:induction false} DocumentStep(records: seq<seq<string>>)
    requires |records| >= 2 && |records[0]| >= 1
    requires DocumentOf(Join(Lines(records[1..]), '\n')) == Some(records[1..])
    ensures DocumentOf(Join(Lines(records), '\n')) == Some(records)
  {
    var tail := Join(Lines(records[1..]), '\n');
    DocumentCons(records);
    RecordRoundTrip(records[0], ['\n'] + tail);
    DocumentOfNewline(Join(Lines(records), '\n'), records[0], tail);
    assert [records[0]] + records[1..] == records;
  }

  /** A document of two records or more is the first record's line, '\n', and the rest. */
  lemma {:induction false} DocumentCons(records: seq<seq<string>>)
    requires |records| >= 2
    ensures Join(Lines(records), '\n') == RecordLine(records[0]) + (['\n'] + Join(Lines(records[1..]), '\n'))
  {
    var lines := Lines(records);
    assert lines[1..] == Lines(records[1..]);
    assert Join(lines, '\n') == lines[0] + ['\n'] + Join(lines[1..], '\n');
  }

  // ---------------------------------------------------------------------------
  // The check-in export

  const Header: seq<string> := ["checkin_id", "student_id", "bus", "stop", "timestamp"]

  /** Fields that need no quoting are written as they are. */
  lemma {:induction false} PlainRecordLine(fields: seq<string>)
    requires forall i :: 0 <= i < |fields| ==> !NeedsQuoting(fields[i])
    ensures RecordLine(fields) == Join(fields, ',')
  {
    var escaped := EscapeAll(fields);
    assert forall i :: 0 <= i < |fields| ==> escaped[i] == fields[i];
    assert escaped == fields;
  }

  /** No header name holds a comma, a quote or a line break. */
  lemma {:induction false} HeaderNamesPlain()
    ensures forall i :: 0 <= i < |Header| ==> !NeedsQuoting(Header[i])
  {
    assert !NeedsQuoting(Header[0]) && !NeedsQuoting(Header[1]) && !NeedsQuoting(Header[2]);
    assert !NeedsQuoting(Header[3]) && !NeedsQuoting(Header[4]);
  }

  /** So the header line is the names joined by ','. */
  lemma {:induction false} HeaderIsPlain()
    ensures RecordLine(Header) == Join(Header, ',')
  {
    HeaderNamesPlain();
    PlainRecordLine(Header);
  }

  /** `lookup?.name || id`: the name when the id is known and the name is not empty, else the raw id. */
  function NameOrId(name: Option<string>, id: string): (r: string)
    ensures name.Some? && name.value != "" ==> r == name.value
    ensures name.None? || name == Some("") ==> r == id
  {
    if name.Some? && name.value != "" then name.value else id
  }

  /** The bus column: `busById.get(r.busId)?.name || r.busId`. */
  function BusColumn(buses: seq<BusRoute>, busId: string): (r: string)
    ensures (forall b :: b in buses ==> b.id != busId) ==> r == busId
    ensures r == busId || exists b :: b in buses && b.id == busId && b.name == r
    ensures forall i ::
      (0 <= i < |buses| && buses[i].id == busId && (forall j :: i < j < |buses| ==> buses[j].id != busId)) ==>
      r == NameOrId(Some(buses[i].name), busId)
  {
    Sequences.IndexByLookup(buses, BusId);
    var index := BusIndex(buses);
    NameOrId(if busId in index then Some(index[busId].name) else None, busId)
  }

  /** The stop column: `stopById.get(r.stopId)?.name || r.stopId`. */
  function StopColumn(stops: seq<Stop>, stopId: string): (r: string)
    ensures (forall s :: s in stops ==> s.id != stopId) ==> r == stopId
    ensures r == stopId || exists s :: s in stops && s.id == stopId && s.name == r
    ensures forall i ::
      (0 <= i < |stops| && stops[i].id == stopId && (forall j :: i < j < |stops| ==> stops[j].id != stopId)) ==>
      r == NameOrId(Some(stops[i].name), stopId)
  {
    Sequences.IndexByLookup(stops, StopId);
    var index := StopIndex(stops);
    NameOrId(if stopId in index then Some(index[stopId].name) else None, stopId)
  }

  /** The five columns of one check-in, before escaping. */
  function RowFields(row: CheckIn, buses: seq<BusRoute>, stops: seq<Stop>): (r: seq<string>)
    ensures |r| == 5 && r[0] == row.id && r[1] == row.studentId && r[4] == row.timestamp
    ensures r[2] == row.busId || exists b :: b in buses && b.id == row.busId && b.name == r[2]
    ensures r[3] == row.stopId || exists s :: s in stops && s.id == row.stopId && s.name == r[3]
  {
    [row.id, row.studentId, BusColumn(buses, row.busId), StopColumn(stops, row.stopId), row.timestamp]
  }

  function AllRowFields(rows: seq<CheckIn>, buses: seq<BusRoute>, stops: seq<Stop>): (r: seq<seq<string>>)
    ensures |r| == |rows|
    ensures forall i :: 0 <= i < |rows| ==> r[i] == RowFields(rows[i], buses, stops)
  {
    seq(|rows|, i requires 0 <= i < |rows| => RowFields(rows[i], buses, stops))
  }

  /**
   * The CSV text: the header line, then one line per check-in, joined by
   * '\n'. Reading it back gives the header and, for each check-in in order,
   * its id, student id, resolved bus, resolved stop and timestamp.
   */
  function CsvText(rows: seq<CheckIn>, buses: seq<BusRoute>, stops: seq<Stop>): (r: string)
    ensures DocumentOf(r) == Some([Header] + AllRowFields(rows, buses, stops))
  {
    var rowFields := AllRowFields(rows, buses, stops);
    assert forall i :: 0 <= i < |rowFields| ==> |rowFields[i]| == 5;
    TableRoundTrip(rowFields);
    Join([Join(Header, ',')] + Lines(rowFields), '\n')
  }

  /** The header line followed by any non-empty records reads back as the header and those records. */
  lemma {:induction false} TableRoundTrip(rowFields: seq<seq<string>>)
    requires forall i :: 0 <= i < |rowFields| ==> |rowFields[i]| >= 1
    ensures DocumentOf(Join([Join(Header, ',')] + Lines(rowFields), '\n')) == Some([Header] + rowFields)
  {
    var records := [Header] + rowFields;
    HeaderFirst(rowFields);
    DocumentRoundTrip(records);
  }

  /** Putting the header in front of non-empty records: still non-empty records, and its line is the plain join. */
  lemma {:induction false} HeaderFirst(rowFields: seq<seq<string>>)
    requires forall i :: 0 <= i < |rowFields| ==> |rowFields[i]| >= 1
    ensures forall i :: 0 <= i < |[Header] + rowFields| ==> |([Header] + rowFields)[i]| >= 1
    ensures Lines([Header] + rowFields) == [Join(Header, ',')] + Lines(rowFields)
  {
    var records := [Header] + rowFields;
    forall i | 0 <= i < |records|
      ensures |records[i]| >= 1
    {
      if i > 0 {
        assert records[i] == rowFields[i - 1];
      }
    }
    HeaderIsPlain();
    assert records[1..] == rowFields;
  }
}
