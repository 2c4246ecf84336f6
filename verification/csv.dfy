/** The CSV text `saveCsvToFile` builds: a fixed header line, then one
    unquoted `store,barcode,date` line per row in store order, every line
    ended by a line break. The reader `ParseCsv` (split on line breaks, then
    on commas) is the partner the round trip is stated against. */
module Csv {
  import opened Options
  import opened Text
  import opened Rows

  const Header: string := "StoreCode,Barcode,Date"

  /** One data line without its line break; fields are neither quoted nor
      escaped. */
  function Record(r: ScanRow): string
  {
    r.storeCode + "," + (r.barcode + "," + r.date)
  }

  function Records(rows: seq<ScanRow>): (rs: seq<string>)
    ensures |rs| == |rows|
    ensures forall i :: 0 <= i < |rows| ==> rs[i] == Record(rows[i])
  {
    seq(|rows|, i requires 0 <= i < |rows| => Record(rows[i]))
  }

  /** The whole exported text: it opens with the header line and ends with
      a line break. */
  function CsvText(rows: seq<ScanRow>): (text: string)
    ensures |text| > |Header| && text[..|Header| + 1] == Header + "\n"
    ensures text[|text| - 1] == '\n'
  {
    var ls := [Header] + Records(rows);
    TerminatedLinesEnd(ls);
    assert TerminatedLines(ls) == Header + "\n" + TerminatedLines(ls[1..]);
    TerminatedLines(ls)
  }

  /** Reads one data line: exactly three comma-separated fields. */
  function ParseRecord(line: string): Option<ScanRow>
  {
    var fields := Split(line, ',');
    if |fields| == 3 then Some(ScanRow(fields[0], fields[1], fields[2])) else None
  }

  function ParseRecords(lines: seq<string>): Option<seq<ScanRow>>
  {
    if |lines| == 0 then Some([])
    else
      match (ParseRecord(lines[0]), ParseRecords(lines[1..]))
      case (Some(r), Some(rest)) => Some([r] + rest)
      case _ => None
  }

  /** Reads an exported text: the header line, data lines, and nothing after
      the final line break. */
  function ParseCsv(text: string): Option<seq<ScanRow>>
  {
    var lines := Split(text, '\n');
    if |lines| >= 2 && lines[0] == Header && lines[|lines| - 1] == ""
    then ParseRecords(lines[1..|lines| - 1])
    else None
  }

  /** Exporting after one more append gives the earlier text plus one line. */
  lemma CsvTextAppend(rows: seq<ScanRow>, r: ScanRow)
    ensures CsvText(rows + [r]) == CsvText(rows) + (Record(r) + "\n")
  {
    assert [Header] + Records(rows + [r]) == ([Header] + Records(rows)) + [Record(r)];
    TerminatedLinesAppend([Header] + Records(rows), Record(r));
  }

  /** The lines of the text, before they are joined. */
  lemma CsvLinesAvoidBreaks(rows: seq<ScanRow>)
    requires AllFieldsAvoid(rows, '\n')
    ensures forall k :: 0 <= k < |rows| + 1 ==> '\n' !in ([Header] + Records(rows))[k]
  {
    var ls := [Header] + Records(rows);
    forall k | 0 <= k < |ls| ensures '\n' !in ls[k] {
      if k > 0 { assert FieldsAvoid(rows[k - 1], '\n'); }
    }
  }

  /** With no line break inside a field, the text is `|rows| + 1` lines, each
      ended by a line break: the header first, then the rows' lines in order. */
  lemma CsvTextLines(rows: seq<ScanRow>)
    requires AllFieldsAvoid(rows, '\n')
    ensures var lines := Split(CsvText(rows), '\n');
      && |lines| == |rows| + 2
      && Count(CsvText(rows), '\n') == |rows| + 1
      && CsvText(rows)[|CsvText(rows)| - 1] == '\n'
      && lines[0] == Header
      && lines[|rows| + 1] == ""
      && forall i :: 0 <= i < |rows| ==> lines[i + 1] == Record(rows[i])
  {
    var ls := [Header] + Records(rows);
    CsvLinesAvoidBreaks(rows);
    SplitTerminatedLines(ls);
    TerminatedLinesEnd(ls);
    var lines := Split(CsvText(rows), '\n');
    assert lines == ls + [""];
    forall i | 0 <= i < |rows| ensures lines[i + 1] == Record(rows[i]) {
      assert lines[i + 1] == ls[i + 1];
    }
  }

  /** A line built from comma-free fields reads back as its row. */
  lemma ParseRecordOf(r: ScanRow)
    requires FieldsAvoid(r, ',')
    ensures ParseRecord(Record(r)) == Some(r)
  {
    SplitThree(r.storeCode, r.barcode, r.date, ',');
  }

  lemma {:induction false} ParseRecordsOf(rows: seq<ScanRow>)
    requires AllFieldsAvoid(rows, ',')
    ensures ParseRecords(Records(rows)) == Some(rows)
  {
    if |rows| > 0 {
      assert FieldsAvoid(rows[0], ',');
      ParseRecordOf(rows[0]);
      assert Records(rows)[1..] == Records(rows[1..]);
      ParseRecordsOf(rows[1..]);
      assert [rows[0]] + rows[1..] == rows;
    }
  }

  /** A comma inside any field gives its line more than three fields. */
  lemma CommaBreaksRecord(r: ScanRow)
    requires !FieldsAvoid(r, ',')
    ensures ParseRecord(Record(r)) == None
  {
    var c := ',';
    var tail := r.barcode + "," + r.date;
    CountConcat(r.storeCode + ",", tail, c);
    CountConcat(r.storeCode, ",", c);
    CountConcat(r.barcode + ",", r.date, c);
    CountConcat(r.barcode, ",", c);
    assert Count(",", c) == 1;
    if c in r.storeCode { CountPresent(r.storeCode, c); }
    else if c in r.barcode { CountPresent(r.barcode, c); }
    else { CountPresent(r.date, c); }
    assert Count(Record(r), c) >= 3;
  }

  lemma {:induction false} ParseRecordsRejects(rows: seq<ScanRow>)
    requires !AllFieldsAvoid(rows, ',')
    ensures ParseRecords(Records(rows)) == None
  {
    assert Records(rows)[1..] == Records(rows[1..]);
    if FieldsAvoid(rows[0], ',') {
      assert !AllFieldsAvoid(rows[1..], ',') by {
        var k :| 0 <= k < |rows| && !FieldsAvoid(rows[k], ',');
        assert rows[1..][k - 1] == rows[k];
      }
      ParseRecordsRejects(rows[1..]);
    } else {
      CommaBreaksRecord(rows[0]);
    }
  }

  /** Round trip, both directions: for rows without line breaks in their
      fields, reading the exported text gives back exactly the rows, in order,
      if and only if no field contains a comma; otherwise it reads as nothing. */
  lemma CsvRoundTrip(rows: seq<ScanRow>)
    requires AllFieldsAvoid(rows, '\n')
    ensures AllFieldsAvoid(rows, ',') ==> ParseCsv(CsvText(rows)) == Some(rows)
    ensures !AllFieldsAvoid(rows, ',') ==> ParseCsv(CsvText(rows)) == None
  {
    CsvTextLines(rows);
    var lines := Split(CsvText(rows), '\n');
    assert lines[1..|lines| - 1] == Records(rows);
    if AllFieldsAvoid(rows, ',') {
      ParseRecordsOf(rows);
    } else {
      ParseRecordsRejects(rows);
    }
  }

  /** Two rows give the header line and their two lines. */
  lemma CsvTextTwo(a: ScanRow, b: ScanRow)
    ensures CsvText([a, b]) == Header + "\n" + (Record(a) + "\n" + (Record(b) + "\n"))
  {
    var ls := [Header] + Records([a, b]);
    assert ls == [Header, Record(a), Record(b)];
    assert ls[1..] == [Record(a), Record(b)] && [Record(a), Record(b)][1..] == [Record(b)] && [Record(b)][1..] == [];
    assert TerminatedLines([Record(b)]) == Record(b) + "\n" + TerminatedLines([]);
    assert TerminatedLines([Record(a), Record(b)]) == Record(a) + "\n" + TerminatedLines([Record(b)]);
    assert TerminatedLines(ls) == Header + "\n" + TerminatedLines([Record(a), Record(b)]);
  }

  /** The exact text for two sample rows. */
  lemma TwoRowExample()
    ensures CsvText([ScanRow("S1", "B1", "2024-01-01"), ScanRow("S2", "B2", "2024-01-02")])
         == "StoreCode,Barcode,Date\n" + ("S1,B1,2024-01-01\n" + "S2,B2,2024-01-02\n")
  {
    var a := ScanRow("S1", "B1", "2024-01-01");
    var b := ScanRow("S2", "B2", "2024-01-02");
    CsvTextTwo(a, b);
    assert Header + "\n" == "StoreCode,Barcode,Date\n";
    assert Record(a) + "\n" == "S1,B1,2024-01-01\n";
    assert Record(b) + "\n" == "S2,B2,2024-01-02\n";
  }
}
