/**
 * The CSV export of a draft report (backoffice/src/server/reports.ts), against a reader of
 * section 2 of RFC 4180.
 */
module ReportCsv {
  import opened Texts
  import opened Wrappers

  /** The characters a spreadsheet may take for the start of a formula, full-width forms included. */
  predicate FormulaStart(c: char) {
    || c == '=' || c == '+' || c == '-' || c == '@'
    || c == '\U{FF1D}' || c == '\U{FF0B}' || c == '\U{FF0D}' || c == '\U{FF20}'
  }

  function SkipBlanks(s: string): string {
    if s != "" && Blank(s[0]) then SkipBlanks(s[1..]) else s
  }

  predicate Risky(s: string) {
    || (SkipBlanks(s) != "" && FormulaStart(SkipBlanks(s)[0]))
    || (s != "" && (s[0] == '\t' || s[0] == '\r' || s[0] == '\n'))
  }

  /** A risky cell gets an apostrophe in front. */
  function Neutralised(s: string): string {
    if Risky(s) then "'" + s else s
  }

  predicate Special(c: char) {
    c == '\"' || c == ',' || c == '\r' || c == '\n'
  }

  predicate NeedsQuotes(s: string) {
    exists i :: 0 <= i < |s| && Special(s[i])
  }

  function Doubled(s: string): string {
    if s == "" then "" else (if s[0] == '\"' then "\"\"" else [s[0]]) + Doubled(s[1..])
  }

  function Quoted(s: string): string {
    if NeedsQuotes(s) then "\"" + (Doubled(s) + "\"") else s
  }

  /** csvCell, of a cell already turned into text. */
  function CsvCell(s: string): string {
    Quoted(Neutralised(s))
  }

  /** csvLine: the cells joined by commas. */
  function CsvLine(cells: seq<string>): string {
    if cells == [] then ""
    else if |cells| == 1 then CsvCell(cells[0])
    else CsvCell(cells[0]) + ("," + CsvLine(cells[1..]))
  }

  const CRLF: string := "\r\n"

  // ---------------------------------------------------------------------------
  // The reader
  // ---------------------------------------------------------------------------

  datatype Field = Field(text: string, rest: string)

  /** An unquoted field: text up to a comma, a line break or the end; a quote in it is malformed. */
  function ReadPlain(s: string): (field: Option<Field>)
    ensures field.Some? ==> |field.value.rest| <= |s|
  {
    if s == "" || s[0] == ',' || s[0] == '\r' || s[0] == '\n' then Some(Field("", s))
    else if s[0] == '\"' then None
    else
      var more := ReadPlain(s[1..]);
      if more.None? then None else Some(Field([s[0]] + more.value.text, more.value.rest))
  }

  /** A quoted field past its opening quote: a doubled quote stands for one, a single one ends it. */
  function ReadQuoted(s: string): (field: Option<Field>)
    ensures field.Some? ==> |field.value.rest| < |s|
  {
    if s == "" then None
    else if s[0] == '\"' then
      if |s| > 1 && s[1] == '\"' then
        var more := ReadQuoted(s[2..]);
        if more.None? then None else Some(Field("\"" + more.value.text, more.value.rest))
      else Some(Field("", s[1..]))
    else
      var more := ReadQuoted(s[1..]);
      if more.None? then None else Some(Field([s[0]] + more.value.text, more.value.rest))
  }

  function ReadField(s: string): (field: Option<Field>)
    ensures field.Some? ==> |field.value.rest| <= |s|
  {
    if s != "" && s[0] == '\"' then ReadQuoted(s[1..]) else ReadPlain(s)
  }

  datatype Record = Record(fields: seq<string>, rest: string)

  /** One record: fields separated by commas, ended by CRLF. */
  function ReadRecord(s: string): (record: Option<Record>)
    ensures record.Some? ==> |record.value.rest| < |s|
    decreases |s|
  {
    var field := ReadField(s);
    if field.None? then None
    else
      var f := field.value;
      if f.rest != "" && f.rest[0] == ',' then
        var more := ReadRecord(f.rest[1..]);
        if more.None? then None else Some(Record([f.text] + more.value.fields, more.value.rest))
      else if CRLF <= f.rest then Some(Record([f.text], f.rest[2..]))
      else None
  }

  function ReadFile(s: string): Option<seq<seq<string>>>
    decreases |s|
  {
    if s == "" then Some([])
    else
      var record := ReadRecord(s);
      if record.None? then None
      else
        var more := ReadFile(record.value.rest);
        if more.None? then None else Some([record.value.fields] + more.value)
  }

  // ---------------------------------------------------------------------------
  // Lines read back
  // ---------------------------------------------------------------------------

  /** What may follow a cell: a comma or a line break. */
  predicate Ends(rest: string) {
    rest != "" && (rest[0] == ',' || rest[0] == '\r')
  }

  lemma {:induction false} PlainReads(s: string, rest: string)
    requires !NeedsQuotes(s) && Ends(rest)
    ensures ReadPlain(s + rest) == Some(Field(s, rest))
  {
    if s == "" {
      assert s + rest == rest;
    } else {
      assert !Special(s[0]);
      assert forall i :: 0 <= i < |s[1..]| ==> !Special(s[i + 1]) && s[1..][i] == s[i + 1];
      PlainReads(s[1..], rest);
      assert (s + rest)[1..] == s[1..] + rest;
      assert s == [s[0]] + s[1..];
    }
  }

  lemma {:induction false} QuotedReads(s: string, rest: string)
    requires rest != "" && rest[0] != '\"'
    ensures ReadQuoted(Doubled(s) + ("\"" + rest)) == Some(Field(s, rest))
  {
    if s == "" {
      assert Doubled(s) + ("\"" + rest) == "\"" + rest;
      assert ("\"" + rest)[1..] == rest;
    } else {
      QuotedReads(s[1..], rest);
      QuotedStep(s[0], Doubled(s[1..]) + ("\"" + rest));
      DoubledFirst(s, "\"" + rest);
      assert s == [s[0]] + s[1..];
    }
  }

  lemma DoubledFirst(s: string, more: string)
    requires s != ""
    ensures Doubled(s) + more == (if s[0] == '\"' then "\"\"" else [s[0]]) + (Doubled(s[1..]) + more)
  {
  }

  /** One character inside the quotes, a quote being written twice. */
  lemma QuotedStep(c: char, more: string)
    ensures ReadQuoted((if c == '\"' then "\"\"" else [c]) + more)
      == var field := ReadQuoted(more);
         if field.None? then None else Some(Field([c] + field.value.text, field.value.rest))
  {
    if c == '\"' {
      assert ("\"\"" + more)[2..] == more;
    } else {
      assert ([c] + more)[1..] == more;
    }
  }

  /** A cell is read back as its neutralised text, whatever separator follows it. */
  lemma CellReads(s: string, rest: string)
    requires Ends(rest)
    ensures ReadField(CsvCell(s) + rest) == Some(Field(Neutralised(s), rest))
  {
    var n := Neutralised(s);
    if NeedsQuotes(n) {
      var t := CsvCell(s) + rest;
      assert t[1..] == Doubled(n) + ("\"" + rest);
      QuotedReads(n, rest);
    } else {
      PlainReads(n, rest);
      assert n != "" ==> !Special(n[0]);
      assert n != "" ==> (n + rest)[0] == n[0];
      assert n == "" ==> n + rest == rest;
    }
  }

  function NeutralisedCells(cells: seq<string>): (out: seq<string>)
    ensures |out| == |cells|
  {
    if cells == [] then [] else [Neutralised(cells[0])] + NeutralisedCells(cells[1..])
  }

  lemma FirstCellReads(cell: string, more: string, fields: seq<string>, rest: string)
    requires ReadRecord(more) == Some(Record(fields, rest))
    ensures ReadRecord(CsvCell(cell) + ("," + more)) == Some(Record([Neutralised(cell)] + fields, rest))
  {
    CellReads(cell, "," + more);
    assert ("," + more)[1..] == more;
  }

  lemma LastCellReads(cell: string, rest: string)
    ensures ReadRecord(CsvCell(cell) + (CRLF + rest)) == Some(Record([Neutralised(cell)], rest))
  {
    CellReads(cell, CRLF + rest);
    assert (CRLF + rest)[2..] == rest;
  }

  lemma Regroup(a: string, b: string, c: string, d: string)
    ensures (a + (b + c)) + d == a + (b + (c + d))
  {
  }

  lemma OneCell(cells: seq<string>)
    requires |cells| == 1
    ensures NeutralisedCells(cells) == [Neutralised(cells[0])]
  {
    assert NeutralisedCells(cells[1..]) == [];
  }

  /** A line is read back as exactly its neutralised cells. */
  lemma {:induction false} LineReads(cells: seq<string>, rest: string)
    requires cells != []
    ensures ReadRecord(CsvLine(cells) + (CRLF + rest)) == Some(Record(NeutralisedCells(cells), rest))
    decreases |cells|
  {
    var tail := CRLF + rest;
    if |cells| == 1 {
      LastCellReads(cells[0], rest);
      OneCell(cells);
    } else {
      LineReads(cells[1..], rest);
      FirstCellReads(cells[0], CsvLine(cells[1..]) + tail, NeutralisedCells(cells[1..]), rest);
      Regroup(CsvCell(cells[0]), ",", CsvLine(cells[1..]), tail);
    }
  }

  /** The lines joined and ended by CRLF. */
  function Joined(lines: seq<string>): string {
    if lines == [] then "" else lines[0] + (CRLF + Joined(lines[1..]))
  }

  function Lines(records: seq<seq<string>>): (lines: seq<string>)
    ensures |lines| == |records|
  {
    if records == [] then [] else [CsvLine(records[0])] + Lines(records[1..])
  }

  /** What a reader sees for a record: its neutralised cells, a record with no cells as one empty cell. */
  function Seen(record: seq<string>): seq<string> {
    if record == [] then [""] else NeutralisedCells(record)
  }

  function SeenAll(records: seq<seq<string>>): (out: seq<seq<string>>)
    ensures |out| == |records|
  {
    if records == [] then [] else [Seen(records[0])] + SeenAll(records[1..])
  }

  lemma EmptyLineReads(rest: string)
    ensures ReadRecord("" + (CRLF + rest)) == Some(Record([""], rest))
  {
    var s := "" + (CRLF + rest);
    assert s == CRLF + rest && s[0] == '\r';
    assert s[2..] == rest;
  }

  /** A file of records reads back, record for record. */
  lemma {:induction false} FileReads(records: seq<seq<string>>)
    ensures ReadFile(Joined(Lines(records))) == Some(SeenAll(records))
  {
    if records != [] {
      FileReads(records[1..]);
      var rest := Joined(Lines(records[1..]));
      assert Lines(records)[1..] == Lines(records[1..]);
      assert Joined(Lines(records)) == CsvLine(records[0]) + (CRLF + rest);
      if records[0] == [] {
        EmptyLineReads(rest);
      } else {
        LineReads(records[0], rest);
      }
      assert Joined(Lines(records)) != "";
    }
  }

  function NeutralisedAll(records: seq<seq<string>>): (out: seq<seq<string>>)
    ensures |out| == |records|
  {
    if records == [] then [] else [NeutralisedCells(records[0])] + NeutralisedAll(records[1..])
  }

  predicate NoEmptyRecord(records: seq<seq<string>>) {
    forall i :: 0 <= i < |records| ==> records[i] != []
  }

  lemma {:induction false} SeenIsNeutralised(records: seq<seq<string>>)
    ensures SeenAll(records) == NeutralisedAll(records) <==> NoEmptyRecord(records)
  {
    if records != [] {
      SeenIsNeutralised(records[1..]);
      var a, b := SeenAll(records), NeutralisedAll(records);
      assert a[1..] == SeenAll(records[1..]) && b[1..] == NeutralisedAll(records[1..]);
      assert a == [a[0]] + a[1..] && b == [b[0]] + b[1..];
      assert NoEmptyRecord(records) <==> records[0] != [] && NoEmptyRecord(records[1..]) by {
        assert forall i :: 0 <= i < |records[1..]| ==> records[1..][i] == records[i + 1];
        if records[0] != [] && NoEmptyRecord(records[1..]) {
          forall i | 0 <= i < |records|
            ensures records[i] != []
          {
            if i > 0 {
              assert records[i] == records[1..][i - 1];
            }
          }
        }
      }
      assert records[0] == [] ==> a[0] != b[0];
    }
  }

  lemma {:induction false} SkipsToEnd(s: string)
    ensures SkipBlanks(s) == "" || !Blank(SkipBlanks(s)[0])
  {
    if s != "" && Blank(s[0]) {
      SkipsToEnd(s[1..]);
    }
  }

  /** No neutralised cell can be taken for a formula, and neutralising twice changes nothing more. */
  lemma NeutralisedIsSafe(s: string)
    ensures !Risky(Neutralised(s)) && Neutralised(Neutralised(s)) == Neutralised(s)
  {
  }

  // ---------------------------------------------------------------------------
  // The report
  // ---------------------------------------------------------------------------

  datatype Row = Row(key: string, value: string, unit: string)
  datatype Section = Section(id: string, rows: seq<Row>)
  datatype Table = Table(id: string, columns: seq<string>, rows: seq<seq<string>>)
  datatype Report = Report(fields: seq<(string, string)>, sections: seq<Section>, tables: seq<Table>)

  function FieldRecords(fields: seq<(string, string)>): seq<seq<string>> {
    if fields == [] then [] else [[fields[0].0, fields[0].1]] + FieldRecords(fields[1..])
  }

  function RowRecords(id: string, rows: seq<Row>): seq<seq<string>> {
    if rows == [] then [] else [[id, rows[0].key, rows[0].value, rows[0].unit]] + RowRecords(id, rows[1..])
  }

  function SectionRecords(sections: seq<Section>): seq<seq<string>> {
    if sections == [] then [] else RowRecords(sections[0].id, sections[0].rows) + SectionRecords(sections[1..])
  }

  /** A blank line, the table's title, its columns and its rows. */
  function TableBlock(table: Table): seq<seq<string>> {
    [[""], ["table", table.id], table.columns] + table.rows
  }

  function TableRecords(tables: seq<Table>): seq<seq<string>> {
    if tables == [] then [] else TableBlock(tables[0]) + TableRecords(tables[1..])
  }

  function Heading(report: Report): seq<seq<string>> {
    [["field", "value"]] + FieldRecords(report.fields)
    + [[""], ["section", "key", "value", "unit"]] + SectionRecords(report.sections)
  }

  /** The record sequence of a report; the blank separator lines are records of one empty cell. */
  function Records(report: Report): seq<seq<string>> {
    Heading(report) + TableRecords(report.tables)
  }

  lemma {:induction false} LinesAppend(a: seq<seq<string>>, b: seq<seq<string>>)
    ensures Lines(a + b) == Lines(a) + Lines(b)
  {
    if a == [] {
      assert a + b == b;
    } else {
      var line, more := a[0], a[1..];
      LinesAppend(more, b);
      LinesCons(line, more + b);
      FirstApart(a, b);
    }
  }

  lemma FirstApart(a: seq<seq<string>>, b: seq<seq<string>>)
    requires a != []
    ensures a + b == [a[0]] + (a[1..] + b)
  {
  }

  lemma LinesCons(line: seq<string>, rest: seq<seq<string>>)
    ensures Lines([line] + rest) == [CsvLine(line)] + Lines(rest)
  {
    assert ([line] + rest)[1..] == rest;
  }

  lemma BlankLine()
    ensures CsvLine([""]) == ""
  {
    assert !Risky("");
  }

  lemma NextTable(done: seq<seq<string>>, tables: seq<Table>, i: nat)
    requires i < |tables|
    ensures (done + TableBlock(tables[i])) + TableRecords(tables[i + 1..]) == done + TableRecords(tables[i..])
    ensures Lines(done + TableBlock(tables[i]))
      == Lines(done) + ["", CsvLine(["table", tables[i].id]), CsvLine(tables[i].columns)] + Lines(tables[i].rows)
  {
    NextBlock(done, TableBlock(tables[i]), TableRecords(tables[i + 1..]));
    assert tables[i..][1..] == tables[i + 1..];
    LinesAppend(done, TableBlock(tables[i]));
    BlockLines(tables[i]);
  }

  lemma NextBlock(done: seq<seq<string>>, block: seq<seq<string>>, rest: seq<seq<string>>)
    ensures (done + block) + rest == done + (block + rest)
  {
  }

  lemma BlockLines(table: Table)
    ensures Lines(TableBlock(table))
      == ["", CsvLine(["table", table.id]), CsvLine(table.columns)] + Lines(table.rows)
  {
    LinesAppend([[""], ["table", table.id], table.columns], table.rows);
    BlankLine();
    LinesOfThree([""], ["table", table.id], table.columns);
  }

  lemma LinesOfThree(a: seq<string>, b: seq<string>, c: seq<string>)
    ensures Lines([a, b, c]) == [CsvLine(a), CsvLine(b), CsvLine(c)]
  {
    assert [a, b, c][1..] == [b, c] && [b, c][1..] == [c] && [c][1..] == [];
    assert Lines([c]) == [CsvLine(c)];
    assert Lines([b, c]) == [CsvLine(b), CsvLine(c)];
  }

  /** The export: the heading lines, then lines pushed table by table, then all of them joined. */
  method ExportCsv(report: Report) returns (csv: string)
    ensures csv == Joined(Lines(Records(report)))
  {
    var lines := Lines(Heading(report));
    ghost var done := Heading(report);
    var i := 0;
    while i < |report.tables|
      invariant 0 <= i <= |report.tables|
      invariant lines == Lines(done)
      invariant done + TableRecords(report.tables[i..]) == Records(report)
    {
      var table := report.tables[i];
      NextTable(done, report.tables, i);
      lines := lines + ["", CsvLine(["table", table.id]), CsvLine(table.columns)] + Lines(table.rows);
      done := done + TableBlock(table);
      i := i + 1;
    }
    assert done + TableRecords(report.tables[i..]) == done;
    csv := Joined(lines);
  }

  /**
   * The whole export reads back to the report's own record sequence, neutralised, exactly when no
   * table has an empty column list or an empty row: an empty record comes back as one empty cell.
   */
  lemma ExportReadsBack(report: Report)
    ensures ReadFile(Joined(Lines(Records(report)))) == Some(NeutralisedAll(Records(report)))
      <==> NoEmptyRecord(Records(report))
  {
    FileReads(Records(report));
    SeenIsNeutralised(Records(report));
  }
}
