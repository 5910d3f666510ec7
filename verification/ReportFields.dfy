/**
 * What the amounts and cells of a report are: decimals by the worth of their digits in their places, and
 * cells by the characters they may start with (backoffice/src/server/reports.ts).
 */
module ReportFields {
  import opened Texts
  import opened Wrappers
  import N = ReportDecimals
  import Csv = ReportCsv

  // ---------------------------------------------------------------------------
  // Amounts
  // ---------------------------------------------------------------------------

  predicate Digits(s: string) {
    forall i :: 0 <= i < |s| ==> '0' <= s[i] <= '9'
  }

  function Power(n: nat): int {
    if n == 0 then 1 else 10 * Power(n - 1)
  }

  /** Each digit times the power of ten of its place. */
  function Worth(s: string): int {
    if s == "" then 0 else (s[0] as int - '0' as int) * Power(|s| - 1) + Worth(s[1..])
  }

  lemma TenTimes(d: int, n: nat)
    ensures d * Power(n + 1) == 10 * (d * Power(n))
  {
  }

  lemma {:induction false} OneMoreDigit(s: string, c: char)
    ensures Worth(s + [c]) == 10 * Worth(s) + (c as int - '0' as int)
  {
    if s == "" {
      assert s + [c] == [c] && [c][1..] == "";
    } else {
      var t := s + [c];
      assert t[1..] == s[1..] + [c] && t[0] == s[0];
      OneMoreDigit(s[1..], c);
      TenTimes(s[0] as int - '0' as int, |s| - 1);
    }
  }

  lemma {:induction false} NumbersAre(s: string)
    requires N.AllDigits(s)
    ensures N.NatOf(s) == Worth(s)
  {
    if s != "" {
      var front := s[..|s| - 1];
      NumbersAre(front);
      OneMoreDigit(front, s[|s| - 1]);
      assert front + [s[|s| - 1]] == s;
    }
  }

  lemma {:induction false} Joined(a: string, b: string)
    ensures Worth(a + b) == Worth(a) * Power(|b|) + Worth(b)
    decreases |b|
  {
    if b == "" {
      assert a + b == a;
    } else {
      var front, c := b[..|b| - 1], b[|b| - 1];
      Joined(a, front);
      OneMoreDigit(a + front, c);
      OneMoreDigit(front, c);
      assert a + b == (a + front) + [c] && b == front + [c];
      TenTimes(Worth(a), |front|);
    }
  }

  lemma {:induction false} ZerosAreNothing(n: nat)
    ensures Worth(Zeros(n)) == 0
  {
    if n > 0 {
      ZerosAreNothing(n - 1);
      assert Zeros(n)[1..] == Zeros(n - 1);
    }
  }

  /** Digits, then perhaps a point and at most `scale` digits more, worth `units` of the smallest unit. */
  predicate Denotes(value: string, whole: string, fraction: string, scale: nat, units: int) {
    && whole != "" && Digits(whole) && Digits(fraction) && |fraction| <= scale
    && value == whole + (if fraction == "" then "" else "." + fraction)
    && units == Worth(whole) * Power(scale) + Worth(fraction) * Power(scale - |fraction|)
  }

  lemma PaddedWorth(whole: string, fraction: string, scale: nat)
    requires N.AllDigits(whole) && N.AllDigits(fraction) && |fraction| <= scale
    ensures N.AllDigits(whole + N.PadEnd(fraction, scale))
    ensures N.NatOf(whole + N.PadEnd(fraction, scale))
      == Worth(whole) * Power(scale) + Worth(fraction) * Power(scale - |fraction|)
  {
    var padded := N.PadEnd(fraction, scale);
    N.PadEndDigits(fraction, scale);
    N.DigitsJoin(whole, padded);
    NumbersAre(whole + padded);
    Joined(whole, padded);
    assert padded == fraction + Zeros(scale - |fraction|);
    Joined(fraction, Zeros(scale - |fraction|));
    ZerosAreNothing(scale - |fraction|);
  }

  lemma SplitIs(value: string, whole: string, fraction: string)
    ensures N.Split(value) == Some(N.Amount(whole, fraction))
      <==> && whole != "" && Digits(whole) && Digits(fraction)
           && value == whole + if fraction == "" then "" else "." + fraction
  {
    if N.Split(value).Some? {
      var p := N.PointAt(value);
      assert p < |value| ==> value == value[..p] + ("." + value[p + 1..]);
      assert p == |value| ==> value == value[..p] + "";
    }
    if whole != "" && Digits(whole) && Digits(fraction) {
      N.SplitsWhole(whole);
      assert whole + "" == whole;
      if fraction != "" {
        N.SplitsAt(whole, fraction);
        assert whole + ("." + fraction) == whole + "." + fraction;
      }
    }
  }

  lemma ParsedDenotes(value: string, scale: nat) returns (whole: string, fraction: string)
    requires N.ParseDecimal(value, scale).Some?
    ensures Denotes(value, whole, fraction, scale, N.ParseDecimal(value, scale).value)
  {
    whole, fraction := N.Split(value).value.whole, N.Split(value).value.fraction;
    SplitIs(value, whole, fraction);
    PaddedWorth(whole, fraction, scale);
  }

  lemma DenotedParses(value: string, whole: string, fraction: string, scale: nat, units: int)
    requires Denotes(value, whole, fraction, scale, units)
    ensures N.ParseDecimal(value, scale) == Some(units)
  {
    SplitIs(value, whole, fraction);
    PaddedWorth(whole, fraction, scale);
  }

  /** parseDecimal accepts exactly the decimals of at most `scale` places, at their worth. */
  lemma ParsedWorth(value: string, scale: nat, units: int)
    ensures N.ParseDecimal(value, scale) == Some(units)
      <==> exists whole, fraction :: Denotes(value, whole, fraction, scale, units)
  {
    if N.ParseDecimal(value, scale) == Some(units) {
      var whole, fraction := ParsedDenotes(value, scale);
    }
    if whole, fraction :| Denotes(value, whole, fraction, scale, units) {
      DenotedParses(value, whole, fraction, scale, units);
    }
  }

  lemma FormatParts(units: nat, scale: nat) returns (whole: string, fraction: string)
    ensures whole != "" && N.AllDigits(whole) && N.AllDigits(fraction) && |fraction| == scale
    ensures N.AllDigits(whole + fraction) && N.NatOf(whole + fraction) == units
    ensures whole == "0" || whole[0] != '0'
    ensures N.FormatDecimal(units, scale) == whole + if fraction == "" then "" else "." + fraction
  {
    N.PaddedReads(units, scale + 1);
    var digits := N.PadStart(N.ToText(units), scale + 1);
    var p := |digits| - scale;
    N.DigitsCut(digits, scale);
    whole, fraction := digits[..p], digits[p..];
    N.DigitsJoin(whole, fraction);
    if p == 1 {
      assert whole == [digits[0]];
    }
    N.FormatPlacesPoint(units, whole, fraction);
  }

  /** formatDecimal prints a whole part with no leading zero and all the decimals of the scale, worth the units. */
  lemma FormattedWorth(units: nat, scale: nat) returns (whole: string, fraction: string)
    ensures Denotes(N.FormatDecimal(units, scale), whole, fraction, scale, units)
    ensures |fraction| == scale && (whole == "0" || whole[0] != '0')
  {
    whole, fraction := FormatParts(units, scale);
    NumbersAre(whole + fraction);
    Joined(whole, fraction);
    assert Power(0) == 1;
  }

  /** The decimals of each asset a report adds up. */
  lemma ScalesAre(asset: string, scale: nat)
    ensures N.ScaleOf(asset) == Some(scale) <==> (asset, scale) in {("RUB", 2), ("USDT", 6), ("TON", 9)}
  {
  }

  // ---------------------------------------------------------------------------
  // Exposures
  // ---------------------------------------------------------------------------

  /** The white space of a JavaScript pattern, character by character. */
  const BLANKS := {'\t', '\n', '\U{000B}', '\U{000C}', '\r', ' ', '\U{00A0}', '\U{1680}', '\U{2000}', '\U{2001}',
                   '\U{2002}', '\U{2003}', '\U{2004}', '\U{2005}', '\U{2006}', '\U{2007}', '\U{2008}', '\U{2009}',
                   '\U{200A}', '\U{2028}', '\U{2029}', '\U{202F}', '\U{205F}', '\U{3000}', '\U{FEFF}'}

  lemma BlanksAre(c: char)
    ensures Blank(c) <==> c in BLANKS
  {
  }

  /** What is left of a text without its white space. */
  function Visible(s: string): string {
    if s == "" then ""
    else Visible(s[..|s| - 1]) + if s[|s| - 1] in BLANKS then "" else [s[|s| - 1]]
  }

  lemma {:induction false} VisibleCons(c: char, s: string)
    ensures Visible([c] + s) == (if c in BLANKS then "" else [c]) + Visible(s)
    decreases |s|
  {
    if s == "" {
      assert [c] + s == [c] && [c][..0] == "";
    } else {
      var t := [c] + s;
      assert t[..|t| - 1] == [c] + s[..|s| - 1] && t[|t| - 1] == s[|s| - 1];
      VisibleCons(c, s[..|s| - 1]);
    }
  }

  lemma {:induction false} CompactIs(s: string)
    ensures N.Compact(s) == Visible(s)
  {
    if s != "" {
      CompactIs(s[1..]);
      VisibleCons(s[0], s[1..]);
      BlanksAre(s[0]);
      assert s == [s[0]] + s[1..];
    }
  }

  lemma ExposureCounted(exposure: string) returns (amount: string, whole: string, fraction: string)
    requires N.RoubleUnits(exposure).Some?
    ensures Visible(exposure) == amount + ['\U{20BD}']
    ensures Denotes(amount, whole, fraction, 2, N.RoubleUnits(exposure).value)
  {
    CompactIs(exposure);
    var v := Visible(exposure);
    amount := v[..|v| - 1];
    LastApart(v, '\U{20BD}');
    whole, fraction := ParsedDenotes(amount, 2);
  }

  lemma LastApart(s: string, c: char)
    requires s != "" && s[|s| - 1] == c
    ensures s == s[..|s| - 1] + [c]
  {
  }

  lemma ExposureCounts(exposure: string, amount: string, whole: string, fraction: string, units: int)
    requires Visible(exposure) == amount + ['\U{20BD}'] && Denotes(amount, whole, fraction, 2, units)
    ensures N.RoubleUnits(exposure) == Some(units)
  {
    CompactIs(exposure);
    DenotedParses(amount, whole, fraction, 2, units);
    var v := Visible(exposure);
    assert v[|v| - 1] == '\U{20BD}' && v[..|v| - 1] == amount;
  }

  /** An exposure counts when, white space apart, it is an amount of at most two decimals and the rouble sign. */
  lemma ExposureWorth(exposure: string, units: int)
    ensures N.RoubleUnits(exposure) == Some(units)
      <==> exists whole, fraction, amount ::
             Visible(exposure) == amount + ['\U{20BD}'] && Denotes(amount, whole, fraction, 2, units)
  {
    if N.RoubleUnits(exposure) == Some(units) {
      var amount, whole, fraction := ExposureCounted(exposure);
    }
    if whole, fraction, amount :|
      Visible(exposure) == amount + ['\U{20BD}'] && Denotes(amount, whole, fraction, 2, units) {
      ExposureCounts(exposure, amount, whole, fraction, units);
    }
  }

  // ---------------------------------------------------------------------------
  // Cells
  // ---------------------------------------------------------------------------

  /** White space, then a character a spreadsheet may take for the start of a formula. */
  predicate StartsFormula(s: string) {
    exists k :: 0 <= k < |s| && FormulaAt(s, k)
  }

  predicate FormulaAt(s: string, k: nat)
    requires k < |s|
  {
    && s[k] in {'=', '+', '-', '@', '\U{FF1D}', '\U{FF0B}', '\U{FF0D}', '\U{FF20}'}
    && forall i :: 0 <= i < k ==> s[i] in BLANKS
  }

  lemma {:induction false} FormulasAre(s: string)
    ensures Csv.SkipBlanks(s) != "" && Csv.FormulaStart(Csv.SkipBlanks(s)[0]) <==> StartsFormula(s)
  {
    if s != "" {
      BlanksAre(s[0]);
      if s[0] in BLANKS {
        FormulasAre(s[1..]);
        FormulaTail(s);
      } else {
        assert FormulaAt(s, 0) <==> Csv.FormulaStart(s[0]);
        assert forall k :: 0 < k < |s| ==> !FormulaAt(s, k);
      }
    }
  }

  lemma FormulaTail(s: string)
    requires s != "" && s[0] in BLANKS
    ensures StartsFormula(s) <==> StartsFormula(s[1..])
  {
    var t := s[1..];
    if StartsFormula(s) {
      var k :| 0 <= k < |s| && FormulaAt(s, k);
      assert t[k - 1] == s[k] && forall i :: 0 <= i < k - 1 ==> t[i] == s[i + 1];
      assert FormulaAt(t, k - 1);
    }
    if StartsFormula(t) {
      var k :| 0 <= k < |t| && FormulaAt(t, k);
      assert s[k + 1] == t[k] && forall i :: 0 < i < k + 1 ==> s[i] == t[i - 1];
      assert FormulaAt(s, k + 1);
    }
  }

  /**
   * A cell gets an apostrophe exactly when it starts a formula or starts with a tab or a line break, and is
   * otherwise the text it was; it is quoted exactly when it then holds a quote, a comma or a line break.
   */
  lemma CellInFields(s: string)
    ensures Csv.Neutralised(s)
      == if StartsFormula(s) || (s != "" && s[0] in {'\t', '\r', '\n'}) then "'" + s else s
    ensures var n := Csv.Neutralised(s);
      Csv.CsvCell(s) == n <==> forall i :: 0 <= i < |n| ==> n[i] !in {'\"', ',', '\r', '\n'}
  {
    FormulasAre(s);
    var n := Csv.Neutralised(s);
    if Csv.NeedsQuotes(n) {
      DoubledGrows(n);
      assert |Csv.CsvCell(s)| >= |n| + 2;
    }
  }

  lemma {:induction false} DoubledGrows(s: string)
    ensures |s| <= |Csv.Doubled(s)|
  {
    if s != "" {
      DoubledGrows(s[1..]);
    }
  }

  // ---------------------------------------------------------------------------
  // The exported records
  // ---------------------------------------------------------------------------

  function Concat(blocks: seq<seq<seq<string>>>): seq<seq<string>> {
    if blocks == [] then [] else blocks[0] + Concat(blocks[1..])
  }

  function FieldLines(fields: seq<(string, string)>): seq<seq<string>> {
    seq(|fields|, i requires 0 <= i < |fields| => [fields[i].0, fields[i].1])
  }

  function SectionLines(s: Csv.Section): seq<seq<string>> {
    seq(|s.rows|, i requires 0 <= i < |s.rows| => [s.id, s.rows[i].key, s.rows[i].value, s.rows[i].unit])
  }

  function TableLines(t: Csv.Table): seq<seq<string>> {
    [[""]] + ([["table", t.id]] + ([t.columns] + t.rows))
  }

  lemma {:induction false} FieldsAre(fields: seq<(string, string)>)
    ensures Csv.FieldRecords(fields) == FieldLines(fields)
  {
    if fields != [] {
      FieldsAre(fields[1..]);
      assert FieldLines(fields) == [[fields[0].0, fields[0].1]] + FieldLines(fields[1..]);
    }
  }

  lemma {:induction false} RowsAre(id: string, rows: seq<Csv.Row>)
    ensures Csv.RowRecords(id, rows) == SectionLines(Csv.Section(id, rows))
  {
    if rows != [] {
      RowsAre(id, rows[1..]);
      assert SectionLines(Csv.Section(id, rows))
          == [[id, rows[0].key, rows[0].value, rows[0].unit]] + SectionLines(Csv.Section(id, rows[1..]));
    }
  }

  function SectionBlocks(sections: seq<Csv.Section>): seq<seq<seq<string>>> {
    seq(|sections|, i requires 0 <= i < |sections| => SectionLines(sections[i]))
  }

  function TableBlocks(tables: seq<Csv.Table>): seq<seq<seq<string>>> {
    seq(|tables|, i requires 0 <= i < |tables| => TableLines(tables[i]))
  }

  lemma {:induction false} SectionsAre(sections: seq<Csv.Section>)
    ensures Csv.SectionRecords(sections) == Concat(SectionBlocks(sections))
  {
    if sections != [] {
      SectionsAre(sections[1..]);
      RowsAre(sections[0].id, sections[0].rows);
      assert SectionBlocks(sections)[1..] == SectionBlocks(sections[1..]);
    }
  }

  lemma {:induction false} TablesAre(tables: seq<Csv.Table>)
    ensures Csv.TableRecords(tables) == Concat(TableBlocks(tables))
  {
    if tables != [] {
      TablesAre(tables[1..]);
      assert TableBlocks(tables)[1..] == TableBlocks(tables[1..]);
      assert Csv.TableBlock(tables[0]) == TableLines(tables[0]);
    }
  }

  /**
   * The records of an export: the fields under their heading, a blank line, the rows of every section under
   * theirs, and each table with a blank line, its title and its columns above its rows.
   */
  lemma RecordsInFields(report: Csv.Report)
    ensures Csv.Records(report)
      == [["field", "value"]] + FieldLines(report.fields) + [[""], ["section", "key", "value", "unit"]]
         + Concat(SectionBlocks(report.sections)) + Concat(TableBlocks(report.tables))
  {
    FieldsAre(report.fields);
    SectionsAre(report.sections);
    TablesAre(report.tables);
  }
}
