/**
 * Decimal amounts of the draft reports: parsing to integer units, printing them, and the totals in
 * between (backoffice/src/server/reports.ts).
 */
module ReportDecimals {
  import opened Texts
  import opened Wrappers

  predicate Digit(c: char) {
    '0' <= c <= '9'
  }

  predicate AllDigits(s: string) {
    forall i :: 0 <= i < |s| ==> Digit(s[i])
  }

  function DigitValue(c: char): int {
    c as int - '0' as int
  }

  function DigitChar(n: int): char
    requires 0 <= n < 10
  {
    (n + '0' as int) as char
  }

  /** The number a digit string denotes. */
  function NatOf(s: string): int
    requires AllDigits(s)
  {
    if s == "" then 0 else NatOf(s[..|s| - 1]) * 10 + DigitValue(s[|s| - 1])
  }

  /** The decimal text of a number, as BigInt prints it. */
  function ToText(n: nat): string {
    if n < 10 then [DigitChar(n)] else ToText(n / 10) + [DigitChar(n % 10)]
  }

  function PadStart(s: string, width: nat): string {
    if width <= |s| then s else Zeros(width - |s|) + s
  }

  function PadEnd(s: string, width: nat): string {
    if width <= |s| then s else s + Zeros(width - |s|)
  }

  function Pow10(n: nat): int {
    if n == 0 then 1 else 10 * Pow10(n - 1)
  }

  /** The position of the first point, or the length. */
  function PointAt(s: string): (n: nat)
    ensures n <= |s| && (n < |s| ==> s[n] == '.')
    ensures forall i :: 0 <= i < n ==> s[i] != '.'
  {
    if s == "" || s[0] == '.' then 0 else 1 + PointAt(s[1..])
  }

  /** The parts of an amount the pattern accepts: digits, and digits after a point if there is one. */
  datatype Amount = Amount(whole: string, fraction: string)

  function Split(value: string): Option<Amount> {
    var p := PointAt(value);
    var whole := value[..p];
    if whole == "" || !AllDigits(whole) then None
    else if p == |value| then Some(Amount(whole, ""))
    else if p + 1 == |value| || !AllDigits(value[p + 1..]) then None
    else Some(Amount(whole, value[p + 1..]))
  }

  lemma SplitParts(value: string)
    ensures Split(value).Some? ==>
      var a := Split(value).value;
      a.whole != "" && AllDigits(a.whole) && AllDigits(a.fraction)
  {
  }

  /** parseDecimal: None where the source throws. */
  function ParseDecimal(value: string, scale: nat): Option<int> {
    SplitParts(value);
    var a := Split(value);
    if a.None? || scale < |a.value.fraction| then None
    else
      DigitsJoin(a.value.whole, PadEnd(a.value.fraction, scale));
      PadEndDigits(a.value.fraction, scale);
      Some(NatOf(a.value.whole + PadEnd(a.value.fraction, scale)))
  }

  /** formatDecimal, for the totals it accepts. */
  function FormatDecimal(units: nat, scale: nat): string {
    var digits := PadStart(ToText(units), scale + 1);
    PadStartLength(ToText(units), scale + 1);
    if scale == 0 then digits else digits[..|digits| - scale] + "." + digits[|digits| - scale..]
  }

  // ---------------------------------------------------------------------------
  // Digit strings
  // ---------------------------------------------------------------------------

  lemma DigitsJoin(a: string, b: string)
    ensures AllDigits(a) && AllDigits(b) <==> AllDigits(a + b)
  {
    if AllDigits(a + b) {
      forall i | 0 <= i < |a|
        ensures Digit(a[i])
      {
        assert (a + b)[i] == a[i];
      }
      forall i | 0 <= i < |b|
        ensures Digit(b[i])
      {
        assert (a + b)[|a| + i] == b[i];
      }
    }
  }

  lemma {:induction false} ZerosAreDigits(n: nat)
    ensures |Zeros(n)| == n && AllDigits(Zeros(n)) && NatOf(Zeros(n)) == 0
  {
    if n > 0 {
      ZerosAreDigits(n - 1);
      LeadingZero(Zeros(n - 1));
      assert Zeros(n) == "0" + Zeros(n - 1);
    }
  }

  lemma {:induction false} LeadingZero(s: string)
    requires AllDigits(s)
    ensures AllDigits("0" + s) && NatOf("0" + s) == NatOf(s)
  {
    DigitsJoin("0", s);
    if s == "" {
      assert "0" + s == "0" && "0"[..0] == "";
    } else {
      LeadingZero(s[..|s| - 1]);
      assert ("0" + s)[..|s|] == "0" + s[..|s| - 1];
    }
  }

  lemma {:induction false} LeadingZeros(n: nat, s: string)
    requires AllDigits(s)
    ensures AllDigits(Zeros(n) + s) && NatOf(Zeros(n) + s) == NatOf(s)
  {
    if n == 0 {
      assert Zeros(n) + s == s;
    } else {
      var t := Zeros(n - 1) + s;
      assert Zeros(n) + s == "0" + t;
      LeadingZeros(n - 1, s);
      LeadingZero(t);
    }
  }

  lemma PadStartLength(s: string, width: nat)
    ensures |PadStart(s, width)| == if width <= |s| then |s| else width
  {
    if |s| < width {
      ZerosAreDigits(width - |s|);
    }
  }

  lemma PadEndDigits(s: string, width: nat)
    requires AllDigits(s)
    ensures AllDigits(PadEnd(s, width)) && |PadEnd(s, width)| == if width <= |s| then |s| else width
  {
    if |s| < width {
      ZerosAreDigits(width - |s|);
      DigitsJoin(s, Zeros(width - |s|));
    }
  }

  lemma {:induction false} TextReads(n: nat)
    ensures ToText(n) != "" && AllDigits(ToText(n)) && NatOf(ToText(n)) == n
    ensures n > 0 ==> ToText(n)[0] != '0'
  {
    if n < 10 {
      assert [DigitChar(n)][..0] == "";
    } else {
      TextReads(n / 10);
      assert ToText(n)[..|ToText(n)| - 1] == ToText(n / 10);
    }
  }

  /** The digits printed for a total: enough of them, no superfluous zero, and the right value. */
  lemma PaddedReads(n: nat, width: nat)
    requires 1 <= width
    ensures var d := PadStart(ToText(n), width);
      AllDigits(d) && NatOf(d) == n && width <= |d| && (|d| == width || d[0] != '0')
  {
    TextReads(n);
    PadStartLength(ToText(n), width);
    if |ToText(n)| < width {
      LeadingZeros(width - |ToText(n)|, ToText(n));
    } else if n == 0 {
      assert |ToText(n)| == 1;
    }
  }

  lemma {:induction false} NatBounds(s: string)
    requires AllDigits(s)
    ensures 0 <= NatOf(s) < Pow10(|s|)
    ensures s != "" && s[0] != '0' ==> Pow10(|s| - 1) <= NatOf(s)
  {
    if s != "" {
      NatBounds(s[..|s| - 1]);
      if |s| == 1 {
        assert NatOf(s[..0]) == 0;
      }
    }
  }

  lemma {:induction false} PowGrows(a: nat, b: nat)
    requires a <= b
    ensures 0 < Pow10(a) <= Pow10(b)
  {
    if a < b {
      PowGrows(a, b - 1);
    } else if a > 0 {
      PowGrows(a - 1, a - 1);
    }
  }

  lemma LastDigit(n: int, x: int, m: int, y: int)
    requires n * 10 + x == m * 10 + y && 0 <= x < 10 && 0 <= y < 10
    ensures n == m && x == y
  {
  }

  lemma {:induction false} SameLengthSameDigits(a: string, b: string)
    requires AllDigits(a) && AllDigits(b) && |a| == |b| && NatOf(a) == NatOf(b)
    ensures a == b
  {
    if a != "" {
      var x, y := DigitValue(a[|a| - 1]), DigitValue(b[|b| - 1]);
      LastDigit(NatOf(a[..|a| - 1]), x, NatOf(b[..|b| - 1]), y);
      SameLengthSameDigits(a[..|a| - 1], b[..|b| - 1]);
      assert a == a[..|a| - 1] + [a[|a| - 1]] && b == b[..|b| - 1] + [b[|b| - 1]];
    }
  }

  /** A width is filled in one way only. */
  lemma TrimmedUnique(a: string, b: string, width: nat)
    requires AllDigits(a) && AllDigits(b) && NatOf(a) == NatOf(b)
    requires width <= |a| && (|a| == width || a[0] != '0')
    requires width <= |b| && (|b| == width || b[0] != '0')
    ensures a == b
  {
    NatBounds(a);
    NatBounds(b);
    if |a| < |b| {
      PowGrows(|a|, |b| - 1);
    } else if |b| < |a| {
      PowGrows(|b|, |a| - 1);
    } else {
      SameLengthSameDigits(a, b);
    }
  }

  // ---------------------------------------------------------------------------
  // Round trips
  // ---------------------------------------------------------------------------

  lemma {:induction false} NoPoint(s: string)
    requires AllDigits(s)
    ensures PointAt(s) == |s|
  {
  }

  lemma {:induction false} PointAfter(whole: string, fraction: string)
    requires AllDigits(whole)
    ensures PointAt(whole + "." + fraction) == |whole|
  {
    var s := whole + "." + fraction;
    var p := PointAt(s);
    assert s[|whole|] == '.';
    assert forall i :: 0 <= i < |whole| ==> s[i] == whole[i];
    assert p <= |whole|;
  }

  lemma SplitsAt(whole: string, fraction: string)
    requires whole != "" && AllDigits(whole) && fraction != "" && AllDigits(fraction)
    ensures Split(whole + "." + fraction) == Some(Amount(whole, fraction))
  {
    var s := whole + "." + fraction;
    PointAfter(whole, fraction);
    assert s[..|whole|] == whole && s[|whole| + 1..] == fraction;
  }

  lemma SplitsWhole(whole: string)
    requires whole != "" && AllDigits(whole)
    ensures Split(whole) == Some(Amount(whole, ""))
  {
    NoPoint(whole);
    assert whole[..|whole|] == whole;
  }

  lemma PointedParses(whole: string, fraction: string)
    requires whole != "" && fraction != "" && AllDigits(whole + fraction)
    ensures ParseDecimal(whole + "." + fraction, |fraction|) == Some(NatOf(whole + fraction))
  {
    DigitsJoin(whole, fraction);
    SplitsAt(whole, fraction);
    assert PadEnd(fraction, |fraction|) == fraction;
  }

  lemma DigitsCut(digits: string, scale: nat)
    requires scale < |digits|
    ensures digits[..|digits| - scale] + digits[|digits| - scale..] == digits && |digits[|digits| - scale..]| == scale
  {
  }

  /** Every printed total parses back to itself. */
  lemma FormatThenParse(units: nat, scale: nat)
    ensures ParseDecimal(FormatDecimal(units, scale), scale) == Some(units as int)
  {
    PaddedReads(units, scale + 1);
    var digits := PadStart(ToText(units), scale + 1);
    if scale == 0 {
      WholeParses(digits);
    } else {
      DigitsCut(digits, scale);
      PointedParses(digits[..|digits| - scale], digits[|digits| - scale..]);
    }
  }

  lemma WholeParses(digits: string)
    requires digits != "" && AllDigits(digits)
    ensures ParseDecimal(digits, 0) == Some(NatOf(digits))
  {
    SplitsWhole(digits);
    assert digits + PadEnd("", 0) == digits;
  }

  /** Leading zeros go while more digits are left than the least there must be. */
  function Strip(s: string, least: nat): string {
    if least < |s| && s[0] == '0' then Strip(s[1..], least) else s
  }

  lemma {:induction false} StripKeeps(s: string, least: nat)
    requires AllDigits(s) && 1 <= least <= |s|
    ensures var t := Strip(s, least);
      AllDigits(t) && NatOf(t) == NatOf(s) && least <= |t| && (|t| == least || t[0] != '0')
  {
    if least < |s| && s[0] == '0' {
      assert AllDigits(s[1..]);
      StripKeeps(s[1..], least);
      LeadingZero(s[1..]);
      assert s == "0" + s[1..];
    }
  }

  lemma {:induction false} StripJoin(whole: string, fraction: string)
    requires whole != ""
    ensures Strip(whole + fraction, |fraction| + 1) == Strip(whole, 1) + fraction
  {
    var s := whole + fraction;
    assert s[0] == whole[0];
    if 1 < |whole| && whole[0] == '0' {
      StripJoin(whole[1..], fraction);
      assert s[1..] == whole[1..] + fraction;
    }
  }

  /** The canonical form of an amount: no superfluous leading zero, the fraction filled to the scale. */
  function Canonical(a: Amount, scale: nat): string {
    Strip(a.whole, 1) + (if scale == 0 then "" else "." + PadEnd(a.fraction, scale))
  }

  /** Printing the number of a digit string gives the string back, stripped. */
  lemma PrintsStripped(all: string, least: nat)
    requires AllDigits(all) && 1 <= least <= |all|
    ensures 0 <= NatOf(all)
    ensures PadStart(ToText(NatOf(all)), least) == Strip(all, least)
  {
    NatBounds(all);
    PaddedReads(NatOf(all), least);
    StripKeeps(all, least);
    TrimmedUnique(PadStart(ToText(NatOf(all)), least), Strip(all, least), least);
  }

  /** The units of an amount, and how they print. */
  lemma PrintsOwnDigits(a: Amount, scale: nat)
    requires a.whole != "" && AllDigits(a.whole) && AllDigits(a.fraction) && |a.fraction| <= scale
    ensures var all := a.whole + PadEnd(a.fraction, scale);
      && AllDigits(all) && 0 <= NatOf(all) && |PadEnd(a.fraction, scale)| == scale
      && PadStart(ToText(NatOf(all)), scale + 1) == Strip(a.whole, 1) + PadEnd(a.fraction, scale)
  {
    var padded := PadEnd(a.fraction, scale);
    PadEndDigits(a.fraction, scale);
    PrintsJoined(a.whole, padded);
  }

  lemma PrintsJoined(whole: string, fraction: string)
    requires whole != "" && AllDigits(whole) && AllDigits(fraction)
    ensures AllDigits(whole + fraction) && 0 <= NatOf(whole + fraction)
    ensures PadStart(ToText(NatOf(whole + fraction)), |fraction| + 1) == Strip(whole, 1) + fraction
  {
    DigitsJoin(whole, fraction);
    PrintsStripped(whole + fraction, |fraction| + 1);
    StripJoin(whole, fraction);
  }

  lemma PointIn(whole: string, fraction: string)
    ensures var digits := whole + fraction;
      digits[..|digits| - |fraction|] == whole && digits[|digits| - |fraction|..] == fraction
  {
  }

  lemma PrintsCanonical(a: Amount, scale: nat)
    requires a.whole != "" && AllDigits(a.whole) && AllDigits(a.fraction) && |a.fraction| <= scale
    requires AllDigits(a.whole + PadEnd(a.fraction, scale))
    ensures 0 <= NatOf(a.whole + PadEnd(a.fraction, scale))
    ensures FormatDecimal(NatOf(a.whole + PadEnd(a.fraction, scale)), scale) == Canonical(a, scale)
  {
    PrintsOwnDigits(a, scale);
    FormatPlacesPoint(NatOf(a.whole + PadEnd(a.fraction, scale)), Strip(a.whole, 1), PadEnd(a.fraction, scale));
  }

  /** Printing what was parsed gives the amount's canonical form. */
  lemma ParseThenFormat(value: string, scale: nat)
    requires ParseDecimal(value, scale).Some?
    ensures 0 <= ParseDecimal(value, scale).value
    ensures FormatDecimal(ParseDecimal(value, scale).value, scale) == Canonical(Split(value).value, scale)
  {
    ParsedUnits(value, scale);
    PrintsCanonical(Split(value).value, scale);
  }

  lemma ParsedUnits(value: string, scale: nat)
    requires ParseDecimal(value, scale).Some?
    ensures Split(value).Some?
    ensures var a := Split(value).value;
      && a.whole != "" && AllDigits(a.whole) && AllDigits(a.fraction) && |a.fraction| <= scale
      && AllDigits(a.whole + PadEnd(a.fraction, scale))
      && ParseDecimal(value, scale).value == NatOf(a.whole + PadEnd(a.fraction, scale))
  {
    SplitParts(value);
    var a := Split(value).value;
    PadEndDigits(a.fraction, scale);
    DigitsJoin(a.whole, PadEnd(a.fraction, scale));
  }

  lemma FormatPlacesPoint(units: nat, whole: string, fraction: string)
    requires PadStart(ToText(units), |fraction| + 1) == whole + fraction
    ensures FormatDecimal(units, |fraction|) == whole + (if fraction == "" then "" else "." + fraction)
  {
    PointIn(whole, fraction);
    assert whole + "." + fraction == whole + ("." + fraction);
  }

  // ---------------------------------------------------------------------------
  // The totals of the alert report
  // ---------------------------------------------------------------------------

  const ROUBLE: char := '\U{20BD}'

  function Compact(s: string): string {
    if s == "" then "" else (if Blank(s[0]) then "" else [s[0]]) + Compact(s[1..])
  }

  /** rubExposureUnits: None for an exposure that is no rouble amount. */
  function RoubleUnits(exposure: string): Option<int> {
    var compact := Compact(exposure);
    if compact == "" || compact[|compact| - 1] != ROUBLE then None
    else ParseDecimal(compact[..|compact| - 1], 2)
  }

  function ScaleOf(asset: string): Option<nat> {
    if asset == "RUB" then Some(2) else if asset == "USDT" then Some(6) else if asset == "TON" then Some(9) else None
  }

  datatype Screening = Screening(asset: string, amount: string)

  function ExposureSum(exposures: seq<string>): int {
    if exposures == [] then 0
    else
      var last := RoubleUnits(exposures[|exposures| - 1]);
      ExposureSum(exposures[..|exposures| - 1]) + (if last.Some? then last.value else 0)
  }

  function Unmonetary(exposures: seq<string>): nat {
    if exposures == [] then 0
    else Unmonetary(exposures[..|exposures| - 1]) + (if RoubleUnits(exposures[|exposures| - 1]).None? then 1 else 0)
  }

  /** A screening reduced to its asset and its units, None where parsing throws. */
  datatype Line = Line(asset: string, units: Option<int>)

  function Priced(s: Screening): Line {
    Line(s.asset, if ScaleOf(s.asset).None? then None else ParseDecimal(s.amount, ScaleOf(s.asset).value))
  }

  function Lines(screenings: seq<Screening>): (lines: seq<Line>)
    ensures |lines| == |screenings|
    ensures forall i :: 0 <= i < |lines| ==> lines[i] == Priced(screenings[i])
  {
    seq(|screenings|, i requires 0 <= i < |screenings| => Priced(screenings[i]))
  }

  function AssetSum(lines: seq<Line>, asset: string): int {
    if lines == [] then 0
    else
      var last := lines[|lines| - 1];
      AssetSum(lines[..|lines| - 1], asset) + (if last.asset == asset && last.units.Some? then last.units.value else 0)
  }

  lemma ParsedNotNegative(value: string, scale: nat)
    ensures ParseDecimal(value, scale).Some? ==> 0 <= ParseDecimal(value, scale).value
  {
    if ParseDecimal(value, scale).Some? {
      ParseThenFormat(value, scale);
    }
  }

  /** The loop over the alerts' exposures: the rouble total, and how many carry no rouble amount. */
  method ExposureTotal(exposures: seq<string>) returns (openExposure: nat, nonMonetary: nat)
    ensures openExposure == ExposureSum(exposures) && nonMonetary == Unmonetary(exposures)
  {
    openExposure, nonMonetary := 0, 0;
    var i := 0;
    while i < |exposures|
      invariant 0 <= i <= |exposures|
      invariant openExposure == ExposureSum(exposures[..i]) && nonMonetary == Unmonetary(exposures[..i])
    {
      assert exposures[..i + 1][..i] == exposures[..i];
      var units := RoubleUnits(exposures[i]);
      if units.None? {
        nonMonetary := nonMonetary + 1;
      } else {
        ParsedNotNegative(Compact(exposures[i])[..|Compact(exposures[i])| - 1], 2);
        openExposure := openExposure + units.value;
      }
      i := i + 1;
    }
    assert exposures[..i] == exposures;
  }

  predicate Screened(lines: seq<Line>, asset: string) {
    exists i :: 0 <= i < |lines| && lines[i].asset == asset
  }

  predicate AllParse(lines: seq<Line>) {
    forall i :: 0 <= i < |lines| ==> lines[i].units.Some?
  }

  ghost predicate TotalAt(lines: seq<Line>, screened: map<string, nat>, asset: string) {
    && (asset in screened <==> Screened(lines, asset))
    && AssetSum(lines, asset) == if asset in screened then screened[asset] else 0
  }

  /** The totals so far: one per asset met, each the exact sum of its screenings. */
  ghost predicate TotalsOf(lines: seq<Line>, screened: map<string, nat>) {
    forall asset :: TotalAt(lines, screened, asset)
  }

  lemma OneMoreLine(before: seq<Line>, line: Line, asset: string)
    requires line.units.Some?
    ensures Screened(before + [line], asset) <==> line.asset == asset || Screened(before, asset)
    ensures AssetSum(before + [line], asset)
      == AssetSum(before, asset) + if line.asset == asset then line.units.value else 0
  {
    var after := before + [line];
    assert after[..|before|] == before && after[|before|] == line;
    if Screened(before, asset) {
      var i :| 0 <= i < |before| && before[i].asset == asset;
      assert after[i].asset == asset;
    }
  }

  function Added(screened: map<string, nat>, asset: string, units: nat): map<string, nat> {
    screened[asset := (if asset in screened then screened[asset] else 0) + units]
  }

  lemma OneMore(before: seq<Line>, line: Line, screened: map<string, nat>)
    requires TotalsOf(before, screened) && line.units.Some? && 0 <= line.units.value
    ensures TotalsOf(before + [line], Added(screened, line.asset, line.units.value))
  {
    forall asset
      ensures TotalAt(before + [line], Added(screened, line.asset, line.units.value), asset)
    {
      assert TotalAt(before, screened, asset);
      OneMoreLine(before, line, asset);
    }
  }

  /** The loop over the screenings: a total per asset, or a failure on the first that does not parse. */
  method ScreenedTotals(lines: seq<Line>) returns (screened: Option<map<string, nat>>)
    requires forall i :: 0 <= i < |lines| && lines[i].units.Some? ==> 0 <= lines[i].units.value
    ensures screened.Some? <==> AllParse(lines)
    ensures screened.Some? ==> TotalsOf(lines, screened.value)
  {
    var totals: map<string, nat> := map[];
    var j := 0;
    while j < |lines|
      invariant 0 <= j <= |lines|
      invariant AllParse(lines[..j])
      invariant TotalsOf(lines[..j], totals)
    {
      var line := lines[j];
      if line.units.None? {
        return None;
      }
      OneMore(lines[..j], line, totals);
      assert lines[..j + 1] == lines[..j] + [line];
      totals := totals[line.asset := (if line.asset in totals then totals[line.asset] else 0) + line.units.value];
      j := j + 1;
    }
    assert lines[..j] == lines;
    return Some(totals);
  }

  lemma UnitsNotNegative(screenings: seq<Screening>)
    ensures forall i :: 0 <= i < |screenings| && Lines(screenings)[i].units.Some? ==>
      0 <= Lines(screenings)[i].units.value
  {
    forall i | 0 <= i < |screenings| && Lines(screenings)[i].units.Some?
      ensures 0 <= Lines(screenings)[i].units.value
    {
      assert Lines(screenings)[i] == Priced(screenings[i]);
      ParsedNotNegative(screenings[i].amount, ScaleOf(screenings[i].asset).value);
    }
  }

  datatype Totals = Totals(openExposure: string, nonMonetary: nat, screened: map<string, string>)

  /** The asset has a printed total exactly if it was screened, and the total parses back to the exact sum. */
  ghost predicate PrintedAt(screenings: seq<Screening>, printed: map<string, string>, asset: string) {
    && (asset in printed <==> Screened(Lines(screenings), asset))
    && (asset in printed ==>
        ScaleOf(asset).Some?
        && ParseDecimal(printed[asset], ScaleOf(asset).value) == Some(AssetSum(Lines(screenings), asset)))
  }

  lemma ScreenedHasScale(screenings: seq<Screening>, asset: string)
    requires AllParse(Lines(screenings)) && Screened(Lines(screenings), asset)
    ensures ScaleOf(asset).Some?
  {
    var i :| 0 <= i < |screenings| && Lines(screenings)[i].asset == asset;
    assert Lines(screenings)[i] == Priced(screenings[i]);
  }

  /**
   * The totals of the alert report. The printed exposure and the printed amount of every screened
   * asset parse back to the exact sum of the amounts that went in; a screening that does not parse
   * makes the whole report fail.
   */
  method AlertTotals(exposures: seq<string>, screenings: seq<Screening>) returns (totals: Option<Totals>)
    ensures totals.Some? <==> AllParse(Lines(screenings))
    ensures totals.Some? ==>
      && ParseDecimal(totals.value.openExposure, 2) == Some(ExposureSum(exposures))
      && totals.value.nonMonetary == Unmonetary(exposures)
      && forall asset :: PrintedAt(screenings, totals.value.screened, asset)
  {
    var openExposure, nonMonetary := ExposureTotal(exposures);
    UnitsNotNegative(screenings);
    var screened := ScreenedTotals(Lines(screenings));
    if screened.None? {
      return None;
    }
    FormatThenParse(openExposure, 2);
    var printed := map asset | asset in screened.value && ScaleOf(asset).Some? ::
      FormatDecimal(screened.value[asset], ScaleOf(asset).value);
    forall asset
      ensures PrintedAt(screenings, printed, asset)
    {
      assert TotalAt(Lines(screenings), screened.value, asset);
      if asset in screened.value {
        ScreenedHasScale(screenings, asset);
        FormatThenParse(screened.value[asset], ScaleOf(asset).value);
      }
    }
    return Some(Totals(FormatDecimal(openExposure, 2), nonMonetary, printed));
  }
}
