/**
 * The ISO timestamps both ends of the contract accept (isIsoTimestamp in backoffice/src/data/operator.ts
 * and backoffice/src/server/customer-api-client.ts), the instants they denote, and the string order
 * the parsers compare them by.
 *
 * A text is accepted when it has the fixed 24-character form and prints the instant it parses to,
 * that is, when its calendar date and time of day exist. On a text of the right form whose date does
 * not exist the source rejects or throws, depending on the engine; both are "not accepted" here.
 */
module Timestamps {
  import opened ReportDecimals
  import opened Texts

  // ---------------------------------------------------------------------------
  // Numbers as texts
  // ---------------------------------------------------------------------------

  /** Digit strings of one length compare as the numbers they denote. */
  lemma {:induction false} DigitsCompareAsNumbers(a: string, b: string)
    requires AllDigits(a) && AllDigits(b) && |a| == |b|
    ensures Less(a, b) <==> NatOf(a) < NatOf(b)
    ensures a == b <==> NatOf(a) == NatOf(b)
    decreases |a|
  {
    if a != "" {
      var k := |a| - 1;
      LessInParts(a, b, k);
      DigitsCompareAsNumbers(a[..k], b[..k]);
      assert a == a[..k] + [a[k]] && b == b[..k] + [b[k]];
      assert a[k..] == [a[k]] && b[k..] == [b[k]];
      assert Less(a[k..], b[k..]) <==> a[k] < b[k];
    }
  }

  // ---------------------------------------------------------------------------
  // The form
  // ---------------------------------------------------------------------------

  datatype Fields = Fields(year: int, month: int, day: int, hour: int, minute: int, second: int, milli: int)

  predicate HasForm(s: string) {
    && |s| == 24
    && AllDigits(s[0..4]) && s[4] == '-' && AllDigits(s[5..7]) && s[7] == '-' && AllDigits(s[8..10]) && s[10] == 'T'
    && AllDigits(s[11..13]) && s[13] == ':' && AllDigits(s[14..16]) && s[16] == ':' && AllDigits(s[17..19])
    && s[19] == '.' && AllDigits(s[20..23]) && s[23] == 'Z'
  }

  function Read(s: string): Fields
    requires HasForm(s)
  {
    Fields(NatOf(s[0..4]), NatOf(s[5..7]), NatOf(s[8..10]), NatOf(s[11..13]), NatOf(s[14..16]), NatOf(s[17..19]),
           NatOf(s[20..23]))
  }

  predicate IsLeap(year: int) {
    year % 4 == 0 && (year % 100 != 0 || year % 400 == 0)
  }

  function DaysInMonth(year: int, month: int): int {
    if month == 2 then (if IsLeap(year) then 29 else 28)
    else if month == 4 || month == 6 || month == 9 || month == 11 then 30
    else 31
  }

  predicate Exists(f: Fields) {
    && 0 <= f.year && 1 <= f.month <= 12 && 1 <= f.day <= DaysInMonth(f.year, f.month)
    && 0 <= f.hour < 24 && 0 <= f.minute < 60 && 0 <= f.second < 60 && 0 <= f.milli < 1000
  }

  predicate IsIso(s: string) {
    HasForm(s) && Exists(Read(s))
  }

  /** The number two digits denote. */
  lemma TwoDigits(s: string)
    requires AllDigits(s) && |s| == 2
    ensures NatOf(s) == DigitValue(s[0]) * 10 + DigitValue(s[1])
  {
    assert s[..1][..0] == "" && NatOf(s[..1]) == DigitValue(s[0]);
  }

  // ---------------------------------------------------------------------------
  // The instant
  // ---------------------------------------------------------------------------

  /** Days from 1970-01-01 to the first of January, as ECMAScript's DayFromYear counts them. */
  function DaysToYear(year: int): int {
    365 * (year - 1970) + (year - 1969) / 4 - (year - 1901) / 100 + (year - 1601) / 400
  }

  function DaysToMonth(year: int, month: int): int
    requires 1 <= month
    decreases month
  {
    if month == 1 then 0 else DaysToMonth(year, month - 1) + DaysInMonth(year, month - 1)
  }

  function DayNumber(f: Fields): int
    requires Exists(f)
  {
    DaysToYear(f.year) + DaysToMonth(f.year, f.month) + f.day - 1
  }

  function TimeOfDay(f: Fields): int {
    f.hour * 3_600_000 + f.minute * 60_000 + f.second * 1_000 + f.milli
  }

  /** Date.parse, in milliseconds. */
  function Instant(s: string): int
    requires IsIso(s)
  {
    DayNumber(Read(s)) * 86_400_000 + TimeOfDay(Read(s))
  }

  lemma YearLength(year: int)
    ensures DaysToYear(year + 1) == DaysToYear(year) + (if IsLeap(year) then 366 else 365)
    ensures DaysToMonth(year, 13) == if IsLeap(year) then 366 else 365
  {
    FourYears(year);
    Centuries(year);
    assert DaysToMonth(year, 4) == DaysInMonth(year, 1) + DaysInMonth(year, 2) + DaysInMonth(year, 3);
    assert DaysToMonth(year, 7) == DaysToMonth(year, 4) + 91;
    assert DaysToMonth(year, 10) == DaysToMonth(year, 7) + 92;
    assert DaysToMonth(year, 13) == DaysToMonth(year, 10) + 92;
  }

  lemma FourYears(year: int)
    ensures (year - 1968) / 4 == (year - 1969) / 4 + (if year % 4 == 0 then 1 else 0)
  {
  }

  lemma Centuries(year: int)
    ensures (year - 1900) / 100 == (year - 1901) / 100 + (if year % 100 == 0 then 1 else 0)
    ensures (year - 1600) / 400 == (year - 1601) / 400 + (if year % 400 == 0 then 1 else 0)
  {
  }

  lemma {:induction false} YearsAscend(a: int, b: int)
    requires a < b
    ensures DaysToYear(a) + (if IsLeap(a) then 366 else 365) <= DaysToYear(b)
    decreases b - a
  {
    YearLength(a);
    if a + 1 < b {
      YearsAscend(a + 1, b);
    }
  }

  lemma {:induction false} MonthsAscend(year: int, a: int, b: int)
    requires 1 <= a < b
    ensures DaysToMonth(year, a) + DaysInMonth(year, a) <= DaysToMonth(year, b)
    decreases b
  {
    if a < b - 1 {
      MonthsAscend(year, a, b - 1);
    }
  }

  lemma DayInYear(f: Fields)
    requires Exists(f)
    ensures DaysToYear(f.year) <= DayNumber(f) < DaysToYear(f.year) + (if IsLeap(f.year) then 366 else 365)
  {
    YearLength(f.year);
    MonthsAscend(f.year, f.month, 13);
    if 1 < f.month {
      MonthsAscend(f.year, 1, f.month);
    }
  }

  predicate DateBefore(f: Fields, g: Fields) {
    f.year < g.year || (f.year == g.year && (f.month < g.month || (f.month == g.month && f.day < g.day)))
  }

  lemma DatesAscend(f: Fields, g: Fields)
    requires Exists(f) && Exists(g) && DateBefore(f, g)
    ensures DayNumber(f) < DayNumber(g)
  {
    DayInYear(f);
    DayInYear(g);
    if f.year < g.year {
      YearsAscend(f.year, g.year);
    } else if f.month < g.month {
      MonthsAscend(f.year, f.month, g.month);
    }
  }

  predicate TimeBefore(f: Fields, g: Fields) {
    || f.hour < g.hour
    || (f.hour == g.hour && (f.minute < g.minute
        || (f.minute == g.minute && (f.second < g.second || (f.second == g.second && f.milli < g.milli)))))
  }

  predicate Before(f: Fields, g: Fields) {
    || DateBefore(f, g)
    || (f.year == g.year && f.month == g.month && f.day == g.day && TimeBefore(f, g))
  }

  lemma FieldsAscend(f: Fields, g: Fields)
    requires Exists(f) && Exists(g) && Before(f, g)
    ensures DayNumber(f) * 86_400_000 + TimeOfDay(f) < DayNumber(g) * 86_400_000 + TimeOfDay(g)
  {
    assert 0 <= TimeOfDay(f) < 86_400_000 && 0 <= TimeOfDay(g) < 86_400_000;
    if DateBefore(f, g) {
      DatesAscend(f, g);
    } else {
      assert TimeOfDay(f) < TimeOfDay(g);
    }
  }

  // ---------------------------------------------------------------------------
  // Texts and instants
  // ---------------------------------------------------------------------------

  lemma NumberPart(a: string, b: string, at: nat, end: nat)
    requires |a| == |b| && at <= end <= |a|
    requires AllDigits(a[at..end]) && AllDigits(b[at..end])
    ensures Less(a[at..], b[at..]) <==>
      || NatOf(a[at..end]) < NatOf(b[at..end])
      || (NatOf(a[at..end]) == NatOf(b[at..end]) && Less(a[end..], b[end..]))
  {
    LessInParts(a[at..], b[at..], end - at);
    DigitsCompareAsNumbers(a[at..end], b[at..end]);
    assert a[at..][..end - at] == a[at..end] && b[at..][..end - at] == b[at..end];
    assert a[at..][end - at..] == a[end..] && b[at..][end - at..] == b[end..];
  }

  lemma MarkPart(a: string, b: string, at: nat)
    requires |a| == |b| && at < |a| && a[at] == b[at]
    ensures Less(a[at..], b[at..]) <==> Less(a[at + 1..], b[at + 1..])
  {
    assert a[at..][1..] == a[at + 1..] && b[at..][1..] == b[at + 1..];
  }

  lemma TextsFollowDates(a: string, b: string)
    requires HasForm(a) && HasForm(b)
    ensures Less(a, b) <==>
      || DateBefore(Read(a), Read(b))
      || (Read(a).year == Read(b).year && Read(a).month == Read(b).month && Read(a).day == Read(b).day
          && Less(a[11..], b[11..]))
  {
    assert a == a[0..] && b == b[0..];
    NumberPart(a, b, 0, 4);
    MarkPart(a, b, 4);
    NumberPart(a, b, 5, 7);
    MarkPart(a, b, 7);
    NumberPart(a, b, 8, 10);
    MarkPart(a, b, 10);
  }

  lemma TextsFollowTimes(a: string, b: string)
    requires HasForm(a) && HasForm(b)
    ensures Less(a[11..], b[11..]) <==> TimeBefore(Read(a), Read(b))
  {
    NumberPart(a, b, 11, 13);
    MarkPart(a, b, 13);
    NumberPart(a, b, 14, 16);
    MarkPart(a, b, 16);
    NumberPart(a, b, 17, 19);
    MarkPart(a, b, 19);
    NumberPart(a, b, 20, 23);
    MarkPart(a, b, 23);
    assert a[24..] == "" && b[24..] == "";
  }

  /**
   * Accepted timestamps compare as texts exactly as their instants do, and one instant has one text.
   */
  lemma OrderOfTextsIsOrderOfInstants(a: string, b: string)
    requires IsIso(a) && IsIso(b)
    ensures Less(a, b) <==> Instant(a) < Instant(b)
    ensures a == b <==> Instant(a) == Instant(b)
  {
    TextsFollowDates(a, b);
    TextsFollowTimes(a, b);
    TextsFollowDates(b, a);
    TextsFollowTimes(b, a);
    LessIsTotal(a, b);
    if Less(a, b) {
      FieldsAscend(Read(a), Read(b));
    } else if Less(b, a) {
      FieldsAscend(Read(b), Read(a));
    }
  }

  // ---------------------------------------------------------------------------
  // Positions on a page
  // ---------------------------------------------------------------------------

  /**
   * Where a row stands on a page: by its instant, rows of one instant by their reference. References of
   * one grammar share their prefix and length and go on in lower-case hex digits, on which
   * localeCompare and the code-unit order agree.
   */
  datatype Place = Place(at: int, id: string)

  predicate Earlier(a: Place, b: Place) {
    a.at < b.at || (a.at == b.at && Less(a.id, b.id))
  }

  lemma EarlierIsTransitive(a: Place, b: Place, c: Place)
    requires Earlier(a, b) && Earlier(b, c)
    ensures Earlier(a, c)
  {
    if a.at == b.at && b.at == c.at {
      LessIsTransitive(a.id, b.id, c.id);
    }
  }
}
