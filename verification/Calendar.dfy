/**
 * The instants of timestamps against the calendar itself: the length of each month, one day after another,
 * and the digits of a timestamp in their places (section 5.6 of RFC 3339).
 */
module Calendar {
  import opened ReportDecimals
  import opened Timestamps

  // ---------------------------------------------------------------------------
  // The digits in their places
  // ---------------------------------------------------------------------------

  /** The number the `n` characters at `at` denote. */
  function Number(s: string, at: nat, n: nat): int
    requires at + n <= |s|
  {
    if n == 0 then 0 else 10 * Number(s, at, n - 1) + (s[at + n - 1] as int - '0' as int)
  }

  predicate DigitsAt(s: string, at: nat, n: nat)
    requires at + n <= |s|
  {
    forall i :: at <= i < at + n ==> '0' <= s[i] <= '9'
  }

  lemma {:induction false} NumbersAre(s: string, at: nat, n: nat)
    requires at + n <= |s|
    ensures AllDigits(s[at..at + n]) <==> DigitsAt(s, at, n)
    ensures AllDigits(s[at..at + n]) ==> NatOf(s[at..at + n]) == Number(s, at, n)
  {
    var t := s[at..at + n];
    assert forall i :: at <= i < at + n ==> s[i] == t[i - at];
    if n > 0 {
      NumbersAre(s, at, n - 1);
      assert t[..n - 1] == s[at..at + n - 1];
    }
  }

  // ---------------------------------------------------------------------------
  // The calendar
  // ---------------------------------------------------------------------------

  const MONTH_LENGTHS := [31, 28, 31, 30, 31, 30, 31, 31, 30, 31, 30, 31]

  /** The last day of a month: February has one more in years four divides, but not a hundred unless four hundred. */
  function LastDay(year: int, month: int): int
    requires 1 <= month <= 12
  {
    if month == 2 && year % 4 == 0 && (year % 100 == 0 ==> year % 400 == 0) then 29 else MONTH_LENGTHS[month - 1]
  }

  lemma MonthLengthsAre(year: int, month: int)
    requires 1 <= month <= 12
    ensures DaysInMonth(year, month) == LastDay(year, month)
  {
    var t := MONTH_LENGTHS;
    assert t[0] == 31 && t[1] == 28 && t[2] == 31 && t[3] == 30 && t[4] == 31 && t[5] == 30 && t[6] == 31 && t[7] == 31
           && t[8] == 30 && t[9] == 31 && t[10] == 30 && t[11] == 31;
  }

  /**
   * The accepted timestamps: twenty-four characters, digits and separators in their places, a month of the
   * year, a day of that month, a time of the day.
   */
  lemma AcceptedInFields(s: string)
    ensures IsIso(s)
      <==> && |s| == 24
           && DigitsAt(s, 0, 4) && s[4] == '-' && DigitsAt(s, 5, 2) && s[7] == '-' && DigitsAt(s, 8, 2) && s[10] == 'T'
           && DigitsAt(s, 11, 2) && s[13] == ':' && DigitsAt(s, 14, 2) && s[16] == ':' && DigitsAt(s, 17, 2)
           && s[19] == '.' && DigitsAt(s, 20, 3) && s[23] == 'Z'
           && 1 <= Number(s, 5, 2) <= 12 && 1 <= Number(s, 8, 2) <= LastDay(Number(s, 0, 4), Number(s, 5, 2))
           && Number(s, 11, 2) <= 23 && Number(s, 14, 2) <= 59 && Number(s, 17, 2) <= 59
  {
    if |s| == 24 {
      FieldsAre(s);
      if 1 <= Number(s, 5, 2) <= 12 {
        MonthLengthsAre(Number(s, 0, 4), Number(s, 5, 2));
      }
      if HasForm(s) {
        InRange(s);
      }
    }
  }

  lemma FieldsAre(s: string)
    requires |s| == 24
    ensures HasForm(s)
      <==> && DigitsAt(s, 0, 4) && s[4] == '-' && DigitsAt(s, 5, 2) && s[7] == '-' && DigitsAt(s, 8, 2) && s[10] == 'T'
           && DigitsAt(s, 11, 2) && s[13] == ':' && DigitsAt(s, 14, 2) && s[16] == ':' && DigitsAt(s, 17, 2)
           && s[19] == '.' && DigitsAt(s, 20, 3) && s[23] == 'Z'
    ensures HasForm(s) ==>
      Read(s) == Fields(Number(s, 0, 4), Number(s, 5, 2), Number(s, 8, 2), Number(s, 11, 2), Number(s, 14, 2),
                        Number(s, 17, 2), Number(s, 20, 3))
  {
    NumbersAre(s, 0, 4);
    NumbersAre(s, 5, 2);
    NumbersAre(s, 8, 2);
    NumbersAre(s, 11, 2);
    NumbersAre(s, 14, 2);
    NumbersAre(s, 17, 2);
    NumbersAre(s, 20, 3);
  }

  lemma InRange(s: string)
    requires HasForm(s)
    ensures 0 <= Read(s).year && 0 <= Read(s).hour && 0 <= Read(s).minute && 0 <= Read(s).second
    ensures 0 <= Read(s).milli < 1000
  {
    NatBounds(s[0..4]);
    NatBounds(s[11..13]);
    NatBounds(s[14..16]);
    NatBounds(s[17..19]);
    NatBounds(s[20..23]);
    assert Pow10(3) == 1000;
  }

  /** The instant: the days before it, and the hours, minutes, seconds and milliseconds of its own. */
  lemma InstantInFields(s: string)
    requires IsIso(s)
    ensures |s| == 24 && Exists(Read(s))
    ensures Instant(s)
      == DayNumber(Read(s)) * 24 * 60 * 60 * 1000
         + ((Number(s, 11, 2) * 60 + Number(s, 14, 2)) * 60 + Number(s, 17, 2)) * 1000 + Number(s, 20, 3)
  {
    FieldsAre(s);
  }

  /** Days are counted from the first of January 1970. */
  lemma EpochIsZero(hour: int, minute: int, second: int, milli: int)
    requires Exists(Fields(1970, 1, 1, hour, minute, second, milli))
    ensures DayNumber(Fields(1970, 1, 1, hour, minute, second, milli)) == 0
  {
  }

  /** The date that follows a date in the calendar. */
  function NextDate(f: Fields): Fields
    requires 1 <= f.month <= 12
  {
    if f.day < LastDay(f.year, f.month) then f.(day := f.day + 1)
    else if f.month < 12 then f.(month := f.month + 1, day := 1)
    else f.(year := f.year + 1, month := 1, day := 1)
  }

  /** And each date of the calendar is numbered one more than the date before it. */
  lemma DaysSucceed(f: Fields)
    requires Exists(f)
    ensures Exists(NextDate(f)) && DayNumber(NextDate(f)) == DayNumber(f) + 1
  {
    MonthLengthsAre(f.year, f.month);
    if f.day == LastDay(f.year, f.month) {
      if f.month < 12 {
        MonthLengthsAre(f.year, f.month + 1);
      } else {
        YearLength(f.year);
        MonthLengthsAre(f.year + 1, 1);
      }
    }
  }
}
