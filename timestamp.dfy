/** The session expiration as the credentials file stores it: a timezone-aware
    time written with the strftime format "%Y-%m-%d %H:%M:%S%z" and read back
    with strptime using the same format. */
module Timestamp {
  import opened Wrappers

  /** A timezone-aware wall-clock time to the whole second, with its UTC
      offset in minutes (east of UTC is positive). */
  datatype DateTime = DateTime(
    year: int, month: int, day: int,
    hour: int, minute: int, second: int,
    offsetMinutes: int)

  predicate IsLeapYear(y: int) {
    y % 4 == 0 && (y % 100 != 0 || y % 400 == 0)
  }

  function DaysInMonth(y: int, m: int): (n: int)
    requires 1 <= m <= 12
    ensures 28 <= n <= 31
    ensures n == 29 <==> m == 2 && IsLeapYear(y)
  {
    if m == 2 then (if IsLeapYear(y) then 29 else 28)
    else if m == 4 || m == 6 || m == 9 || m == 11 then 30
    else 31
  }

  /** What the datetime and timezone constructors accept: years 1 to
      9999, real calendar days, and an offset strictly inside one day. */
  predicate Valid(t: DateTime) {
    && 1 <= t.year <= 9999
    && 1 <= t.month <= 12
    && 1 <= t.day <= DaysInMonth(t.year, t.month)
    && 0 <= t.hour < 24
    && 0 <= t.minute < 60
    && 0 <= t.second < 60
    && -1440 < t.offsetMinutes < 1440
  }

  type ValidDateTime = t: DateTime | Valid(t) witness DateTime(1970, 1, 1, 0, 0, 0, 0)

  // ---------------------------------------------------------------------
  // Instants: aware datetimes are compared by the UTC moment they denote.

  /** Days in the years before year y (the proleptic Gregorian calendar). */
  function DaysBeforeYear(y: int): int {
    var p := y - 1;
    p * 365 + p / 4 - p / 100 + p / 400
  }

  function DaysBeforeMonth(y: int, m: int): int
    requires 1 <= m <= 12
  {
    [0, 31, 59, 90, 120, 151, 181, 212, 243, 273, 304, 334][m - 1]
      + (if m > 2 && IsLeapYear(y) then 1 else 0)
  }

  /** Day number of the calendar date, 0001-01-01 being day 1. */
  function Ordinal(t: ValidDateTime): int {
    DaysBeforeYear(t.year) + DaysBeforeMonth(t.year, t.month) + t.day
  }

  /** Day number of 1970-01-01. */
  const UnixEpochOrdinal := 719163

  /** Microseconds since 1970-01-01 00:00:00 UTC of the moment t denotes. */
  function Instant(t: ValidDateTime): int {
    ((Ordinal(t) - UnixEpochOrdinal) * 86400
      + t.hour * 3600 + t.minute * 60 + t.second
      - t.offsetMinutes * 60) * 1000000
  }

  /** The epoch is instant 0, and one moment written with two different
      offsets is one instant. */
  lemma InstantExamples()
    ensures Instant(DateTime(1970, 1, 1, 0, 0, 0, 0)) == 0
    ensures Instant(DateTime(1970, 1, 1, 2, 0, 0, 120)) == 0
    ensures Instant(DateTime(1969, 12, 31, 23, 0, 0, -60)) == 0
  {
  }

  /** Moving the wall clock and the offset by the same number of minutes
      on one day names the same moment. */
  lemma InstantOffsetShift(t: ValidDateTime, u: ValidDateTime)
    requires u.year == t.year && u.month == t.month && u.day == t.day && u.second == t.second
    requires u.hour * 60 + u.minute - u.offsetMinutes == t.hour * 60 + t.minute - t.offsetMinutes
    ensures Instant(u) == Instant(t)
  {
  }

  /** t comes before u on the wall clock: year, month, day, hour, minute and
      second compared in that order. */
  predicate WallClockBefore(t: DateTime, u: DateTime) {
    || t.year < u.year
    || (t.year == u.year && t.month < u.month)
    || (t.year == u.year && t.month == u.month && t.day < u.day)
    || (t.year == u.year && t.month == u.month && t.day == u.day
        && t.hour * 3600 + t.minute * 60 + t.second < u.hour * 3600 + u.minute * 60 + u.second)
  }

  function DaysInYear(y: int): int {
    if IsLeapYear(y) then 366 else 365
  }

  /** Counting the multiples of k up to p + 1 instead of p adds one exactly
      when k divides y = p + 1. */
  lemma MultiplesStep(p: int, y: int)
    requires y == p + 1
    ensures y / 4 == p / 4 + (if y % 4 == 0 then 1 else 0)
    ensures y / 100 == p / 100 + (if y % 100 == 0 then 1 else 0)
    ensures y / 400 == p / 400 + (if y % 400 == 0 then 1 else 0)
  {
  }

  /** A multiple of 400 is a multiple of 100. */
  lemma Multiple400(y: int)
    requires y % 400 == 0
    ensures y % 100 == 0
  {
    var q := y / 400;
    assert y == 100 * (4 * q) + 0;
  }

  /** A multiple of 100 is a multiple of 4. */
  lemma Multiple100(y: int)
    requires y % 100 == 0
    ensures y % 4 == 0
  {
    var q := y / 100;
    assert y == 4 * (25 * q) + 0;
  }

  /** A year adds its own length to the days before it. */
  lemma DaysBeforeYearStep(y: int)
    ensures DaysBeforeYear(y + 1) == DaysBeforeYear(y) + DaysInYear(y)
  {
    var p := y - 1;
    MultiplesStep(p, y);
    if y % 400 == 0 {
      Multiple400(y);
    }
    if y % 100 == 0 {
      Multiple100(y);
    }
    var leap := (if y % 4 == 0 then 1 else 0) - (if y % 100 == 0 then 1 else 0) + (if y % 400 == 0 then 1 else 0);
    assert DaysBeforeYear(y + 1) == y * 365 + y / 4 - y / 100 + y / 400;
    assert DaysBeforeYear(y) == p * 365 + p / 4 - p / 100 + p / 400;
    assert DaysBeforeYear(y + 1) - DaysBeforeYear(y) == 365 + leap;
    assert leap == (if IsLeapYear(y) then 1 else 0);
  }

  /** A later year starts at least a year's length after an earlier one. */
  lemma {:induction false} DaysBeforeYearGrows(y: int, z: int)
    requires y < z
    ensures DaysBeforeYear(y) + DaysInYear(y) <= DaysBeforeYear(z)
    decreases z - y
  {
    DaysBeforeYearStep(y);
    if y + 1 < z {
      DaysBeforeYearGrows(y + 1, z);
    }
  }

  /** A month ends no later than the next month starts, or than the year
      ends. */
  lemma MonthEnds(y: int, m: int, n: int)
    requires 1 <= m <= 12 && 1 <= n <= 12
    ensures DaysBeforeMonth(y, m) + DaysInMonth(y, m) <= DaysInYear(y)
    ensures m < n ==> DaysBeforeMonth(y, m) + DaysInMonth(y, m) <= DaysBeforeMonth(y, n)
  {
  }

  /** An earlier calendar date has a smaller day number. */
  lemma OrdinalOrder(t: ValidDateTime, u: ValidDateTime)
    requires || t.year < u.year
             || (t.year == u.year && t.month < u.month)
             || (t.year == u.year && t.month == u.month && t.day < u.day)
    ensures Ordinal(t) < Ordinal(u)
  {
    MonthEnds(t.year, t.month, u.month);
    if t.year < u.year {
      DaysBeforeYearGrows(t.year, u.year);
    }
  }

  /** At one offset, the wall-clock order is the order of instants: a later
      expiration text names a later moment. */
  lemma InstantOrder(t: ValidDateTime, u: ValidDateTime)
    requires t.offsetMinutes == u.offsetMinutes && WallClockBefore(t, u)
    ensures Instant(t) < Instant(u)
  {
    if t.year != u.year || t.month != u.month || t.day != u.day {
      OrdinalOrder(t, u);
    }
  }

  // ---------------------------------------------------------------------
  // Formatting with "%Y-%m-%d %H:%M:%S%z".

  predicate IsDigit(c: char) {
    '0' <= c <= '9'
  }

  function DigitChar(d: int): char
    requires 0 <= d <= 9
  {
    (48 + d) as char
  }

  function DigitValue(c: char): int
    requires IsDigit(c)
  {
    c as int - 48
  }

  function Abs(n: int): nat {
    if n < 0 then -n else n
  }

  /** Position i of the output is the first digit of a two-digit field. */
  predicate IsTensPosition(i: int) {
    i == 0 || i == 2 || i == 5 || i == 8 || i == 11 || i == 14 || i == 17 || i == 20 || i == 22
  }

  /** The number written in the two-digit field that covers position i of
      the output: the century and the rest of the year, month, day, hour,
      minute, second, then the hours and minutes of the offset. */
  function FieldAt(t: ValidDateTime, i: int): (n: nat)
    ensures n < 100
  {
    var off := Abs(t.offsetMinutes);
    if i < 2 then t.year / 100
    else if i < 4 then t.year % 100
    else if i < 7 then t.month
    else if i < 10 then t.day
    else if i < 13 then t.hour
    else if i < 16 then t.minute
    else if i < 19 then t.second
    else if i < 22 then off / 60
    else off % 60
  }

  /** Character i of strftime("%Y-%m-%d %H:%M:%S%z"). */
  function FormatChar(t: ValidDateTime, i: int): char {
    if i == 4 || i == 7 then '-'
    else if i == 10 then ' '
    else if i == 13 || i == 16 then ':'
    else if i == 19 then (if t.offsetMinutes < 0 then '-' else '+')
    else if IsTensPosition(i) then DigitChar(FieldAt(t, i) / 10)
    else DigitChar(FieldAt(t, i) % 10)
  }

  /** strftime("%Y-%m-%d %H:%M:%S%z"): every field zero-padded, the offset
      as a sign followed by four digits HHMM, "+" for a zero offset. */
  function Format(t: ValidDateTime): (s: string)
    ensures |s| == 24
  {
    seq(24, i => FormatChar(t, i))
  }

  // ---------------------------------------------------------------------
  // Parsing with strptime and the same format.

  predicate DigitPair(s: string, i: nat)
    requires i + 2 <= |s|
  {
    IsDigit(s[i]) && IsDigit(s[i + 1])
  }

  /** The two-digit number at s[i], s[i + 1]. */
  function Number(s: string, i: nat): (n: nat)
    requires i + 2 <= |s| && DigitPair(s, i)
    ensures n < 100
  {
    10 * DigitValue(s[i]) + DigitValue(s[i + 1])
  }

  /** Twenty-four characters laid out as YYYY-MM-DD HH:MM:SS followed by a
      sign and HHMM, every field made of digits. */
  predicate Shaped(s: string) {
    && |s| == 24
    && s[4] == '-' && s[7] == '-' && s[10] == ' ' && s[13] == ':' && s[16] == ':'
    && (s[19] == '+' || s[19] == '-')
    && DigitPair(s, 0) && DigitPair(s, 2) && DigitPair(s, 5) && DigitPair(s, 8)
    && DigitPair(s, 11) && DigitPair(s, 14) && DigitPair(s, 17)
    && DigitPair(s, 20) && DigitPair(s, 22)
  }

  /** strptime(s, "%Y-%m-%d %H:%M:%S%z") for the fixed-width spelling that
      strftime writes. None stands for the ValueError strptime raises: a
      character out of place, trailing text, offset minutes of 60 or more,
      or a time the datetime constructor refuses (Valid). A "-0000" offset
      is read as UTC. */
  function Parse(s: string): (r: Option<ValidDateTime>)
    ensures r.Some? ==> Shaped(s)
  {
    if !Shaped(s) then None
    else
      var offset: int := Number(s, 20) * 60 + Number(s, 22);
      var t := DateTime(
        Number(s, 0) * 100 + Number(s, 2), Number(s, 5), Number(s, 8),
        Number(s, 11), Number(s, 14), Number(s, 17),
        if s[19] == '-' then -offset else offset);
      if Number(s, 22) < 60 && Valid(t) then Some(t) else None
  }

  /** The offset spelling strftime never writes but strptime accepts: "-0000". */
  predicate NegativeZeroOffset(s: string)
    requires |s| == 24
  {
    s[19] == '-' && s[20..] == "0000"
  }

  /** Two characters written as DigitChar(n / 10), DigitChar(n % 10) read
      back as n. */
  lemma NumberOf(s: string, i: nat, n: int)
    requires 0 <= n < 100 && i + 2 <= |s|
    requires s[i] == DigitChar(n / 10) && s[i + 1] == DigitChar(n % 10)
    ensures DigitPair(s, i) && Number(s, i) == n
  {
  }

  /** A digit pair is the two-digit spelling of the number it reads as. */
  lemma SpellingOf(s: string, i: nat)
    requires i + 2 <= |s| && DigitPair(s, i)
    ensures DigitChar(Number(s, i) / 10) == s[i] && DigitChar(Number(s, i) % 10) == s[i + 1]
  {
    var n := Number(s, i);
    assert n / 10 == DigitValue(s[i]) && n % 10 == DigitValue(s[i + 1]);
  }

  /** Formatting then parsing gives back the same time: the expiration the
      script writes is read back unchanged on the next run. */
  lemma ParseFormat(t: ValidDateTime)
    ensures Parse(Format(t)) == Some(t)
  {
    var s := Format(t);
    FieldsOfFormat(t);
    var off := Abs(t.offsetMinutes);
    assert t.year == Number(s, 0) * 100 + Number(s, 2);
    assert off == Number(s, 20) * 60 + Number(s, 22);
  }

  /** The text written for t is laid out as the parser expects, and each
      field reads back as the number formatted into it. */
  lemma FieldsOfFormat(t: ValidDateTime)
    ensures var s := Format(t);
      && Shaped(s) && s[19] == (if t.offsetMinutes < 0 then '-' else '+')
      && Number(s, 0) == t.year / 100 && Number(s, 2) == t.year % 100
      && Number(s, 5) == t.month && Number(s, 8) == t.day
      && Number(s, 11) == t.hour && Number(s, 14) == t.minute && Number(s, 17) == t.second
      && Number(s, 20) == Abs(t.offsetMinutes) / 60 && Number(s, 22) == Abs(t.offsetMinutes) % 60
  {
    var s := Format(t);
    var off := Abs(t.offsetMinutes);
    NumberOf(s, 0, t.year / 100);
    NumberOf(s, 2, t.year % 100);
    NumberOf(s, 5, t.month);
    NumberOf(s, 8, t.day);
    NumberOf(s, 11, t.hour);
    NumberOf(s, 14, t.minute);
    NumberOf(s, 17, t.second);
    NumberOf(s, 20, off / 60);
    NumberOf(s, 22, off % 60);
  }

  /** The fields of a parsed time are the numbers written in the string. */
  lemma FieldsOfParsed(s: string)
    requires Parse(s).Some?
    ensures var t := Parse(s).value;
      && FieldAt(t, 0) == Number(s, 0) && FieldAt(t, 2) == Number(s, 2)
      && FieldAt(t, 5) == Number(s, 5) && FieldAt(t, 8) == Number(s, 8)
      && FieldAt(t, 11) == Number(s, 11) && FieldAt(t, 14) == Number(s, 14)
      && FieldAt(t, 17) == Number(s, 17)
      && FieldAt(t, 20) == Number(s, 20) && FieldAt(t, 22) == Number(s, 22)
  {
    var t := Parse(s).value;
    var off := Number(s, 20) * 60 + Number(s, 22);
    assert t.year / 100 == Number(s, 0) && t.year % 100 == Number(s, 2);
    assert Abs(t.offsetMinutes) == off;
    assert off / 60 == Number(s, 20) && off % 60 == Number(s, 22);
  }

  /** Every character but the sign comes back as it was. */
  lemma FormatCharOfParsed(s: string, k: int)
    requires Parse(s).Some? && 0 <= k < 24 && k != 19
    ensures FormatChar(Parse(s).value, k) == s[k]
  {
    var t := Parse(s).value;
    FieldsOfParsed(s);
    if IsTensPosition(k) {
      SpellingOf(s, k);
    } else if k != 4 && k != 7 && k != 10 && k != 13 && k != 16 {
      assert IsTensPosition(k - 1) && FieldAt(t, k) == FieldAt(t, k - 1);
      SpellingOf(s, k - 1);
    }
  }

  /** The parser accepts exactly the strings the formatter writes, except
      that a "-0000" offset is formatted back as "+0000". */
  lemma FormatParse(s: string)
    requires Parse(s).Some?
    ensures NegativeZeroOffset(s) ==> Format(Parse(s).value) == s[..19] + "+0000"
    ensures !NegativeZeroOffset(s) ==> Format(Parse(s).value) == s
  {
    var t := Parse(s).value;
    var u := Format(t);
    forall k | 0 <= k < 24 && k != 19
      ensures u[k] == s[k]
    {
      FormatCharOfParsed(s, k);
    }
    var off := Number(s, 20) * 60 + Number(s, 22);
    assert Abs(t.offsetMinutes) == off;
    if off == 0 {
      assert u[19] == '+';
      if s[19] == '-' {
        assert s[20..] == "0000";
        assert u == s[..19] + "+0000";
      } else {
        assert u == s;
      }
    } else {
      assert u[19] == s[19];
      assert u == s;
    }
  }
}
