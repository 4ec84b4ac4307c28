/** System.DateTime in the proleptic Gregorian calendar with the invariant
    culture: the custom formats "yyyyMMdd", "yyyyMM" and "HHmmss", Year.ToString()
    and DateTime.ParseExact for the two fixed stamp formats. */
module Calendar {
  import opened Outcomes
  import opened Text

  /** 100-nanosecond ticks in one second. */
  const TicksPerSecond: int := 10_000_000

  datatype Moment = Moment(year: int, month: int, day: int,
                           hour: int, minute: int, second: int, ticks: int)

  predicate IsLeapYear(year: int) {
    year % 4 == 0 && (year % 100 != 0 || year % 400 == 0)
  }

  function DaysInMonth(year: int, month: int): int
    requires 1 <= month <= 12
  {
    if month == 2 then (if IsLeapYear(year) then 29 else 28)
    else if month == 4 || month == 6 || month == 9 || month == 11 then 30
    else 31
  }

  /** A calendar date in 0001-01-01 .. 9999-12-31: every day up to the 28th
      of a month exists, and the 29th of February only in a leap year. */
  predicate IsValidDate(year: int, month: int, day: int)
    ensures 1 <= year <= 9999 && 1 <= month <= 12 && 1 <= day <= 28 ==> IsValidDate(year, month, day)
    ensures IsValidDate(year, month, day) ==> 1 <= day <= 31
    ensures IsValidDate(year, month, day) && month == 2 && day == 29 ==> IsLeapYear(year)
  {
    1 <= year <= 9999 && 1 <= month <= 12 && 1 <= day <= DaysInMonth(year, month)
  }

  predicate IsValidTime(hour: int, minute: int, second: int) {
    0 <= hour < 24 && 0 <= minute < 60 && 0 <= second < 60
  }

  /** A DateTime: a calendar date, a time of day within the day's 86400
      seconds, and the ticks below one second. */
  predicate IsValid(m: Moment)
    ensures IsValid(m) ==> 0 <= m.hour * 3600 + m.minute * 60 + m.second < 86400
  {
    && IsValidDate(m.year, m.month, m.day)
    && IsValidTime(m.hour, m.minute, m.second)
    && 0 <= m.ticks < TicksPerSecond
  }

  /** A DateTime value always holds a calendar date and a time of day;
      `ticks` is the part below one second. */
  type DateTime = m: Moment | IsValid(m) witness Moment(1, 1, 1, 0, 0, 0, 0)

  /** DateTime.Date: the same day at midnight. */
  function DateOf(d: DateTime): DateTime {
    Moment(d.year, d.month, d.day, 0, 0, 0, 0)
  }

  /** The same moment with everything below one second dropped. */
  function ToSecond(d: DateTime): DateTime {
    d.(ticks := 0)
  }

  // ---------------------------------------------------------------------
  // DateTime.ToString(format) with the invariant culture

  /** ToString("yyyyMMdd"): eight digits, the year in the first four, the
      month in the next two, the day in the last two. */
  function FormatYearMonthDay(d: DateTime): (r: string)
    ensures |r| == 8 && IsDigits(r)
    ensures DigitsValue(r[..4]) == d.year && DigitsValue(r[4..6]) == d.month && DigitsValue(r[6..]) == d.day
  {
    var r := ZeroPadded(d.year, 4) + ZeroPadded(d.month, 2) + ZeroPadded(d.day, 2);
    assert r[..4] == ZeroPadded(d.year, 4) && r[4..6] == ZeroPadded(d.month, 2) && r[6..] == ZeroPadded(d.day, 2);
    r
  }

  /** ToString("yyyyMM"): the first six characters of "yyyyMMdd". */
  function FormatYearMonth(d: DateTime): (r: string)
    ensures |r| == 6 && IsDigits(r)
    ensures r == FormatYearMonthDay(d)[..6]
    ensures DigitsValue(r[..4]) == d.year && DigitsValue(r[4..]) == d.month
  {
    var r := ZeroPadded(d.year, 4) + ZeroPadded(d.month, 2);
    assert r[..4] == ZeroPadded(d.year, 4) && r[4..] == ZeroPadded(d.month, 2);
    assert r == FormatYearMonthDay(d)[..6];
    r
  }

  /** ToString("HHmmss"): the 24-hour clock, zero-padded, six digits. */
  function FormatHourMinuteSecond(d: DateTime): (r: string)
    ensures |r| == 6 && IsDigits(r)
    ensures DigitsValue(r[..2]) == d.hour && DigitsValue(r[2..4]) == d.minute && DigitsValue(r[4..]) == d.second
  {
    var r := ZeroPadded(d.hour, 2) + ZeroPadded(d.minute, 2) + ZeroPadded(d.second, 2);
    assert r[..2] == ZeroPadded(d.hour, 2) && r[2..4] == ZeroPadded(d.minute, 2) && r[4..] == ZeroPadded(d.second, 2);
    r
  }

  /** Year.ToString(): the year without padding, so from one to four digits
      with no leading zero. */
  function FormatYear(d: DateTime): (r: string)
    ensures IsDigits(r) && r[0] != '0'
    ensures DigitsValue(r) == d.year
  {
    NatToString(d.year)
  }

  // ---------------------------------------------------------------------
  // DateTime.ParseExact with the invariant culture

  predicate AllDigits(s: string) {
    forall i :: 0 <= i < |s| ==> IsDigit(s[i])
  }

  /** ParseExact(s, "yyyyMMdd"): exactly eight digits naming a calendar day,
      which is returned at midnight; FormatException otherwise. */
  function ParseYearMonthDay(s: string): (r: Result<DateTime, Error>)
    ensures r.Success? <==>
      |s| == 8 && AllDigits(s) &&
      IsValidDate(DigitsValue(s[..4]), DigitsValue(s[4..6]), DigitsValue(s[6..]))
    ensures r.Success? ==>
      r.value == Moment(DigitsValue(s[..4]), DigitsValue(s[4..6]), DigitsValue(s[6..]), 0, 0, 0, 0)
    ensures r.Failure? ==> r.error == FormatError
  {
    if |s| == 8 && AllDigits(s) then
      var year, month, day := DigitsValue(s[..4]), DigitsValue(s[4..6]), DigitsValue(s[6..]);
      if IsValidDate(year, month, day) then Success(Moment(year, month, day, 0, 0, 0, 0))
      else Failure(FormatError)
    else Failure(FormatError)
  }

  /** ParseExact(s, "yyyyMMdd" + sep + "HHmmss") for a separator that is a
      literal in a custom format string: eight digits naming a day, the
      separator, six digits naming a time of day; FormatException otherwise. */
  function ParseYearMonthDayTime(s: string, sep: char): (r: Result<DateTime, Error>)
    requires IsFormatLiteral(sep)
    ensures r.Success? <==>
      |s| == 15 && s[8] == sep && (forall i :: 0 <= i < 15 && i != 8 ==> IsDigit(s[i])) &&
      IsValidDate(DigitsValue(s[..4]), DigitsValue(s[4..6]), DigitsValue(s[6..8])) &&
      IsValidTime(DigitsValue(s[9..11]), DigitsValue(s[11..13]), DigitsValue(s[13..]))
    ensures r.Success? ==>
      r.value == Moment(DigitsValue(s[..4]), DigitsValue(s[4..6]), DigitsValue(s[6..8]),
                        DigitsValue(s[9..11]), DigitsValue(s[11..13]), DigitsValue(s[13..]), 0)
    ensures r.Failure? ==> r.error == FormatError
  {
    if |s| == 15 && s[8] == sep && (forall i :: 0 <= i < 15 && i != 8 ==> IsDigit(s[i])) then
      assert s[..8][..4] == s[..4] && s[..8][4..6] == s[4..6] && s[..8][6..] == s[6..8];
      match ParseYearMonthDay(s[..8])
      case Failure(e) => Failure(e)
      case Success(date) =>
        var hour, minute, second := DigitsValue(s[9..11]), DigitsValue(s[11..13]), DigitsValue(s[13..]);
        if IsValidTime(hour, minute, second) then
          Success(Moment(date.year, date.month, date.day, hour, minute, second, 0))
        else Failure(FormatError)
    else Failure(FormatError)
  }

  /** A character that a custom DateTime format string takes literally: not a
      format specifier, not a quote or escape, and not white space. */
  predicate IsFormatLiteral(c: char) {
    && c !in {'d', 'f', 'F', 'g', 'h', 'H', 'K', 'm', 'M', 's', 't', 'y', 'z', '%', '"', '\'', '\\'}
    && !IsNumberWhite(c)
  }

  // ---------------------------------------------------------------------
  // Format and parse are inverse

  /** "yyyyMMdd" is read back as the day it was written from, at midnight. */
  lemma {:induction false} ParseFormatYearMonthDay(d: DateTime)
    ensures ParseYearMonthDay(FormatYearMonthDay(d)) == Success(DateOf(d))
  {
    var s := FormatYearMonthDay(d);
    assert s[..4] == ZeroPadded(d.year, 4);
    assert s[4..6] == ZeroPadded(d.month, 2);
    assert s[6..] == ZeroPadded(d.day, 2);
  }

  /** "yyyyMMdd" + sep + "HHmmss" is read back as the moment it was written
      from, to the second. */
  lemma {:induction false} ParseFormatYearMonthDayTime(d: DateTime, sep: char)
    requires IsFormatLiteral(sep)
    ensures ParseYearMonthDayTime(FormatYearMonthDay(d) + [sep] + FormatHourMinuteSecond(d), sep)
         == Success(ToSecond(d))
  {
    var date := FormatYearMonthDay(d);
    var time := FormatHourMinuteSecond(d);
    var s := date + [sep] + time;
    assert s[..8] == date;
    assert s[9..] == time;
    assert s[9..11] == ZeroPadded(d.hour, 2);
    assert s[11..13] == ZeroPadded(d.minute, 2);
    assert s[13..] == ZeroPadded(d.second, 2);
    ParseFormatYearMonthDay(d);
  }

  /** ParseExact rejects a month outside 1..12, such as "20201301". */
  lemma {:induction false} RejectsThirteenthMonth()
    ensures ParseYearMonthDay("20201301") == Failure(FormatError)
  {
    assert DigitsValue("20201301"[4..6]) == 13 by {
      assert "20201301"[4..6] == "13";
    }
  }

  /** ParseExact rejects the 29th of February outside leap years. */
  lemma {:induction false} RejectsTwentyNinthFebruary()
    ensures ParseYearMonthDay("21000229") == Failure(FormatError)
    ensures ParseYearMonthDay("20000229").Success?
  {
    var bad, good := "21000229", "20000229";
    FourDigitsValue(bad[..4]);
    FourDigitsValue(good[..4]);
    TwoDigitsValue(bad[4..6]);
    TwoDigitsValue(bad[6..]);
    TwoDigitsValue(good[4..6]);
    TwoDigitsValue(good[6..]);
  }

  lemma {:induction false} TwoDigitsValue(s: string)
    requires |s| == 2 && AllDigits(s)
    ensures DigitsValue(s) == 10 * DigitValue(s[0]) + DigitValue(s[1])
  {
    var head := s[..1];
    assert s[..|s| - 1] == head;
    assert head[..|head| - 1] == [];
    assert DigitsValue(head) == DigitValue(s[0]);
  }

  lemma {:induction false} FourDigitsValue(s: string)
    requires |s| == 4 && AllDigits(s)
    ensures DigitsValue(s) ==
      1000 * DigitValue(s[0]) + 100 * DigitValue(s[1]) + 10 * DigitValue(s[2]) + DigitValue(s[3])
  {
    assert s[..3][..2] == s[..2];
    TwoDigitsValue(s[..2]);
  }
}
