/** DateTimeStampedFileName: a file name stamped with a date and a time of
    day written "yyyyMMdd" S "HHmmss", as in FileName_20200101_011530.ext or
    FileName.ext.20200101_011530, and read back by a search for
    `\d{8}S\d{6}(S[0-9]+)?`. */
module DateTimeStamped {
  import opened Outcomes
  import opened Text
  import opened Paths
  import opened Calendar
  import opened StampRegex
  import opened StampedBase

  /** DateStamp: the stamp value's date written "yyyyMMdd"; ParseExact reads
      it back as the same day. */
  function DateStamp(dateTime: DateTime): (s: string)
    ensures IsEightDigits(s)
    ensures ParseYearMonthDay(s) == Success(DateOf(dateTime))
  {
    ParseFormatYearMonthDay(dateTime);
    FormatYearMonthDay(dateTime)
  }

  /** TimeStamp: the stamp value's time of day written "HHmmss". */
  function TimeStamp(dateTime: DateTime): (s: string)
    ensures |s| == 6 && IsDigits(s)
  {
    FormatHourMinuteSecond(dateTime)
  }

  /** FormatStampValue(): DateStamp, the separator, then TimeStamp. It has
      the shape `\d{8}S\d{6}`. */
  function StampValue(dateTime: DateTime, separator: char): (s: string)
    ensures IsDateTimeDigits(s, separator)
  {
    DateTimeTextShape(DateStamp(dateTime), separator, TimeStamp(dateTime));
    DateStamp(dateTime) + [separator] + TimeStamp(dateTime)
  }

  /** Eight digits, the separator and six digits have the shape
      `\d{8}S\d{6}`. */
  lemma {:induction false} DateTimeTextShape(date: string, separator: char, time: string)
    requires IsEightDigits(date) && |time| == 6 && IsDigits(time)
    ensures IsDateTimeDigits(date + [separator] + time, separator)
  {
    var s := date + [separator] + time;
    forall i | 0 <= i < 15 && i != 8
      ensures IsDigit(s[i])
    {
      if i < 8 {
        assert s[i] == date[i];
      } else {
        assert s[i] == time[i - 9];
      }
    }
  }

  /** ParseExact reads the stamp value back as the moment it was written
      from, to the second. */
  lemma {:induction false} StampValueParses(dateTime: DateTime, separator: char)
    requires IsFormatLiteral(separator)
    ensures ParseYearMonthDayTime(StampValue(dateTime, separator), separator) == Success(ToSecond(dateTime))
  {
    ParseFormatYearMonthDayTime(dateTime, separator);
  }

  /** The pattern Parse searches for: `\d{8}S\d{6}(S[0-9]+)?`. */
  function PatternFor(separator: char): StampPattern {
    StampPattern(DateTimeCore, separator)
  }

  /** The constructor with an explicit date and time. */
  method New(fileName: string, dateTime: DateTime, separator: char, extension: bool, counter: int)
    returns (r: Result<StampedFileNameBase<DateTime>, Error>)
    requires IsInt32(counter)
    ensures r.Failure? <==> IsBlank(fileName)
    ensures r.Failure? ==> r.error == ArgumentError
    ensures r.Success? ==>
      && fresh(r.value) && r.value.Valid()
      && r.value.State() == Fields(fileName, dateTime, separator, extension, ClampCounter(counter))
      && r.value.formatStampValue == StampValue
  {
    r := StampedBase.New(fileName, dateTime, separator, extension, counter, StampValue);
  }

  /** Deconstruct(out filename, out dateTime, out dateStamp, out timeStamp,
      out counter): the two stamps read back, around the separator, as the
      stamp value to the second. */
  method Deconstruct(o: StampedFileNameBase<DateTime>)
    returns (fileName: string, dateTime: DateTime, dateStamp: string, timeStamp: string, counter: int)
    ensures fileName == o.fileName && dateTime == o.stampValue && counter == o.counter
    ensures IsEightDigits(dateStamp) && ParseYearMonthDay(dateStamp) == Success(DateOf(o.stampValue))
    ensures |timeStamp| == 6 && IsDigits(timeStamp)
    ensures dateStamp + [o.separator] + timeStamp == StampValue(o.stampValue, o.separator)
    ensures IsFormatLiteral(o.separator) ==>
      ParseYearMonthDayTime(dateStamp + [o.separator] + timeStamp, o.separator) == Success(ToSecond(o.stampValue))
  {
    fileName, dateTime, counter := o.fileName, o.stampValue, o.counter;
    dateStamp := DateStamp(o.stampValue);
    timeStamp := TimeStamp(o.stampValue);
    if IsFormatLiteral(o.separator) {
      StampValueParses(o.stampValue, o.separator);
    }
  }

  /** What Parse does with ParseHelper's result: IndexOutOfRangeException
      without a second piece, FormatException when the first two pieces
      joined by the separator are no moment, then Convert.ToInt32's errors
      for a third piece, which is the counter when there are exactly three
      pieces; the unstamped name is put back into the path's directory, and
      the constructor rejects it if blank. */
  function FromPieces(directory: string, separator: char, p: Parsed): (r: Result<Fields<DateTime>, Error>)
    requires IsFormatLiteral(separator)
    ensures r.Success? ==> ValidFields(r.value) && r.value.separator == separator
    ensures r.Success? ==> r.value.stampValue == ToSecond(r.value.stampValue)
    ensures r.Failure? ==> r.error in {ArgumentError, IndexOutOfRange, FormatError, OverflowError}
  {
    if |p.stamp| < 2 then Failure(IndexOutOfRange)
    else
      match ParseYearMonthDayTime(p.stamp[0] + [separator] + p.stamp[1], separator)
      case Failure(e) => Failure(e)
      case Success(dateTime) =>
        match (if |p.stamp| == 3 then ToInt32(p.stamp[2]) else Success(0))
        case Failure(e) => Failure(e)
        case Success(counter) =>
          Construct(Combine(directory, p.fileName), dateTime, separator, p.extension, counter)
  }

  /** Parse(path, separator): ParseHelper's errors first, then the errors of
      reading the pieces. */
  function Parse(path: string, separator: char): (r: Result<Fields<DateTime>, Error>)
    requires ValidSeparator(separator) && IsFormatLiteral(separator)
    ensures r.Success? ==> ValidFields(r.value) && r.value.separator == separator
    ensures r.Success? ==> r.value.stampValue == ToSecond(r.value.stampValue)
    ensures r.Failure? ==> r.error in {ArgumentError, InvalidOperation, IndexOutOfRange, FormatError, OverflowError}
  {
    match ParseHelper(path, PatternFor(separator))
    case Failure(e) => Failure(e)
    case Success(p) => FromPieces(GetDirectoryName(path), separator, p)
  }

  // ---------------------------------------------------------------------
  // Properties

  /** Text the pattern matches holds the separator at index 8. */
  lemma {:induction false} MatchHoldsSeparator(separator: char, t: string)
    requires Matches(PatternFor(separator), t)
    ensures |t| > 8 && t[8] == separator
  {
    if !IsDateTimeDigits(t, separator) {
      var k :| 0 <= k < |t| && t[k] == separator && CoreMatches(DateTimeCore, separator, t[..k]) && IsDigits(t[k + 1..]);
      assert IsDateTimeDigits(t[..k], separator);
      assert t[..k][8] == t[8];
    }
  }

  /** A date-time stamp stays inside one file name: it holds only digits and
      the separator. */
  lemma {:induction false} PatternIsNameBound(separator: char)
    requires separator != '.' && separator != '/'
    ensures NameBound(PatternFor(separator))
  {
    var pat := PatternFor(separator);
    forall x | Matches(pat, x)
      ensures '.' !in x && '/' !in x
    {
      if !IsDateTimeDigits(x, separator) {
        var k :| 0 <= k < |x| && x[k] == separator && IsDateTimeDigits(x[..k], separator) && IsDigits(x[k + 1..]);
        forall i | 0 <= i < |x|
          ensures x[i] != '.' && x[i] != '/'
        {
          if i < k {
            assert x[i] == x[..k][i];
          } else if i > k {
            assert x[i] == x[k + 1..][i - k - 1];
          }
        }
      }
    }
  }

  /** What a date/time stamp looks like: eight digits, the separator, six
      digits, then either nothing or the separator and digits. */
  lemma {:induction false} DateTimeMatchShape(separator: char, z: string)
    ensures Matches(PatternFor(separator), z) ==>
            && |z| >= 15 && z[8] == separator
            && (forall i :: 0 <= i < |z| && i != 8 && i != 15 ==> IsDigit(z[i]))
            && (|z| > 15 ==> z[15] == separator)
  {
    if Matches(PatternFor(separator), z) && !IsDateTimeDigits(z, separator) {
      var k :| 0 <= k < |z| && z[k] == separator && CoreMatches(DateTimeCore, separator, z[..k]) && IsDigits(z[k + 1..]);
      assert |z[..k]| == 15 && z[..k][8] == z[8];
      forall i | 0 <= i < |z| && i != 8 && i != 15
        ensures IsDigit(z[i])
      {
        if i < 15 {
          assert z[..k][i] == z[i];
        } else {
          assert z[k + 1..][i - 16] == z[i];
        }
      }
    }
  }

  /** A separator-led date/time stamp never ends with another one: the
      separators of the two would have to sit nine places apart. */
  lemma {:induction false} NoLedMatchAtEnd(separator: char, x: string, k: int)
    requires !IsDigit(separator)
    requires MatchesLed(PatternFor(separator), x) && 0 < k < |x|
    ensures !MatchesLed(PatternFor(separator), x[k..])
  {
    var y := x[1..];
    var z := x[k + 1..];
    DateTimeMatchShape(separator, y);
    DateTimeMatchShape(separator, z);
    assert x[k..][0] == y[k - 1] && x[k..][1..] == z;
    assert forall i :: 0 <= i < |z| ==> z[i] == y[k + i];
  }

  /** The date/time pattern meets the splitting condition because its
      premise never holds: no separator-led match ends with another. */
  lemma {:induction false} PatternSplits(separator: char)
    requires !IsDigit(separator)
    ensures StampSplits(PatternFor(separator))
  {
    var pat := PatternFor(separator);
    forall x, k | 0 < k < |x| && MatchesLed(pat, x)
      ensures !MatchesLed(pat, x[k..])
    {
      NoLedMatchAtEnd(separator, x, k);
    }
  }

  /** stamp[1] is always there: every match of the pattern holds the
      separator, so ParseHelper finds at least two pieces. */
  lemma {:induction false} ParseHasTimePiece(path: string, separator: char)
    ensures var r := ParseHelper(path, PatternFor(separator));
            r.Success? ==> |r.value.stamp| >= 2
  {
    var r := ParseHelper(path, PatternFor(separator));
    ParsedStampMatches(path, PatternFor(separator));
    ParsedPiecesFree(path, PatternFor(separator));
    if r.Success? {
      MatchHoldsSeparator(separator, Join(r.value.stamp, separator));
      MorePiecesThanOne(r.value.stamp, separator);
    }
  }

  /** Pieces whose join holds the separator, when the first does not, are
      more than one. */
  lemma {:induction false} MorePiecesThanOne(pieces: seq<string>, separator: char)
    requires |pieces| >= 1 && (forall i :: 0 <= i < |pieces| ==> separator !in pieces[i])
    requires |Join(pieces, separator)| > 8 && Join(pieces, separator)[8] == separator
    ensures |pieces| >= 2
  {
  }

  /** With a second piece, FromPieces never fails on the index. */
  lemma {:induction false} FromPiecesReadsTwo(directory: string, separator: char, p: Parsed)
    requires IsFormatLiteral(separator) && |p.stamp| >= 2
    ensures FromPieces(directory, separator, p) != Failure(IndexOutOfRange)
  {
  }

  /** Parse never fails with IndexOutOfRangeException. */
  lemma {:induction false} ParseNeverOutOfRange(path: string, separator: char)
    requires ValidSeparator(separator) && IsFormatLiteral(separator)
    ensures Parse(path, separator) != Failure(IndexOutOfRange)
  {
    ParseHasTimePiece(path, separator);
    match ParseHelper(path, PatternFor(separator))
    case Failure(_) =>
    case Success(p) =>
      ParseIs(path, separator, p);
      FromPiecesReadsTwo(GetDirectoryName(path), separator, p);
  }

  /** Parse is FromPieces on what ParseHelper read. */
  lemma {:induction false} ParseIs(path: string, separator: char, p: Parsed)
    requires ValidSeparator(separator) && IsFormatLiteral(separator)
    requires ParseHelper(path, PatternFor(separator)) == Success(p)
    ensures Parse(path, separator) == FromPieces(GetDirectoryName(path), separator, p)
  {
  }

  /** The stamp of a formatted name splits into the date, the time and, when
      present, the counter. */
  lemma {:induction false} StampTextPieces(f: Fields<DateTime>)
    requires f.counter >= 0 && !IsDigit(f.separator)
    ensures Split(StampText(f, StampValue), f.separator) ==
      [DateStamp(f.stampValue)] + ([TimeStamp(f.stampValue)] + (if f.counter == 0 then [] else [NatToString(f.counter)]))
  {
    var date, time := DateStamp(f.stampValue), TimeStamp(f.stampValue);
    assert StampText(f, StampValue) == date + [f.separator] + time + (if f.counter == 0 then "" else [f.separator] + NatToString(f.counter));
    SplitPieces(date, time, f.counter, f.separator);
  }

  /** A date, the separator, a time and, for a nonzero counter, the
      separator and its digits split into those pieces. */
  lemma {:induction false} SplitPieces(date: string, time: string, counter: nat, separator: char)
    requires IsEightDigits(date) && IsDigits(time) && !IsDigit(separator)
    ensures Split(date + [separator] + time + (if counter == 0 then "" else [separator] + NatToString(counter)), separator) ==
      [date] + ([time] + (if counter == 0 then [] else [NatToString(counter)]))
  {
    assert separator !in date && separator !in time;
    if counter == 0 {
      assert date + [separator] + time + "" == date + [separator] + time;
      SplitTwo(date, time, separator);
    } else {
      var digits := NatToString(counter);
      assert separator !in digits;
      assert date + [separator] + time + ([separator] + digits) == date + [separator] + (time + [separator] + digits);
      SplitThree(date, time, digits, separator);
    }
  }

  /** Two separator-free pieces joined by the separator split back. */
  lemma {:induction false} SplitTwo(a: string, b: string, separator: char)
    requires separator !in a && separator !in b
    ensures Split(a + [separator] + b, separator) == [a] + ([b] + [])
  {
    SplitAfterHead(a, separator, b);
    SplitWithoutSeparator(b, separator);
  }

  /** Three separator-free pieces joined by the separator split back. */
  lemma {:induction false} SplitThree(a: string, b: string, c: string, separator: char)
    requires separator !in a && separator !in b && separator !in c
    ensures Split(a + [separator] + (b + [separator] + c), separator) == [a] + ([b] + [c])
  {
    SplitAfterHead(a, separator, b + [separator] + c);
    SplitTwo(b, c, separator);
  }

  /** The pieces of a date-time stamp with its counter are read back as the
      moment to the second and the counter, in the file name's own
      directory. */
  lemma {:induction false} FromPiecesOfStamp(f: Fields<DateTime>)
    requires ValidFields(f) && IsFormatLiteral(f.separator) && Recombines(f.fileName)
    ensures FromPieces(GetDirectoryName(f.fileName), f.separator,
                       Parsed(f.stampAsExtension, GetFileName(f.fileName),
                              [DateStamp(f.stampValue)] + ([TimeStamp(f.stampValue)] + (if f.counter == 0 then [] else [NatToString(f.counter)]))))
         == Success(f.(stampValue := ToSecond(f.stampValue)))
  {
    var pieces := [DateStamp(f.stampValue)] + ([TimeStamp(f.stampValue)] + (if f.counter == 0 then [] else [NatToString(f.counter)]));
    assert pieces[0] + [f.separator] + pieces[1] == StampValue(f.stampValue, f.separator);
    StampValueParses(f.stampValue, f.separator);
    if f.counter > 0 {
      ToInt32OfNatToString(f.counter);
    }
    FromPiecesIs(GetDirectoryName(f.fileName), f.separator, Parsed(f.stampAsExtension, GetFileName(f.fileName), pieces),
                 ToSecond(f.stampValue), f.counter);
  }

  /** FromPieces on pieces that read as a moment and a counter builds the
      fields from them. */
  lemma {:induction false} FromPiecesIs(directory: string, separator: char, p: Parsed, dateTime: DateTime, counter: int)
    requires IsFormatLiteral(separator) && IsInt32(counter) && |p.stamp| >= 2
    requires ParseYearMonthDayTime(p.stamp[0] + [separator] + p.stamp[1], separator) == Success(dateTime)
    requires |p.stamp| == 3 ==> ToInt32(p.stamp[2]) == Success(counter)
    requires |p.stamp| != 3 ==> counter == 0
    ensures FromPieces(directory, separator, p) == Construct(Combine(directory, p.fileName), dateTime, separator, p.extension, counter)
  {
  }

  /** Parse reads back what ToString wrote, to the second: in extension mode
      for every file name, in suffix mode for a file name that is
      suffix-readable, as long as splitting the path and combining it again
      gives it back. */
  lemma {:induction false} ParseToString(f: Fields<DateTime>)
    requires ValidFields(f) && ValidSeparator(f.separator) && IsFormatLiteral(f.separator) && f.separator != '/'
    requires Recombines(f.fileName)
    requires !f.stampAsExtension ==> SuffixReadable(f.fileName, PatternFor(f.separator))
    ensures Parse(Format(f, StampValue), f.separator) == Success(f.(stampValue := ToSecond(f.stampValue)))
  {
    PatternIsNameBound(f.separator);
    StampTextMatches(f, StampValue, PatternFor(f.separator));
    StampTextPieces(f);
    FormatRoundTrip(f, StampValue, PatternFor(f.separator));
    ParseIs(Format(f, StampValue), f.separator,
            Parsed(f.stampAsExtension, GetFileName(f.fileName), Split(StampText(f, StampValue), f.separator)));
    FromPiecesOfStamp(f);
  }

  /** A stamped date-time text is found as the whole stamp in either mode
      when the file name is readable in that mode. */
  lemma {:induction false} FindsDateTimeText(fileName: string, separator: char, extension: bool, t: string)
    requires ValidSeparator(separator) && separator != '/'
    requires Matches(PatternFor(separator), t)
    requires !extension ==> SuffixReadable(fileName, PatternFor(separator))
    ensures ParseHelper(Stamped(fileName, separator, extension, t), PatternFor(separator))
         == Success(Parsed(extension, GetFileName(fileName), Split(t, separator)))
  {
    PatternIsNameBound(separator);
    if extension {
      ExtensionRoundTrip(fileName, t, PatternFor(separator));
    } else {
      SuffixRoundTrip(fileName, t, PatternFor(separator));
    }
  }

  /** Stamped text that has the shape of a date and a time but names no
      moment, such as hour 24, is found and then rejected with
      FormatException. */
  lemma {:induction false} ParseRejectsNonMoment(fileName: string, separator: char, extension: bool, date: string, time: string)
    requires ValidSeparator(separator) && IsFormatLiteral(separator) && separator != '/'
    requires IsEightDigits(date) && |time| == 6 && IsDigits(time)
    requires ParseYearMonthDayTime(date + [separator] + time, separator).Failure?
    requires !extension ==> SuffixReadable(fileName, PatternFor(separator))
    ensures Parse(Stamped(fileName, separator, extension, date + [separator] + time), separator) == Failure(FormatError)
  {
    DateTimeTextShape(date, separator, time);
    assert separator !in date && separator !in time;
    SplitAfterHead(date, separator, time);
    SplitWithoutSeparator(time, separator);
    FindsDateTimeText(fileName, separator, extension, date + [separator] + time);
    ParseIs(Stamped(fileName, separator, extension, date + [separator] + time), separator,
            Parsed(extension, GetFileName(fileName), Split(date + [separator] + time, separator)));
  }

  /** A counter too large for an Int32 is found and then rejected with
      OverflowException. */
  lemma {:induction false} ParseRejectsCounterOverflow(fileName: string, separator: char, extension: bool, dateTime: DateTime, digits: string)
    requires ValidSeparator(separator) && IsFormatLiteral(separator) && separator != '/'
    requires IsDigits(digits) && DigitsValue(digits) > MaxInt32
    requires !extension ==> SuffixReadable(fileName, PatternFor(separator))
    ensures Parse(Stamped(fileName, separator, extension, StampValue(dateTime, separator) + [separator] + digits), separator)
         == Failure(OverflowError)
  {
    CounterTextMatches(StampValue(dateTime, separator), separator, digits);
    CounterTextPieces(dateTime, separator, digits);
    FindsDateTimeText(fileName, separator, extension, StampValue(dateTime, separator) + [separator] + digits);
    ParseIs(Stamped(fileName, separator, extension, StampValue(dateTime, separator) + [separator] + digits), separator,
            Parsed(extension, GetFileName(fileName), Split(StampValue(dateTime, separator) + [separator] + digits, separator)));
    StampValueParses(dateTime, separator);
    FromPiecesOverflow(GetDirectoryName(fileName), separator,
                       Parsed(extension, GetFileName(fileName), Split(StampValue(dateTime, separator) + [separator] + digits, separator)));
  }

  /** A date-time followed by the separator and digits splits into three
      pieces: the date and the time, which join back into the date-time, and
      the digits. */
  lemma {:induction false} CounterTextPieces(dateTime: DateTime, separator: char, digits: string)
    requires !IsDigit(separator) && IsDigits(digits)
    ensures var pieces := Split(StampValue(dateTime, separator) + [separator] + digits, separator);
            && |pieces| == 3 && pieces[2] == digits
            && pieces[0] + [separator] + pieces[1] == StampValue(dateTime, separator)
  {
    var date, time := DateStamp(dateTime), TimeStamp(dateTime);
    assert separator !in date && separator !in time && separator !in digits;
    assert StampValue(dateTime, separator) + [separator] + digits == date + [separator] + (time + [separator] + digits);
    SplitAfterHead(date, separator, time + [separator] + digits);
    SplitAfterHead(time, separator, digits);
    SplitWithoutSeparator(digits, separator);
  }

  lemma {:induction false} FromPiecesOverflow(directory: string, separator: char, p: Parsed)
    requires IsFormatLiteral(separator)
    requires |p.stamp| == 3 && ParseYearMonthDayTime(p.stamp[0] + [separator] + p.stamp[1], separator).Success?
    requires IsDigits(p.stamp[2]) && DigitsValue(p.stamp[2]) > MaxInt32
    ensures FromPieces(directory, separator, p) == Failure(OverflowError)
  {
  }

  /** A date-time followed by the separator and digits matches the pattern. */
  lemma {:induction false} CounterTextMatches(v: string, separator: char, digits: string)
    requires IsDateTimeDigits(v, separator) && IsDigits(digits)
    ensures Matches(PatternFor(separator), v + [separator] + digits)
  {
    var t := v + [separator] + digits;
    assert t[..|v|] == v && t[|v|] == separator && t[|v| + 1..] == digits;
    assert CoreMatches(DateTimeCore, separator, t[..|v|]) && IsDigits(t[|v| + 1..]);
  }

  // ---------------------------------------------------------------------
  // Examples

  /** 2020-01-01 at 01:15:30. */
  const EarlyNewYear2020: DateTime := Moment(2020, 1, 1, 1, 15, 30, 0)

  /** 2020-01-01 at 01:15:30 is written "20200101" and "011530". */
  lemma {:induction false} EarlyNewYear2020Stamps()
    ensures DateStamp(EarlyNewYear2020) == "20200101"
    ensures TimeStamp(EarlyNewYear2020) == "011530"
  {
    assert ZeroPadded(2, 1) == "2";
    assert ZeroPadded(20, 2) == "20";
    assert ZeroPadded(202, 3) == "202";
    assert ZeroPadded(2020, 4) == "2020";
    assert ZeroPadded(0, 1) == "0";
    assert ZeroPadded(1, 2) == "01";
    assert ZeroPadded(1, 1) == "1";
    assert ZeroPadded(15, 2) == "15";
    assert ZeroPadded(3, 1) == "3";
    assert ZeroPadded(30, 2) == "30";
  }

  /** The stamp of FileName.ext with 2020-01-01 01:15:30 and no counter. */
  lemma {:induction false} ExampleStampText(extension: bool)
    ensures StampText(Fields("FileName.ext", EarlyNewYear2020, '_', extension, 0), StampValue) == "20200101_011530"
  {
    EarlyNewYear2020Stamps();
  }

  /** "20200101_011530" goes before the last '.' of FileName.ext. */
  lemma {:induction false} ExampleSuffixPlacement()
    ensures Stamped("FileName.ext", '_', false, "20200101_011530") == "FileName_20200101_011530.ext"
  {
    LastIndexOfIs("FileName.ext", '.', 8);
    assert "FileName.ext"[..8] == "FileName" && "FileName.ext"[8..] == ".ext";
    ExampleSuffixText();
  }

  lemma {:induction false} ExampleSuffixText()
    ensures "FileName" + "_" + "20200101_011530" + ".ext" == "FileName_20200101_011530.ext"
  {
  }

  /** FileName.ext stamped with 2020-01-01 01:15:30 before its extension, by
      default. */
  lemma {:induction false} ToStringSuffixExample()
    ensures Format(Fields("FileName.ext", EarlyNewYear2020, '_', false, 0), StampValue) == "FileName_20200101_011530.ext"
  {
    ExampleStampText(false);
    ExampleSuffixPlacement();
  }

  /** FileName.ext stamped with 2020-01-01 01:15:30 after its extension, in
      extension mode. */
  lemma {:induction false} ToStringExtensionExample()
    ensures Format(Fields("FileName.ext", EarlyNewYear2020, '_', true, 0), StampValue) == "FileName.ext.20200101_011530"
  {
    ExampleStampText(true);
    assert "FileName.ext" + "." + "20200101_011530" == "FileName.ext.20200101_011530";
  }
}
