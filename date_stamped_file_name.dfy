/** DateStampedFileName: a file name stamped with a date written "yyyyMMdd",
    as in FileName_20200101.ext or FileName.ext.20200101, and read back by a
    search for `\d{8}(S[0-9]+)?`. */
module DateStamped {
  import opened Outcomes
  import opened Text
  import opened Paths
  import opened Calendar
  import opened StampRegex
  import opened StampedBase

  /** DateStamp, which is FormatStampValue(): the stamp value written
      "yyyyMMdd"; the separator plays no part. It is eight digits and
      ParseExact reads it back as the same day. */
  function DateStamp(date: DateTime, separator: char): (s: string)
    ensures IsEightDigits(s)
    ensures ParseYearMonthDay(s) == Success(DateOf(date))
  {
    ParseFormatYearMonthDay(date);
    FormatYearMonthDay(date)
  }

  /** The pattern Parse searches for: `\d{8}(S[0-9]+)?`. */
  function PatternFor(separator: char): StampPattern {
    StampPattern(DateCore, separator)
  }

  /** The constructor with an explicit date. */
  method New(fileName: string, date: DateTime, separator: char, extension: bool, counter: int)
    returns (r: Result<StampedFileNameBase<DateTime>, Error>)
    requires IsInt32(counter)
    ensures r.Failure? <==> IsBlank(fileName)
    ensures r.Failure? ==> r.error == ArgumentError
    ensures r.Success? ==>
      && fresh(r.value) && r.value.Valid()
      && r.value.State() == Fields(fileName, date, separator, extension, ClampCounter(counter))
      && r.value.formatStampValue == DateStamp
  {
    r := StampedBase.New(fileName, date, separator, extension, counter, DateStamp);
  }

  /** Deconstruct(out filename, out date, out dateStamp, out counter). */
  method Deconstruct(o: StampedFileNameBase<DateTime>) returns (fileName: string, date: DateTime, dateStamp: string, counter: int)
    ensures fileName == o.fileName && date == o.stampValue && counter == o.counter
    ensures IsEightDigits(dateStamp) && ParseYearMonthDay(dateStamp) == Success(DateOf(o.stampValue))
  {
    fileName, date, counter := o.fileName, o.stampValue, o.counter;
    dateStamp := DateStamp(o.stampValue, o.separator);
  }

  /** What Parse does with ParseHelper's result: FormatException when the
      first piece is not a calendar day, then Convert.ToInt32's errors for a
      second piece, which is the counter when there are exactly two pieces;
      the unstamped name is put back into the path's directory, and the
      constructor rejects it if blank. */
  function FromPieces(directory: string, separator: char, p: Parsed): (r: Result<Fields<DateTime>, Error>)
    requires |p.stamp| >= 1
    ensures r.Success? ==> ValidFields(r.value) && r.value.separator == separator
    ensures r.Success? ==> r.value.stampValue == DateOf(r.value.stampValue)
    ensures r.Failure? ==> r.error in {ArgumentError, FormatError, OverflowError}
  {
    match ParseYearMonthDay(p.stamp[0])
    case Failure(e) => Failure(e)
    case Success(date) =>
      match (if |p.stamp| == 2 then ToInt32(p.stamp[1]) else Success(0))
      case Failure(e) => Failure(e)
      case Success(counter) =>
        Construct(Combine(directory, p.fileName), date, separator, p.extension, counter)
  }

  /** Parse(path, separator): ParseHelper's errors first, then the errors of
      reading the pieces. */
  function Parse(path: string, separator: char): (r: Result<Fields<DateTime>, Error>)
    requires ValidSeparator(separator)
    ensures r.Success? ==> ValidFields(r.value) && r.value.separator == separator
    ensures r.Success? ==> r.value.stampValue == DateOf(r.value.stampValue)
    ensures r.Failure? ==> r.error in {ArgumentError, InvalidOperation, FormatError, OverflowError}
  {
    match ParseHelper(path, PatternFor(separator))
    case Failure(e) => Failure(e)
    case Success(p) => FromPieces(GetDirectoryName(path), separator, p)
  }

  // ---------------------------------------------------------------------
  // Properties

  /** A date stamp stays inside one file name: it holds only digits and the
      separator. */
  lemma {:induction false} PatternIsNameBound(separator: char)
    requires separator != '.' && separator != '/'
    ensures NameBound(PatternFor(separator))
  {
    var pat := PatternFor(separator);
    forall x | Matches(pat, x)
      ensures '.' !in x && '/' !in x
    {
      if !IsEightDigits(x) {
        var k :| 0 <= k < |x| && x[k] == separator && IsEightDigits(x[..k]) && IsDigits(x[k + 1..]);
        forall i | 0 <= i < |x|
          ensures x[i] != '.' && x[i] != '/'
        {
          if i < k {
            assert x[i] == x[..k][i];
          } else if i > k {
            assert x[i] == x[k + 1..][i - k - 1];
          }
        }
      }
    }
  }

  /** What a date stamp looks like: eight digits, then either nothing or the
      separator and digits. */
  lemma {:induction false} DateMatchShape(separator: char, z: string)
    requires Matches(PatternFor(separator), z)
    ensures |z| >= 8
    ensures forall i :: 0 <= i < |z| && i != 8 ==> IsDigit(z[i])
    ensures |z| > 8 ==> |z| > 9 && z[8] == separator
  {
    if !IsEightDigits(z) {
      var k :| 0 <= k < |z| && z[k] == separator && CoreMatches(DateCore, separator, z[..k]) && IsDigits(z[k + 1..]);
      assert |z[..k]| == 8;
      forall i | 0 <= i < |z| && i != 8
        ensures IsDigit(z[i])
      {
        if i < 8 {
          assert z[..k][i] == z[i];
        } else {
          assert z[k + 1..][i - 9] == z[i];
        }
      }
    }
  }

  /** Inside a separator-led date stamp the separator is only at the start
      and, before the counter, at index 9. */
  lemma {:induction false} SeparatorInLedDate(separator: char, x: string, k: int)
    requires !IsDigit(separator)
    requires MatchesLed(PatternFor(separator), x) && 0 < k < |x| && x[k] == separator
    ensures k == 9 && IsEightDigits(x[1..9])
  {
    var y := x[1..];
    DateMatchShape(separator, y);
    assert y[k - 1] == separator;
    assert forall i :: 0 <= i < 8 ==> x[1..9][i] == y[i];
  }

  /** A longer date match never runs into the text before a stamp: a
      separator-led match ending with a separator-led match is a date
      followed by the counter, and the part before the counter is a match. */
  lemma {:induction false} PatternSplits(separator: char)
    requires !IsDigit(separator)
    ensures StampSplits(PatternFor(separator))
  {
    var pat := PatternFor(separator);
    forall x, k | 0 < k < |x| && MatchesLed(pat, x) && MatchesLed(pat, x[k..])
      ensures MatchesLed(pat, x[..k])
    {
      assert x[k..][0] == x[k];
      SeparatorInLedDate(separator, x, k);
      assert x[..k][1..] == x[1..9];
    }
  }

  /** Parse is FromPieces on what ParseHelper read. */
  lemma {:induction false} ParseIs(path: string, separator: char, p: Parsed)
    requires ValidSeparator(separator)
    requires ParseHelper(path, PatternFor(separator)) == Success(p)
    ensures Parse(path, separator) == FromPieces(GetDirectoryName(path), separator, p)
  {
  }

  /** The pieces of a date stamp with its counter are read back as the date
      at midnight and the counter, in the file name's own directory. */
  lemma {:induction false} FromPiecesOfStamp(f: Fields<DateTime>)
    requires ValidFields(f) && Recombines(f.fileName)
    ensures FromPieces(GetDirectoryName(f.fileName), f.separator,
                       Parsed(f.stampAsExtension, GetFileName(f.fileName),
                              [DateStamp(f.stampValue, f.separator)] + (if f.counter == 0 then [] else [NatToString(f.counter)])))
         == Success(f.(stampValue := DateOf(f.stampValue)))
  {
    var pieces := [DateStamp(f.stampValue, f.separator)] + (if f.counter == 0 then [] else [NatToString(f.counter)]);
    if f.counter > 0 {
      ToInt32OfNatToString(f.counter);
    }
    FromPiecesIs(GetDirectoryName(f.fileName), f.separator, Parsed(f.stampAsExtension, GetFileName(f.fileName), pieces),
                 DateOf(f.stampValue), f.counter);
  }

  /** FromPieces on pieces that read as a date and a counter builds the
      fields from them. */
  lemma {:induction false} FromPiecesIs(directory: string, separator: char, p: Parsed, date: DateTime, counter: int)
    requires IsInt32(counter) && |p.stamp| >= 1
    requires ParseYearMonthDay(p.stamp[0]) == Success(date)
    requires |p.stamp| == 2 ==> ToInt32(p.stamp[1]) == Success(counter)
    requires |p.stamp| != 2 ==> counter == 0
    ensures FromPieces(directory, separator, p) == Construct(Combine(directory, p.fileName), date, separator, p.extension, counter)
  {
  }

  /** Parse reads back what ToString wrote, the date at midnight: in
      extension mode for every file name, in suffix mode for a file name
      that is suffix-readable, as long as splitting the path and combining
      it again gives it back. */
  lemma {:induction false} ParseToString(f: Fields<DateTime>)
    requires ValidFields(f) && ValidSeparator(f.separator) && f.separator != '/'
    requires Recombines(f.fileName)
    requires !f.stampAsExtension ==> SuffixReadable(f.fileName, PatternFor(f.separator))
    ensures Parse(Format(f, DateStamp), f.separator) == Success(f.(stampValue := DateOf(f.stampValue)))
  {
    PatternIsNameBound(f.separator);
    StampTextMatches(f, DateStamp, PatternFor(f.separator));
    StampTextSplit(f, DateStamp);
    FormatRoundTrip(f, DateStamp, PatternFor(f.separator));
    ParseIs(Format(f, DateStamp), f.separator,
            Parsed(f.stampAsExtension, GetFileName(f.fileName), Split(StampText(f, DateStamp), f.separator)));
    FromPiecesOfStamp(f);
  }

  /** A stamped date text is found as the whole stamp, a single piece, in
      either mode when the file name is readable in that mode. */
  lemma {:induction false} FindsDateText(fileName: string, separator: char, extension: bool, t: string)
    requires ValidSeparator(separator) && separator != '/'
    requires Matches(PatternFor(separator), t)
    requires !extension ==> SuffixReadable(fileName, PatternFor(separator))
    ensures ParseHelper(Stamped(fileName, separator, extension, t), PatternFor(separator))
         == Success(Parsed(extension, GetFileName(fileName), Split(t, separator)))
    ensures GetDirectoryName(Stamped(fileName, separator, extension, t)) == GetDirectoryName(fileName)
  {
    PatternIsNameBound(separator);
    if extension {
      ExtensionRoundTrip(fileName, t, PatternFor(separator));
    } else {
      SuffixRoundTrip(fileName, t, PatternFor(separator));
    }
  }

  /** Stamped text that has the shape of a date but names no calendar day,
      such as month 13, is found and then rejected with FormatException. */
  lemma {:induction false} ParseRejectsNonCalendarDate(fileName: string, separator: char, extension: bool, t: string)
    requires ValidSeparator(separator) && separator != '/'
    requires IsEightDigits(t) && ParseYearMonthDay(t).Failure?
    requires !extension ==> SuffixReadable(fileName, PatternFor(separator))
    ensures Parse(Stamped(fileName, separator, extension, t), separator) == Failure(FormatError)
  {
    SplitWithoutSeparator(t, separator);
    FindsDateText(fileName, separator, extension, t);
    ParseIs(Stamped(fileName, separator, extension, t), separator, Parsed(extension, GetFileName(fileName), [t]));
  }

  /** A counter too large for an Int32 is found and then rejected with
      OverflowException. */
  lemma {:induction false} ParseRejectsCounterOverflow(fileName: string, separator: char, extension: bool, date: DateTime, digits: string)
    requires ValidSeparator(separator) && separator != '/'
    requires IsDigits(digits) && DigitsValue(digits) > MaxInt32
    requires !extension ==> SuffixReadable(fileName, PatternFor(separator))
    ensures Parse(Stamped(fileName, separator, extension, DateStamp(date, separator) + [separator] + digits), separator)
         == Failure(OverflowError)
  {
    CounterTextMatches(DateStamp(date, separator), separator, digits);
    SplitAfterHead(DateStamp(date, separator), separator, digits);
    SplitWithoutSeparator(digits, separator);
    FindsDateText(fileName, separator, extension, DateStamp(date, separator) + [separator] + digits);
    ParseIs(Stamped(fileName, separator, extension, DateStamp(date, separator) + [separator] + digits), separator,
            Parsed(extension, GetFileName(fileName), Split(DateStamp(date, separator) + [separator] + digits, separator)));
    FromPiecesOverflow(GetDirectoryName(fileName), separator,
                       Parsed(extension, GetFileName(fileName), Split(DateStamp(date, separator) + [separator] + digits, separator)));
  }

  lemma {:induction false} FromPiecesOverflow(directory: string, separator: char, p: Parsed)
    requires |p.stamp| == 2 && ParseYearMonthDay(p.stamp[0]).Success?
    requires IsDigits(p.stamp[1]) && DigitsValue(p.stamp[1]) > MaxInt32
    ensures FromPieces(directory, separator, p) == Failure(OverflowError)
  {
  }

  /** A date followed by the separator and digits matches the pattern. */
  lemma {:induction false} CounterTextMatches(v: string, separator: char, digits: string)
    requires IsEightDigits(v) && IsDigits(digits)
    ensures Matches(PatternFor(separator), v + [separator] + digits)
  {
    var t := v + [separator] + digits;
    assert t[..|v|] == v && t[|v|] == separator && t[|v| + 1..] == digits;
    assert CoreMatches(DateCore, separator, t[..|v|]) && IsDigits(t[|v| + 1..]);
  }

  /** A stamp on a blank file name is found, but the name left once it is
      removed is blank and the constructor rejects it. */
  lemma {:induction false} ParseRejectsBlankName(fileName: string, separator: char, extension: bool, date: DateTime)
    requires ValidSeparator(separator) && separator != '/'
    requires IsBlank(fileName) && '/' !in fileName && separator !in fileName
    ensures Parse(Stamped(fileName, separator, extension, DateStamp(date, separator)), separator) == Failure(ArgumentError)
  {
    var stamp := DateStamp(date, separator);
    var path := Stamped(fileName, separator, extension, stamp);
    var p := Parsed(extension, fileName, [stamp]);
    SplitWithoutSeparator(stamp, separator);
    FindsDateText(fileName, separator, extension, stamp);
    ParseIs(path, separator, p);
    FromPiecesIs(GetDirectoryName(path), separator, p, DateOf(date), 0);
    assert Combine(GetDirectoryName(path), fileName) == fileName;
  }

  // ---------------------------------------------------------------------
  // Examples

  /** The first day of 2020. */
  const NewYear2020: DateTime := Moment(2020, 1, 1, 0, 0, 0, 0)

  /** 2020-01-01 is written "20200101". */
  lemma {:induction false} NewYear2020Stamp()
    ensures DateStamp(NewYear2020, '_') == "20200101"
  {
    assert ZeroPadded(2, 1) == "2";
    assert ZeroPadded(20, 2) == "20";
    assert ZeroPadded(202, 3) == "202";
    assert ZeroPadded(2020, 4) == "2020";
    assert ZeroPadded(0, 1) == "0";
    assert ZeroPadded(1, 2) == "01";
  }

  /** The second day of 2020. */
  const SecondDay2020: DateTime := Moment(2020, 1, 2, 0, 0, 0, 0)

  /** 2020-01-02 is written "20200102". */
  lemma {:induction false} SecondDay2020Stamp()
    ensures DateStamp(SecondDay2020, '_') == "20200102"
  {
    assert ZeroPadded(2, 1) == "2";
    assert ZeroPadded(20, 2) == "20";
    assert ZeroPadded(202, 3) == "202";
    assert ZeroPadded(2020, 4) == "2020";
    assert ZeroPadded(0, 1) == "0";
    assert ZeroPadded(1, 2) == "01";
    assert ZeroPadded(2, 2) == "02";
  }

  /** A separator-led date stamp starts with the separator and, when it
      is longer than the date, has the separator again after the date. */
  lemma {:induction false} LedDateSeparators(separator: char, x: string)
    ensures MatchesLed(PatternFor(separator), x) ==>
            |x| >= 9 && x[0] == separator && (|x| > 9 ==> x[9] == separator)
            && forall i :: 0 < i < |x| && i != 9 ==> IsDigit(x[i])
  {
    if MatchesLed(PatternFor(separator), x) {
      DateMatchShape(separator, x[1..]);
      assert forall i :: 0 < i < |x| ==> x[1..][i - 1] == x[i];
    }
  }

  /** Between two separator-free texts, the second not empty, a date with
      its separator is the last match, and the right-to-left removal takes
      it out. */
  lemma {:induction false} RemovesInnerDate(a: string, d: string, b: string, separator: char)
    requires !IsDigit(separator) && separator !in a && separator !in b && b != []
    requires IsEightDigits(d)
    ensures RemoveMatchesRightToLeft(PatternFor(separator), a + [separator] + d + b) == a + b
  {
    var pat := PatternFor(separator);
    var s := a + [separator] + d + b;
    var e := |a| + 9;
    PartsOfName(s, a, separator, d, b);
    assert s[|a|..e][1..] == d;
    assert MatchesLed(pat, s[|a|..e]);
    forall k | 0 <= k < |s| && k != |a|
      ensures s[k] != separator
    {
      if |a| < k < e {
        assert s[|a|..e][k - |a|] == d[k - |a| - 1];
      }
    }
    forall i, j | 0 <= i < j <= |s| && e < j
      ensures !MatchesLed(pat, s[i..j])
    {
      LedDateSeparators(separator, s[i..j]);
      assert s[i..j][0] == s[i];
      if i == |a| {
        assert s[i..j][9] == s[e];
      }
    }
    MatchRightToLeftIsLast(pat, s);
    MatchStartsWithSeparator(pat, s);
    assert MatchRightToLeft(pat, s) == Some(Span(|a|, e));
    RemoveAt(pat, s, |a|, e);
    assert s[..|a|] == a && s[e..] == b;
    NoSeparatorNoLedMatch(pat, a);
    RemoveNothing(pat, a);
  }

  /** A separator-led date stamp ends with a digit. */
  lemma {:induction false} LedDateEndsInDigit(separator: char, x: string)
    ensures MatchesLed(PatternFor(separator), x) ==> IsDigit(x[|x| - 1])
  {
    LedDateSeparators(separator, x);
  }

  /** No separator-led date stamp ends at the end of a text ending with a
      letter. */
  lemma {:induction false} NoLedDateBeforeLetter(separator: char, s: string)
    requires |s| > 0 && !IsDigit(s[|s| - 1])
    ensures NoLedEnd(PatternFor(separator), s)
  {
    forall j | 0 <= j < |s|
      ensures !MatchesLed(PatternFor(separator), s[j..])
    {
      LedDateEndsInDigit(separator, s[j..]);
      assert s[j..][|s| - j - 1] == s[|s| - 1];
    }
  }

  /** Two dates with their separators between '/'-free texts make a path
      with no directory. */
  lemma {:induction false} NoSlashAround(a: string, d: string, b: string, t: string, ext: string, separator: char)
    requires separator != '/' && '/' !in a && '/' !in b && '/' !in ext
    requires IsEightDigits(d) && IsEightDigits(t)
    ensures '/' !in a + [separator] + d + b + [separator] + t + ext
  {
    assert forall k :: 0 <= k < |d| ==> d[k] != '/';
    assert forall k :: 0 <= k < |t| ==> t[k] != '/';
  }

  /** Parse removes every date-shaped run of the bare name, not only the
      stamp it reads: a + S + date + b + S + stamp + extension reads back as
      a + b + extension with the stamp alone. */
  lemma {:induction false} RemovesEveryDate(a: string, d: string, b: string, t: string, ext: string, separator: char)
    requires ValidSeparator(separator) && separator != '/'
    requires separator !in a && separator !in b && '/' !in a && '/' !in b && '/' !in ext
    requires IsEightDigits(d) && IsEightDigits(t)
    requires |b| > 0 && !IsDigit(b[|b| - 1])
    requires 0 < |ext| < 9 && ext[0] == '.' && '.' !in ext[1..] && separator !in ext
    ensures ParseHelper(a + [separator] + d + b + [separator] + t + ext, PatternFor(separator))
         == Success(Parsed(false, a + b + ext, [t]))
  {
    var pat := PatternFor(separator);
    var stem := a + [separator] + d + b;
    var path := stem + [separator] + t + ext;
    NoSlashAround(a, d, b, t, ext, separator);
    PatternIsNameBound(separator);
    PatternSplits(separator);
    assert stem[|stem| - 1] == b[|b| - 1];
    NoLedDateBeforeLetter(separator, stem);
    NoSeparatorNoLedMatch(pat, ext);
    ShortTextIsNoStamp(separator, ext[1..]);
    SplitWithoutSeparator(t, separator);
    RemovesInnerDate(a, d, b, separator);
    SuffixNameParse(path, a + b + ext, stem, t, ext, pat);
  }

  /** Parse on a + S + date + b + S + stamp + extension gives the file name
      a + b + extension and the stamped day: the inner date is lost. */
  lemma {:induction false} ParseDropsEveryDate(a: string, d: string, b: string, date: DateTime, ext: string, separator: char)
    requires ValidSeparator(separator) && separator != '/'
    requires separator !in a && separator !in b && '/' !in a && '/' !in b && '/' !in ext
    requires IsEightDigits(d) && |b| > 0 && !IsDigit(b[|b| - 1])
    requires 0 < |ext| < 9 && ext[0] == '.' && '.' !in ext[1..] && separator !in ext
    requires !IsBlank(a + b + ext)
    ensures Parse(a + [separator] + d + b + [separator] + DateStamp(date, separator) + ext, separator)
         == Success(Fields(a + b + ext, DateOf(date), separator, false, 0))
  {
    var t := DateStamp(date, separator);
    var path := a + [separator] + d + b + [separator] + t + ext;
    RemovesEveryDate(a, d, b, t, ext, separator);
    var p := Parsed(false, a + b + ext, [t]);
    ParseIs(path, separator, p);
    NoSlashAround(a, d, b, t, ext, separator);
    FromPiecesIs("", separator, p, DateOf(date), 0);
  }

  /** a_20200101b.txt stamped with 2020-01-02 in suffix mode does not read
      back: Parse drops the date inside the name as well, and gives ab.txt. */
  lemma {:induction false} StemDateIsLostExample(a: string, d: string, b: string, t: string, ext: string)
    requires a == "a" && d == "20200101" && b == "b" && t == "20200102" && ext == ".txt"
    ensures Parse(Format(Fields(a + ['_'] + d + b + ext, SecondDay2020, '_', false, 0), DateStamp), '_')
         == Success(Fields(a + b + ext, SecondDay2020, '_', false, 0))
  {
    StemDateToString(a, d, b, t, ext);
    ExampleParts(a, d, b, t, ext);
    SecondDay2020Stamp();
    ParseDropsEveryDate(a, d, b, SecondDay2020, ext, '_');
  }

  /** The parts of a_20200101b_20200102.txt meet what RemovesEveryDate asks
      of them. */
  lemma {:induction false} ExampleParts(a: string, d: string, b: string, t: string, ext: string)
    requires a == "a" && d == "20200101" && b == "b" && t == "20200102" && ext == ".txt"
    ensures ValidSeparator('_')
    ensures '_' !in a && '_' !in b && '/' !in a && '/' !in b && '/' !in ext
    ensures IsEightDigits(d) && IsEightDigits(t)
    ensures |b| > 0 && !IsDigit(b[|b| - 1])
    ensures 0 < |ext| < 9 && ext[0] == '.' && '.' !in ext[1..] && '_' !in ext
    ensures !IsBlank(a + b + ext)
  {
    assert ext[1..] == "txt";
    assert (a + b + ext)[0] == 'a';
  }

  /** a_20200101b.txt stamped with 2020-01-02 before its extension. */
  lemma {:induction false} StemDateToString(a: string, d: string, b: string, t: string, ext: string)
    requires a == "a" && d == "20200101" && b == "b" && t == "20200102" && ext == ".txt"
    ensures Format(Fields(a + ['_'] + d + b + ext, SecondDay2020, '_', false, 0), DateStamp) == a + ['_'] + d + b + ['_'] + t + ext
  {
    SecondDay2020Stamp();
    var stem := a + ['_'] + d + b;
    assert ext[0] == '.' && ext[1..] == "txt";
    assert StampText(Fields(stem + ext, SecondDay2020, '_', false, 0), DateStamp) == t;
    StampedBeforeExtension(stem, ext, '_', t);
  }

  /** A suffix stamp goes before an extension that holds the last '.'. */
  lemma {:induction false} StampedBeforeExtension(stem: string, ext: string, separator: char, t: string)
    requires |ext| > 0 && ext[0] == '.' && '.' !in ext[1..]
    ensures Stamped(stem + ext, separator, false, t) == stem + [separator] + t + ext
  {
    var name := stem + ext;
    assert name[|stem|] == '.' && name[|stem| + 1..] == ext[1..];
    LastIndexOfIs(name, '.', |stem|);
    assert name[..|stem|] == stem && name[|stem|..] == ext;
  }

  /** A date stamp starts with a digit. */
  lemma {:induction false} DateMatchStartsWithDigit(separator: char, z: string)
    ensures Matches(PatternFor(separator), z) ==> |z| >= 8 && IsDigit(z[0])
  {
    if Matches(PatternFor(separator), z) {
      DateMatchShape(separator, z);
    }
  }

  /** Text without a digit holds no separator-led date stamp, whatever
      separators it holds. */
  lemma {:induction false} NoDigitNoLedMatch(separator: char, s: string)
    requires forall i :: 0 <= i < |s| ==> !IsDigit(s[i])
    ensures NoLedMatch(PatternFor(separator), s)
  {
    forall i, j | 0 <= i < j <= |s|
      ensures !MatchesLed(PatternFor(separator), s[i..j])
    {
      var x := s[i..j];
      DateMatchStartsWithDigit(separator, x[1..]);
      if |x| > 1 {
        assert x[1..][0] == s[i + 1];
      }
    }
  }

  /** A file name without a digit or a directory reads back in suffix mode,
      even when it holds the separator, as my_file.txt does with '_'. */
  lemma {:induction false} DigitFreeIsReadable(fileName: string, separator: char)
    requires !IsDigit(separator) && '/' !in fileName
    requires forall i :: 0 <= i < |fileName| ==> !IsDigit(fileName[i])
    ensures SuffixReadable(fileName, PatternFor(separator))
  {
    var pat := PatternFor(separator);
    PatternSplits(separator);
    var dot := LastIndexOf(fileName, '.');
    if dot == -1 {
      NoDigitNoLedMatch(separator, fileName);
    } else {
      var stem, ext := fileName[..dot], fileName[dot..];
      assert LastIndexOf(fileName, '/') == -1;
      NoDigitNoLedMatch(separator, stem);
      NoDigitNoLedMatch(separator, ext);
      DateMatchStartsWithDigit(separator, fileName[dot + 1..]);
      if dot + 1 < |fileName| {
        assert fileName[dot + 1..][0] == fileName[dot + 1];
      }
    }
  }

  /** my_file.txt holds the default separator, and still reads back. */
  lemma {:induction false} SeparatorInFileName(fileName: string)
    requires fileName == "my_file.txt"
    ensures Recombines(fileName) && !IsBlank(fileName) && '_' in fileName
    ensures SuffixReadable(fileName, PatternFor('_'))
  {
    assert fileName[2] == '_';
    assert '/' !in fileName;
    assert forall i :: 0 <= i < |fileName| ==> !IsDigit(fileName[i]);
    DigitFreeIsReadable(fileName, '_');
  }

  /** my_file.txt stamped with any date before its extension parses back to
      my_file.txt and the day: the '_' inside the name is no stamp. */
  lemma {:induction false} SeparatorInFileNameReadsBack(fileName: string, date: DateTime)
    requires fileName == "my_file.txt"
    ensures Parse(Format(Fields(fileName, date, '_', false, 0), DateStamp), '_')
         == Success(Fields(fileName, DateOf(date), '_', false, 0))
  {
    SeparatorInFileName(fileName);
    ParseToString(Fields(fileName, date, '_', false, 0));
  }

  /** A file name that is only an extension-mode stamp, in a directory, such
      as dir/.20200101: the name left once the stamp is removed is empty,
      and the file name read back is the directory itself. */
  lemma {:induction false} StampOnlyFileName(directory: string, date: DateTime, separator: char)
    requires ValidSeparator(separator) && separator != '/'
    requires !IsBlank(directory) && '/' !in directory
    ensures Parse(directory + "/." + DateStamp(date, separator), separator)
         == Success(Fields(directory, DateOf(date), separator, true, 0))
  {
    var t := DateStamp(date, separator);
    var path := directory + "/." + t;
    StampOnlyFound(directory, t, separator);
    var p := Parsed(true, "", [t]);
    ParseIs(path, separator, p);
    FromPiecesIs(directory, separator, p, DateOf(date), 0);
  }

  /** ParseHelper reads a file name that is only an extension-mode stamp as
      an empty name and that stamp, in the directory. */
  lemma {:induction false} StampOnlyFound(directory: string, t: string, separator: char)
    requires separator != '.' && separator != '/' && !IsDigit(separator)
    requires directory != "" && '/' !in directory && IsEightDigits(t)
    ensures ParseHelper(directory + "/." + t, PatternFor(separator)) == Success(Parsed(true, "", [t]))
    ensures GetDirectoryName(directory + "/." + t) == directory
  {
    assert forall k :: 0 <= k < |t| ==> t[k] != '/' && t[k] != separator;
    assert '/' !in "." + t;
    assert directory + "/." + t == directory + "/" + ("." + t);
    FileNameAfterDirectory(directory, "." + t);
    assert GetFileName(directory + "/." + t) == "" + "." + t;
    PatternIsNameBound(separator);
    SplitWithoutSeparator(t, separator);
    ExtensionNameParse(directory + "/." + t, "", t, PatternFor(separator));
  }

  /** FileName.ext is a plain file name that reads back in suffix mode, and
      its last '.' is at index 8. */
  lemma {:induction false} PlainFileName()
    ensures Recombines("FileName.ext")
    ensures SuffixReadable("FileName.ext", PatternFor('_'))
    ensures LastIndexOf("FileName.ext", '.') == 8
  {
    assert '/' !in "FileName.ext" && '_' !in "FileName.ext";
    LastIndexOfIs("FileName.ext", '.', 8);
    assert "FileName.ext"[9..] == "ext";
    ShortTextIsNoStamp('_', "ext");
  }

  /** Text shorter than eight characters is no date stamp. */
  lemma {:induction false} ShortTextIsNoStamp(separator: char, t: string)
    requires |t| < 8
    ensures !Matches(PatternFor(separator), t)
  {
  }

  /** The stamp of FileName.ext with 2020-01-01 and no counter. */
  lemma {:induction false} ExampleStampText(extension: bool)
    ensures StampText(Fields("FileName.ext", NewYear2020, '_', extension, 0), DateStamp) == "20200101"
  {
    NewYear2020Stamp();
  }

  /** "20200101" goes before the last '.' of FileName.ext. */
  lemma {:induction false} ExampleSuffixPlacement()
    ensures Stamped("FileName.ext", '_', false, "20200101") == "FileName_20200101.ext"
  {
    LastIndexOfIs("FileName.ext", '.', 8);
    assert "FileName.ext"[..8] == "FileName" && "FileName.ext"[8..] == ".ext";
    assert "FileName" + "_" + "20200101" + ".ext" == "FileName_20200101.ext";
  }

  /** FileName.ext stamped with 2020-01-01 before its extension, by default. */
  lemma {:induction false} ToStringSuffixExample()
    ensures Format(Fields("FileName.ext", NewYear2020, '_', false, 0), DateStamp) == "FileName_20200101.ext"
  {
    ExampleStampText(false);
    ExampleSuffixPlacement();
  }

  /** FileName.ext stamped with 2020-01-01 after its extension, in extension
      mode. */
  lemma {:induction false} ToStringExtensionExample()
    ensures Format(Fields("FileName.ext", NewYear2020, '_', true, 0), DateStamp) == "FileName.ext.20200101"
  {
    ExampleStampText(true);
    assert "FileName.ext" + "." + "20200101" == "FileName.ext.20200101";
  }
}
