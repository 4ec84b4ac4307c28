/** StampedFileName: a file name stamped with a string, written as it is, and
    read back by a search for the caller's pattern followed by an optional
    counter, `P(S[0-9]+)?`. The caller's pattern is given by the strings it
    matches as a whole. */
module StringStamped {
  import opened Outcomes
  import opened Text
  import opened Paths
  import opened StampRegex
  import opened StampedBase

  /** The inherited FormatStampValue(): StampValue.ToString(), which for a
      string is the string itself. */
  function ValueText(value: string, separator: char): string {
    value
  }

  /** The pattern Parse searches for: the caller's pattern, then
      `(S[0-9]+)?`. */
  function PatternFor(valuePattern: string -> bool, separator: char): StampPattern {
    StampPattern(ValueCore(valuePattern), separator)
  }

  /** The constructor. */
  method New(fileName: string, value: string, separator: char, extension: bool, counter: int)
    returns (r: Result<StampedFileNameBase<string>, Error>)
    requires IsInt32(counter)
    ensures r.Failure? <==> IsBlank(fileName)
    ensures r.Failure? ==> r.error == ArgumentError
    ensures r.Success? ==>
      && fresh(r.value) && r.value.Valid()
      && r.value.State() == Fields(fileName, value, separator, extension, ClampCounter(counter))
      && r.value.formatStampValue == ValueText
  {
    r := StampedBase.New(fileName, value, separator, extension, counter, ValueText);
  }

  /** What Parse does with ParseHelper's result: the first piece is the
      stamp value, and Convert.ToInt32's errors for a second piece, which is
      the counter when there are exactly two pieces; the unstamped name is
      put back into the path's directory, and the constructor rejects it if
      blank. */
  function FromPieces(directory: string, separator: char, p: Parsed): (r: Result<Fields<string>, Error>)
    requires |p.stamp| >= 1
    ensures r.Success? ==> ValidFields(r.value) && r.value.separator == separator && r.value.stampAsExtension == p.extension
    ensures r.Failure? ==> r.error in {ArgumentError, FormatError, OverflowError}
  {
    match (if |p.stamp| == 2 then ToInt32(p.stamp[1]) else Success(0))
    case Failure(e) => Failure(e)
    case Success(counter) =>
      Construct(Combine(directory, p.fileName), p.stamp[0], separator, p.extension, counter)
  }

  /** Parse(path, stampValuePattern, separator): ParseHelper's errors first,
      then the errors of reading the pieces. */
  function Parse(path: string, valuePattern: string -> bool, separator: char): (r: Result<Fields<string>, Error>)
    requires ValidSeparator(separator)
    ensures r.Success? ==> ValidFields(r.value) && r.value.separator == separator
    ensures r.Failure? ==> r.error in {ArgumentError, InvalidOperation, FormatError, OverflowError}
  {
    match ParseHelper(path, PatternFor(valuePattern, separator))
    case Failure(e) => Failure(e)
    case Success(p) => FromPieces(GetDirectoryName(path), separator, p)
  }

  // ---------------------------------------------------------------------
  // Properties

  /** Parse is FromPieces on what ParseHelper read. */
  lemma {:induction false} ParseIs(path: string, valuePattern: string -> bool, separator: char, p: Parsed)
    requires ValidSeparator(separator)
    requires ParseHelper(path, PatternFor(valuePattern, separator)) == Success(p)
    ensures Parse(path, valuePattern, separator) == FromPieces(GetDirectoryName(path), separator, p)
  {
  }

  /** The pieces of a stamp with its counter are read back as the value and
      the counter, in the file name's own directory. */
  lemma {:induction false} FromPiecesOfStamp(f: Fields<string>)
    requires ValidFields(f) && Recombines(f.fileName)
    ensures FromPieces(GetDirectoryName(f.fileName), f.separator,
                       Parsed(f.stampAsExtension, GetFileName(f.fileName),
                              [f.stampValue] + (if f.counter == 0 then [] else [NatToString(f.counter)])))
         == Success(f)
  {
    if f.counter > 0 {
      ToInt32OfNatToString(f.counter);
    }
  }

  /** Parse reads back exactly what ToString wrote when the caller's pattern
      matches the value, the value does not hold the separator, and no match
      of the pattern crosses a '.' or a '/': in extension mode for every file
      name, in suffix mode for a suffix-readable one, as long as splitting
      the path and combining it again gives it back. */
  lemma {:induction false} ParseToString(f: Fields<string>, valuePattern: string -> bool)
    requires ValidFields(f) && ValidSeparator(f.separator) && f.separator != '/'
    requires Recombines(f.fileName)
    requires valuePattern(f.stampValue) && f.separator !in f.stampValue
    requires NameBound(PatternFor(valuePattern, f.separator))
    requires !f.stampAsExtension ==> SuffixReadable(f.fileName, PatternFor(valuePattern, f.separator))
    ensures Parse(Format(f, ValueText), valuePattern, f.separator) == Success(f)
  {
    StampTextMatches(f, ValueText, PatternFor(valuePattern, f.separator));
    StampTextSplit(f, ValueText);
    FormatRoundTrip(f, ValueText, PatternFor(valuePattern, f.separator));
    ParseIs(Format(f, ValueText), valuePattern, f.separator,
            Parsed(f.stampAsExtension, GetFileName(f.fileName), Split(StampText(f, ValueText), f.separator)));
    FromPiecesOfStamp(f);
  }

  /** The value Parse recovers is the first piece of the stamp split at the
      separator, so it never holds the separator. */
  lemma {:induction false} ParsedValueHasNoSeparator(path: string, valuePattern: string -> bool, separator: char)
    requires ValidSeparator(separator)
    ensures Parse(path, valuePattern, separator).Success? ==>
            separator !in Parse(path, valuePattern, separator).value.stampValue
  {
    ParsedPiecesFree(path, PatternFor(valuePattern, separator));
    match ParseHelper(path, PatternFor(valuePattern, separator))
    case Failure(_) =>
    case Success(p) =>
      ParseIs(path, valuePattern, separator, p);
      FromPiecesValue(GetDirectoryName(path), separator, p);
  }

  /** FromPieces takes the stamp value from the first piece. */
  lemma {:induction false} FromPiecesValue(directory: string, separator: char, p: Parsed)
    requires |p.stamp| >= 1
    ensures FromPieces(directory, separator, p).Success? ==>
            FromPieces(directory, separator, p).value.stampValue == p.stamp[0]
  {
  }

  /** A stamp value that holds the separator never comes back: the stamp
      splits into more pieces, so Parse either fails or recovers only the
      text before the first separator. */
  lemma {:induction false} SeparatorInValueIsLost(f: Fields<string>, valuePattern: string -> bool)
    requires ValidFields(f) && ValidSeparator(f.separator)
    requires f.separator in f.stampValue
    ensures Parse(Format(f, ValueText), valuePattern, f.separator) != Success(f)
  {
    ParsedValueHasNoSeparator(Format(f, ValueText), valuePattern, f.separator);
  }
}
