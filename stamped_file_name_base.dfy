/** StampedFileNameBase<T>: a file name with a stamp value and an optional
    counter, written either as an extra extension (<name>[.ext].<stamp>[S#]) or
    before the extension (<name>S<stamp>[S#][.ext]), and read back with regular
    expressions. */
module StampedBase {
  import opened Outcomes
  import opened Text
  import opened Paths
  import opened StampRegex

  /** The state of a stamped file name. */
  datatype Fields<T> = Fields(fileName: string, stampValue: T, separator: char,
                              stampAsExtension: bool, counter: int)

  /** What the property setters guarantee: a file name that is not blank and
      an Int32 counter that is not negative. */
  predicate ValidFields<T>(f: Fields<T>) {
    !IsBlank(f.fileName) && 0 <= f.counter <= MaxInt32
  }

  /** A separator that every stamp regex takes literally: not a digit and
      not a regular-expression metacharacter. */
  predicate ValidSeparator(c: char) {
    !IsDigit(c) && c !in {'\\', '*', '+', '?', '|', '{', '}', '[', ']', '(', ')', '^', '$', '.'}
  }

  /** The Counter setter: a negative value is stored as 0. */
  function ClampCounter(value: int): (c: int)
    ensures c >= 0
    ensures value >= 0 ==> c == value
    ensures value < 0 ==> c == 0
  {
    if value < 0 then 0 else value
  }

  // ---------------------------------------------------------------------
  // ToString

  /** The stamp: the formatted stamp value, then the separator and the
      counter unless the counter is 0. */
  function StampText<T>(f: Fields<T>, format: (T, char) -> string): string
    requires f.counter >= 0
  {
    format(f.stampValue, f.separator) + (if f.counter == 0 then "" else [f.separator] + NatToString(f.counter))
  }

  /** Where the stamp goes: at the end in extension mode or when the file
      name has no '.', otherwise at the last '.' of the whole file name. */
  function InsertionPoint(fileName: string, asExtension: bool): (k: nat)
    ensures k <= |fileName|
    ensures k < |fileName| ==> fileName[k] == '.' && '.' !in fileName[k + 1..] && !asExtension
  {
    var dot := LastIndexOf(fileName, '.');
    if asExtension || dot == -1 then |fileName| else dot
  }

  /** The stamped file name: the stamp, led by '.' in extension mode and by
      the separator otherwise, inserted into the file name at its insertion
      point. */
  function Stamped(fileName: string, separator: char, asExtension: bool, stamp: string): (r: string)
    ensures |r| == |fileName| + 1 + |stamp|
  {
    if asExtension then
      fileName + "." + stamp
    else
      var dot := LastIndexOf(fileName, '.');
      if dot == -1 then
        fileName + [separator] + stamp
      else
        fileName[..dot] + [separator] + stamp + fileName[dot..]
  }

  /** The stamped name keeps the file name up to the insertion point, puts
      the leading '.' or separator there followed by the stamp, and keeps
      the rest of the file name after it. */
  lemma {:induction false} StampedLayout(fileName: string, separator: char, asExtension: bool, stamp: string)
    ensures var k := InsertionPoint(fileName, asExtension);
            var r := Stamped(fileName, separator, asExtension, stamp);
            && r[..k] == fileName[..k]
            && r[k] == (if asExtension then '.' else separator)
            && r[k + 1..k + 1 + |stamp|] == stamp
            && r[k + 1 + |stamp|..] == fileName[k..]
  {
    var r := Stamped(fileName, separator, asExtension, stamp);
    var dot := LastIndexOf(fileName, '.');
    if asExtension || dot == -1 {
      var lead := if asExtension then '.' else separator;
      assert r == fileName + [lead] + stamp;
      assert r[|fileName| + 1..] == stamp;
    } else {
      assert r == fileName[..dot] + [separator] + stamp + fileName[dot..];
      assert r[dot + 1..dot + 1 + |stamp|] == stamp;
      assert r[dot + 1 + |stamp|..] == fileName[dot..];
    }
  }

  /** ToString(): the stamped file name. */
  function Format<T>(f: Fields<T>, format: (T, char) -> string): string
    requires f.counter >= 0
  {
    Stamped(f.fileName, f.separator, f.stampAsExtension, StampText(f, format))
  }

  // ---------------------------------------------------------------------
  // ParseHelper

  /** What ParseHelper reads from a path: whether the stamp was an extension,
      the unstamped file name (without directory) and the stamp's pieces. */
  datatype Parsed = Parsed(extension: bool, fileName: string, stamp: seq<string>)

  /** Where ParseHelper finds the stamp in a file name: whether it is an
      extension stamp, the file name with the stamp removed, and the stamp's
      text after its leading '.' or separator. */
  datatype Located = Located(extension: bool, fileName: string, text: string)

  /** The part of ParseHelper after the path has been found to hold a
      stamp: a stamp after a '.' at the end of the file name is an extension
      stamp; otherwise the right-to-left match of the separator and the
      pattern is the stamp and every such match is removed from the name;
      InvalidOperationException when there is neither. */
  function FindStamp(name: string, pat: StampPattern): (r: Result<Located, Error>)
    ensures r.Failure? ==> r.error == InvalidOperation
  {
    var dot := MatchExtension(pat, name);
    if dot >= 0 then
      Success(Located(true, name[..dot], name[dot + 1..]))
    else
      match MatchRightToLeft(pat, name)
      case None => Failure(InvalidOperation)
      case Some(m) => Success(Located(false, RemoveMatchesRightToLeft(pat, name), name[m.start + 1..m.end]))
  }

  /** ParseHelper: ArgumentException when the pattern occurs nowhere in the
      path, directory included; otherwise the stamp found in the file name,
      split at the separator. */
  function ParseHelper(path: string, pat: StampPattern): (r: Result<Parsed, Error>)
    ensures r.Failure? ==> r.error == ArgumentError || r.error == InvalidOperation
    ensures (r.Failure? && r.error == ArgumentError) <==> !Occurs(pat, path)
    ensures r.Success? ==> |r.value.stamp| >= 1
  {
    if !Occurs(pat, path) then Failure(ArgumentError)
    else
      match FindStamp(GetFileName(path), pat)
      case Failure(e) => Failure(e)
      case Success(l) => Success(Parsed(l.extension, l.fileName, Split(l.text, pat.sep)))
  }

  /** An extension stamp is the whole text after the unstamped name and a
      '.', and the pattern matches it. */
  lemma {:induction false} ExtensionFindMeaning(name: string, pat: StampPattern)
    requires MatchExtension(pat, name) >= 0
    ensures var r := FindStamp(name, pat);
            && r.Success? && r.value.extension
            && name == r.value.fileName + "." + r.value.text
            && Matches(pat, r.value.text)
  {
    var dot := MatchExtension(pat, name);
    assert name == name[..dot] + "." + name[dot + 1..] by {
      assert name == name[..dot] + name[dot..];
      assert name[dot..] == [name[dot]] + name[dot + 1..];
    }
  }

  /** Without an extension stamp, a suffix stamp is the right-to-left match
      of the separator and the pattern, its text is what follows that
      separator, and the pattern matches it; with neither, the search fails. */
  lemma {:induction false} SuffixFindMeaning(name: string, pat: StampPattern)
    requires MatchExtension(pat, name) == -1
    ensures var r := FindStamp(name, pat);
            var m := MatchRightToLeft(pat, name);
            && (r.Failure? <==> m.None?)
            && (m.Some? ==>
                  && r.Success? && !r.value.extension
                  && [pat.sep] + r.value.text == name[m.value.start..m.value.end]
                  && Matches(pat, r.value.text))
  {
    var m := MatchRightToLeft(pat, name);
    if m.Some? {
      var sp := m.value;
      assert name[sp.start..sp.end] == [name[sp.start]] + name[sp.start + 1..sp.end];
    }
  }

  /** Whatever ParseHelper reads, its pieces join back into a stamp the
      pattern matches. */
  lemma {:induction false} ParsedStampMatches(path: string, pat: StampPattern)
    ensures var r := ParseHelper(path, pat);
            r.Success? ==> Matches(pat, Join(r.value.stamp, pat.sep))
  {
    var name := GetFileName(path);
    if MatchExtension(pat, name) >= 0 {
      ExtensionFindMeaning(name, pat);
    } else {
      SuffixFindMeaning(name, pat);
    }
  }

  /** ParseHelper's pieces are split at the separator: none holds it. */
  lemma {:induction false} ParsedPiecesFree(path: string, pat: StampPattern)
    ensures var r := ParseHelper(path, pat);
            r.Success? ==> forall i :: 0 <= i < |r.value.stamp| ==> pat.sep !in r.value.stamp[i]
  {
  }

  // ---------------------------------------------------------------------
  // Round trips

  /** Every string the pattern matches stays inside one file name and holds
      no '.'. */
  ghost predicate NameBound(pat: StampPattern) {
    forall x :: Matches(pat, x) ==> '.' !in x && '/' !in x
  }

  /** Text before a suffix stamp that the stamp reads back off: it holds no
      separator-led match, and either it holds no separator at all or the
      pattern cuts every match running into it at the stamp. */
  ghost predicate StemReadable(pat: StampPattern, stem: string) {
    NoLedMatch(pat, stem) && (StampSplits(pat) || pat.sep !in stem)
  }

  /** A file name that reads back from its suffix-stamped form: its last '.',
      if any, is in its last segment and is not followed by text that is
      itself a stamp; the text before that '.' is a readable stem and the
      text from it on holds no separator-led match. */
  ghost predicate SuffixReadable(fileName: string, pat: StampPattern) {
    var dot := LastIndexOf(fileName, '.');
    var slash := LastIndexOf(fileName, '/');
    if dot == -1 then StemReadable(pat, GetFileName(fileName))
    else
      && slash < dot
      && StemReadable(pat, fileName[slash + 1..dot])
      && NoLedMatch(pat, fileName[dot..])
      && !Matches(pat, fileName[dot + 1..])
  }

  lemma {:induction false} OccursAt(pat: StampPattern, s: string, i: int, x: string)
    requires 0 <= i && i + |x| <= |s| && s[i..i + |x|] == x && Matches(pat, x)
    ensures Occurs(pat, s)
  {
    assert Matches(pat, s[i..i + |x|]);
  }

  /** A stamp inside the file name is a stamp in the path. */
  lemma {:induction false} OccursInFileName(pat: StampPattern, path: string, i: int, x: string)
    requires 0 <= i && i + |x| <= |GetFileName(path)|
    requires GetFileName(path)[i..i + |x|] == x && Matches(pat, x)
    ensures Occurs(pat, path)
  {
    var name := GetFileName(path);
    var off := |path| - |name|;
    assert path[off..] == name;
    assert path[off + i..off + i + |x|] == path[off..][i..i + |x|];
    assert Matches(pat, path[off + i..off + i + |x|]);
  }

  lemma {:induction false} NoSeparatorNoMatch(pat: StampPattern, s: string)
    requires pat.sep !in s
    ensures MatchRightToLeft(pat, s).None?
  {
    var m := MatchRightToLeft(pat, s);
    if m.Some? {
      assert false;
    }
  }

  /** In stem + "." + stamp the extension match is the '.' before the stamp. */
  lemma {:induction false} ExtensionMatchAt(name: string, stem: string, t: string, pat: StampPattern)
    requires name == stem + "." + t
    requires NameBound(pat) && Matches(pat, t)
    ensures MatchExtension(pat, name) == |stem|
  {
    DropOfConcat(stem + ".", t, |stem| + 1);
    assert name[|stem| + 1..] == t;
    var dot := MatchExtension(pat, name);
    MatchExtensionIsLeftmost(pat, name);
    if dot == -1 {
      assert false;
    } else if dot < |stem| {
      assert false;
    } else if dot > |stem| {
      assert false;
    }
  }

  /** A file name ending in '.' and a stamp holds an extension stamp,
      whatever precedes it. */
  lemma {:induction false} ExtensionFind(name: string, stem: string, t: string, pat: StampPattern)
    requires name == stem + "." + t
    requires NameBound(pat) && Matches(pat, t)
    ensures FindStamp(name, pat) == Success(Located(true, stem, t))
  {
    DropOfConcat(stem + ".", t, |stem| + 1);
    TakeOfConcat(stem + ".", t, |stem|);
    TakeOfConcat(stem, ".", |stem|);
    ExtensionMatchAt(name, stem, t, pat);
  }

  /** The second part of a concatenation, sliced back out. */
  lemma {:induction false} EndSlice(a: string, t: string)
    ensures (a + t)[|a|..|a| + |t|] == t
  {
  }

  /** A path whose file name ends in '.' and a stamp parses as an extension
      stamp, whatever precedes it. */
  lemma {:induction false} ExtensionNameParse(path: string, stem: string, t: string, pat: StampPattern)
    requires GetFileName(path) == stem + "." + t
    requires NameBound(pat) && Matches(pat, t)
    ensures ParseHelper(path, pat) == Success(Parsed(true, stem, Split(t, pat.sep)))
  {
    EndSlice(stem + ".", t);
    OccursInFileName(pat, path, |stem| + 1, t);
    ExtensionFind(GetFileName(path), stem, t, pat);
  }

  /** Without a '.' before the stamp, or with an extension that is no stamp,
      the extension search finds nothing. */
  lemma {:induction false} NoExtensionMatch(name: string, stem: string, t: string, ext: string, pat: StampPattern)
    requires name == stem + [pat.sep] + t + ext
    requires NameBound(pat) && Matches(pat, t)
    requires pat.sep != '.'
    requires ext == [] ==> '.' !in stem
    requires ext != [] ==> ext[0] == '.' && '.' !in ext[1..] && !Matches(pat, ext[1..])
    ensures MatchExtension(pat, name) == -1
  {
    var e0 := |stem| + 1 + |t|;
    forall j | 0 <= j < |name| && name[j] == '.'
      ensures !Matches(pat, name[j + 1..])
    {
      if j < |stem| {
        assert stem[j] == '.';
        assert name[j + 1..][e0 - j - 1] == '.';
      } else if j == |stem| {
        assert false;
      } else if j < e0 {
        assert false;
      } else if j == e0 {
        assert name[j + 1..] == ext[1..];
      } else {
        assert false;
      }
    }
    MatchExtensionIsLeftmost(pat, name);
  }

  /** A right-to-left match starts with the separator. */
  lemma {:induction false} MatchStartsWithSeparator(pat: StampPattern, s: string)
    ensures var m := MatchRightToLeft(pat, s);
            m.Some? ==> s[m.value.start] == pat.sep
  {
    var m := MatchRightToLeft(pat, s);
    if m.Some? {
      assert s[m.value.start..m.value.end][0] == s[m.value.start];
    }
  }

  /** No '.' follows the separator inside a separator-led match. */
  lemma {:induction false} LedMatchHasNoDot(pat: StampPattern, s: string, i: int, j: int)
    requires 0 <= i < j <= |s| && NameBound(pat)
    ensures MatchesLed(pat, s[i..j]) ==> forall k {:trigger s[k]} :: i < k < j ==> s[k] != '.'
  {
    if MatchesLed(pat, s[i..j]) {
      assert '.' !in s[i..j][1..];
      forall k | i < k < j
        ensures s[k] != '.'
      {
        assert s[i..j][1..][k - i - 1] == s[k];
      }
    }
  }

  /** Where the parts of stem + S + t + ext sit in it. */
  lemma {:induction false} PartsOfName(name: string, stem: string, c: char, t: string, ext: string)
    requires name == stem + [c] + t + ext
    ensures forall j {:trigger name[j]} :: 0 <= j < |stem| ==> name[j] == stem[j]
    ensures forall j {:trigger name[j]} :: |stem| + 1 + |t| <= j < |name| ==> name[j] == ext[j - |stem| - 1 - |t|]
    ensures name[|stem|..|stem| + 1 + |t|] == [c] + t
  {
  }

  /** In stem + S + t + ext the right-to-left search finds exactly the
      separator and the stamp t, when no match ends at the stem's end, no
      match lies in the extension, and no longer match runs from the stem
      into the stamp. */
  lemma {:induction false} RightToLeftMatchIsStamp(name: string, stem: string, t: string, ext: string, pat: StampPattern)
    requires name == stem + [pat.sep] + t + ext
    requires NameBound(pat) && Matches(pat, t) && pat.sep != '.'
    requires NoLedEnd(pat, stem) && (StampSplits(pat) || pat.sep !in stem)
    requires NoLedMatch(pat, ext)
    requires ext != [] ==> ext[0] == '.'
    ensures MatchRightToLeft(pat, name) == Some(Span(|stem|, |stem| + 1 + |t|))
  {
    var e0 := |stem| + 1 + |t|;
    PartsOfName(name, stem, pat.sep, t, ext);
    assert MatchesLed(pat, name[|stem|..e0]);
    NoMatchAfterStamp(name, stem, t, ext, pat);
    forall j | 0 <= j < |stem|
      ensures !MatchesLed(pat, name[j..e0])
    {
      LongerMatchIntoStem(name, stem, t, ext, pat, j);
    }
    MatchRightToLeftIsLast(pat, name);
  }

  /** No match ends inside the extension: the extension holds none, and one
      reaching into it from the left would hold its leading '.'. */
  lemma {:induction false} NoMatchAfterStamp(name: string, stem: string, t: string, ext: string, pat: StampPattern)
    requires name == stem + [pat.sep] + t + ext
    requires NameBound(pat) && pat.sep != '.'
    requires NoLedMatch(pat, ext)
    requires ext != [] ==> ext[0] == '.'
    ensures forall i, j {:trigger MatchesLed(pat, name[i..j])} ::
              0 <= i < j <= |name| && |stem| + 1 + |t| < j ==> !MatchesLed(pat, name[i..j])
  {
    var e0 := |stem| + 1 + |t|;
    PartsOfName(name, stem, pat.sep, t, ext);
    forall i, j | 0 <= i < j <= |name| && e0 < j
      ensures !MatchesLed(pat, name[i..j])
    {
      if e0 < i {
        assert name[i..j] == ext[i - e0..j - e0];
      } else {
        assert name[e0] == '.';
        assert name[i..j][0] == name[i];
        LedMatchHasNoDot(pat, name, i, j);
      }
    }
  }

  /** No match ending at the stamp's end starts inside the stem. */
  lemma {:induction false} LongerMatchIntoStem(name: string, stem: string, t: string, ext: string, pat: StampPattern, j: int)
    requires name == stem + [pat.sep] + t + ext
    requires Matches(pat, t)
    requires NoLedEnd(pat, stem) && (StampSplits(pat) || pat.sep !in stem)
    requires 0 <= j < |stem|
    ensures !MatchesLed(pat, name[j..|stem| + 1 + |t|])
  {
    var x := name[j..|stem| + 1 + |t|];
    var k := |stem| - j;
    PartsOfName(name, stem, pat.sep, t, ext);
    assert x[k..] == [pat.sep] + t;
    assert x[..k] == stem[j..];
    assert x[0] == stem[j];
    assert MatchesLed(pat, x[k..]);
    assert !MatchesLed(pat, x[..k]);
  }

  /** A file name made of stem, separator, stamp and extension holds that
      suffix stamp, and the stamp removal leaves the stem with its own
      matches removed, then the extension. */
  lemma {:induction false} SuffixFind(name: string, b: string, stem: string, t: string, ext: string, pat: StampPattern)
    requires b == RemoveMatchesRightToLeft(pat, stem) + ext
    requires name == stem + [pat.sep] + t + ext
    requires NameBound(pat) && Matches(pat, t) && pat.sep != '.'
    requires NoLedEnd(pat, stem) && (StampSplits(pat) || pat.sep !in stem)
    requires NoLedMatch(pat, ext)
    requires ext == [] ==> '.' !in stem
    requires ext != [] ==> ext[0] == '.' && '.' !in ext[1..] && !Matches(pat, ext[1..])
    ensures FindStamp(name, pat) == Success(Located(false, b, t))
  {
    var e0 := |stem| + 1 + |t|;
    assert name[..|stem|] == stem;
    assert name[|stem| + 1..e0] == t;
    assert name[e0..] == ext;
    NoExtensionMatch(name, stem, t, ext, pat);
    RightToLeftMatchIsStamp(name, stem, t, ext, pat);
    RemoveAt(pat, name, |stem|, e0);
  }

  /** A path whose file name is stem, separator, stamp and extension parses
      back to the stem with its own matches removed, the extension, and the
      stamp's pieces. */
  lemma {:induction false} SuffixNameParse(path: string, b: string, stem: string, t: string, ext: string, pat: StampPattern)
    requires b == RemoveMatchesRightToLeft(pat, stem) + ext
    requires GetFileName(path) == stem + [pat.sep] + t + ext
    requires NameBound(pat) && Matches(pat, t) && pat.sep != '.'
    requires NoLedEnd(pat, stem) && (StampSplits(pat) || pat.sep !in stem)
    requires NoLedMatch(pat, ext)
    requires ext == [] ==> '.' !in stem
    requires ext != [] ==> ext[0] == '.' && '.' !in ext[1..] && !Matches(pat, ext[1..])
    ensures ParseHelper(path, pat) == Success(Parsed(false, b, Split(t, pat.sep)))
  {
    var name := GetFileName(path);
    assert name[|stem| + 1..|stem| + 1 + |t|] == t;
    OccursInFileName(pat, path, |stem| + 1, t);
    SuffixFind(name, b, stem, t, ext, pat);
  }

  /** The other side of the suffix round trip: a separator-led match inside
      the stem is removed along with the stamp, so the name read back is
      shorter than stem + extension. */
  lemma {:induction false} StemMatchIsLost(path: string, stem: string, t: string, ext: string, pat: StampPattern, i: int, j: int)
    requires GetFileName(path) == stem + [pat.sep] + t + ext
    requires NameBound(pat) && Matches(pat, t) && pat.sep != '.'
    requires NoLedEnd(pat, stem) && (StampSplits(pat) || pat.sep !in stem)
    requires NoLedMatch(pat, ext)
    requires ext == [] ==> '.' !in stem
    requires ext != [] ==> ext[0] == '.' && '.' !in ext[1..] && !Matches(pat, ext[1..])
    requires 0 <= i < j <= |stem| && MatchesLed(pat, stem[i..j])
    ensures ParseHelper(path, pat).Success?
    ensures |ParseHelper(path, pat).value.fileName| < |stem| + |ext|
  {
    RemoveSomething(pat, stem, i, j);
    SuffixNameParse(path, RemoveMatchesRightToLeft(pat, stem) + ext, stem, t, ext, pat);
  }

  /** Extension mode reads back for every file name: the stamp follows the
      last '.', and the directory is untouched. */
  lemma {:induction false} ExtensionRoundTrip(fileName: string, t: string, pat: StampPattern)
    requires NameBound(pat) && Matches(pat, t)
    ensures var path := Stamped(fileName, pat.sep, true, t);
            ParseHelper(path, pat) == Success(Parsed(true, GetFileName(fileName), Split(t, pat.sep))) &&
            GetDirectoryName(path) == GetDirectoryName(fileName)
  {
    var path := Stamped(fileName, pat.sep, true, t);
    assert path == fileName + ("." + t);
    AppendToFileName(fileName, "." + t);
    ExtensionNameParse(path, GetFileName(fileName), t, pat);
  }

  /** A suffix-readable file name whose last '.' is in its file name splits
      into a readable stem and a '.'-led extension that is not a stamp and
      holds no separator-led match. */
  lemma {:induction false} SuffixReadableParts(fileName: string, pat: StampPattern)
    requires SuffixReadable(fileName, pat) && LastIndexOf(fileName, '.') >= 0
    ensures var dot := LastIndexOf(fileName, '.');
            var stem := fileName[LastIndexOf(fileName, '/') + 1..dot];
            var ext := fileName[dot..];
            && GetFileName(fileName) == stem + ext
            && StemReadable(pat, stem) && NoLedMatch(pat, ext)
            && ext[0] == '.' && '.' !in ext[1..] && !Matches(pat, ext[1..])
  {
    var dot := LastIndexOf(fileName, '.');
    var slash := LastIndexOf(fileName, '/');
    SliceSplit(fileName, slash + 1, dot);
    DropOfDrop(fileName, dot, 1);
  }

  /** The suffix-stamped form of a file name with a '.' inserts the
      separator-led stamp at the last '.'. */
  lemma {:induction false} SuffixStampedAtDot(fileName: string, t: string, pat: StampPattern)
    requires '/' !in t && pat.sep != '/'
    requires LastIndexOf(fileName, '/') < LastIndexOf(fileName, '.')
    ensures var dot := LastIndexOf(fileName, '.');
            var path := Stamped(fileName, pat.sep, false, t);
            && GetFileName(path) == fileName[LastIndexOf(fileName, '/') + 1..dot] + [pat.sep] + t + fileName[dot..]
            && GetDirectoryName(path) == GetDirectoryName(fileName)
  {
    var dot := LastIndexOf(fileName, '.');
    var lead := [pat.sep] + t;
    assert Stamped(fileName, pat.sep, false, t) == fileName[..dot] + lead + fileName[dot..];
    InsertIntoFileName(fileName, dot, lead);
    ConcatAssoc(fileName[LastIndexOf(fileName, '/') + 1..dot], [pat.sep], t, fileName[dot..]);
  }

  /** The suffix round trip for a file name without a '.': the stamp is
      appended. */
  lemma {:induction false} SuffixRoundTripNoDot(fileName: string, t: string, pat: StampPattern)
    requires NameBound(pat) && Matches(pat, t) && SuffixReadable(fileName, pat)
    requires pat.sep != '.' && pat.sep != '/'
    requires LastIndexOf(fileName, '.') == -1
    ensures var path := Stamped(fileName, pat.sep, false, t);
            ParseHelper(path, pat) == Success(Parsed(false, GetFileName(fileName), Split(t, pat.sep))) &&
            GetDirectoryName(path) == GetDirectoryName(fileName)
  {
    var lead := [pat.sep] + t;
    assert Stamped(fileName, pat.sep, false, t) == fileName + lead;
    assert '/' !in lead;
    AppendToFileName(fileName, lead);
    NotInSlice(fileName, '.', |fileName| - |GetFileName(fileName)|, |fileName|);
    assert GetFileName(fileName) + lead == GetFileName(fileName) + [pat.sep] + t + [];
    assert GetFileName(fileName) == GetFileName(fileName) + [];
    RemoveNothing(pat, GetFileName(fileName));
    NoLedMatchHasNoLedEnd(pat, GetFileName(fileName));
    SuffixNameParse(Stamped(fileName, pat.sep, false, t), GetFileName(fileName), GetFileName(fileName), t, [], pat);
  }

  /** The suffix round trip for a file name whose last '.' is in its file
      name: the stamp goes between stem and extension. */
  lemma {:induction false} SuffixRoundTripAtDot(fileName: string, t: string, pat: StampPattern)
    requires NameBound(pat) && Matches(pat, t) && SuffixReadable(fileName, pat)
    requires pat.sep != '.' && pat.sep != '/'
    requires LastIndexOf(fileName, '.') >= 0
    ensures var path := Stamped(fileName, pat.sep, false, t);
            ParseHelper(path, pat) == Success(Parsed(false, GetFileName(fileName), Split(t, pat.sep))) &&
            GetDirectoryName(path) == GetDirectoryName(fileName)
  {
    var stem := fileName[LastIndexOf(fileName, '/') + 1..LastIndexOf(fileName, '.')];
    SuffixReadableParts(fileName, pat);
    SuffixStampedAtDot(fileName, t, pat);
    RemoveNothing(pat, stem);
    NoLedMatchHasNoLedEnd(pat, stem);
    SuffixNameParse(Stamped(fileName, pat.sep, false, t), GetFileName(fileName),
                    fileName[LastIndexOf(fileName, '/') + 1..LastIndexOf(fileName, '.')], t,
                    fileName[LastIndexOf(fileName, '.')..], pat);
  }

  /** Suffix mode reads back for a file name that is suffix-readable: the
      stamp is found between the stem and the extension, and removing it
      restores the file name. */
  lemma {:induction false} SuffixRoundTrip(fileName: string, t: string, pat: StampPattern)
    requires NameBound(pat) && Matches(pat, t) && SuffixReadable(fileName, pat)
    requires pat.sep != '.' && pat.sep != '/'
    ensures var path := Stamped(fileName, pat.sep, false, t);
            ParseHelper(path, pat) == Success(Parsed(false, GetFileName(fileName), Split(t, pat.sep))) &&
            GetDirectoryName(path) == GetDirectoryName(fileName)
  {
    if LastIndexOf(fileName, '.') == -1 {
      SuffixRoundTripNoDot(fileName, t, pat);
    } else {
      SuffixRoundTripAtDot(fileName, t, pat);
    }
  }

  /** The last-'.' quirk: when the file name's last '.' is in its directory,
      the suffix stamp is inserted into the directory and the stamped path
      cannot be parsed. */
  lemma {:induction false} DotInDirectoryIsUnreadable(fileName: string, t: string, pat: StampPattern)
    requires NameBound(pat) && Matches(pat, t)
    requires pat.sep != '.' && pat.sep != '/'
    requires 0 <= LastIndexOf(fileName, '.') < LastIndexOf(fileName, '/')
    requires NoLedMatch(pat, GetFileName(fileName))
    ensures ParseHelper(Stamped(fileName, pat.sep, false, t), pat) == Failure(InvalidOperation)
  {
    var dot := LastIndexOf(fileName, '.');
    var path := Stamped(fileName, pat.sep, false, t);
    var lead := [pat.sep] + t;
    assert path == fileName[..dot] + lead + fileName[dot..];
    assert path[dot + 1..dot + 1 + |t|] == t;
    OccursAt(pat, path, dot + 1, t);
    InsertBeforeFileName(fileName, dot, lead);
    NoDotInFileName(fileName);
    MatchExtensionIsLeftmost(pat, GetFileName(fileName));
    NoMatchIff(pat, GetFileName(fileName));
  }

  /** A path whose last '.' is before its last '/' has no '.' in its file name. */
  lemma {:induction false} NoDotInFileName(p: string)
    requires LastIndexOf(p, '.') < LastIndexOf(p, '/')
    ensures '.' !in GetFileName(p)
  {
    var dot := LastIndexOf(p, '.');
    var slash := LastIndexOf(p, '/');
    if dot >= 0 {
      assert GetFileName(p) == p[dot + 1..][slash - dot..];
      NotInSlice(p[dot + 1..], '.', slash - dot, |p| - dot - 1);
    }
  }

  // ---------------------------------------------------------------------
  // Round trip of a whole formatted name

  /** The stamp matches its pattern when the formatted stamp value matches
      the pattern's core: the counter, when present, is the optional
      separator-and-digits tail. */
  lemma {:induction false} StampTextMatches<T>(f: Fields<T>, format: (T, char) -> string, pat: StampPattern)
    requires f.counter >= 0 && pat.sep == f.separator
    requires CoreMatches(pat.core, pat.sep, format(f.stampValue, f.separator))
    ensures Matches(pat, StampText(f, format))
  {
    if f.counter > 0 {
      var v := format(f.stampValue, f.separator);
      var t := StampText(f, format);
      assert t == v + [f.separator] + NatToString(f.counter);
      assert t[..|v|] == v && t[|v|] == pat.sep && t[|v| + 1..] == NatToString(f.counter);
      assert CoreMatches(pat.core, pat.sep, t[..|v|]) && IsDigits(t[|v| + 1..]);
    } else {
      assert StampText(f, format) == format(f.stampValue, f.separator);
    }
  }

  /** A formatted stamp value without the separator splits off as the first
      piece, and the counter, when present, is the second. */
  lemma {:induction false} StampTextSplit<T>(f: Fields<T>, format: (T, char) -> string)
    requires f.counter >= 0 && !IsDigit(f.separator)
    requires f.separator !in format(f.stampValue, f.separator)
    ensures Split(StampText(f, format), f.separator) ==
      [format(f.stampValue, f.separator)] + (if f.counter == 0 then [] else [NatToString(f.counter)])
  {
    var v := format(f.stampValue, f.separator);
    if f.counter == 0 {
      assert StampText(f, format) == v;
      SplitWithoutSeparator(v, f.separator);
    } else {
      assert StampText(f, format) == v + [f.separator] + NatToString(f.counter);
      SplitAfterHead(v, f.separator, NatToString(f.counter));
      SplitWithoutSeparator(NatToString(f.counter), f.separator);
    }
  }

  /** ParseHelper reads a formatted name back: the mode, the file name
      without its directory and the stamp's pieces, with the directory
      untouched, in extension mode always and in suffix mode for a
      suffix-readable file name. */
  lemma {:induction false} FormatRoundTrip<T>(f: Fields<T>, format: (T, char) -> string, pat: StampPattern)
    requires f.counter >= 0 && pat.sep == f.separator && pat.sep != '.' && pat.sep != '/'
    requires NameBound(pat) && Matches(pat, StampText(f, format))
    requires !f.stampAsExtension ==> SuffixReadable(f.fileName, pat)
    ensures ParseHelper(Format(f, format), pat) ==
      Success(Parsed(f.stampAsExtension, GetFileName(f.fileName), Split(StampText(f, format), pat.sep)))
    ensures GetDirectoryName(Format(f, format)) == GetDirectoryName(f.fileName)
  {
    if f.stampAsExtension {
      ExtensionRoundTrip(f.fileName, StampText(f, format), pat);
    } else {
      SuffixRoundTrip(f.fileName, StampText(f, format), pat);
    }
  }

  // ---------------------------------------------------------------------
  // The object

  /** A stamped file name whose properties are set in place. `formatStampValue`
      is the overridable FormatStampValue, given the stamp value and the
      separator. */
  class StampedFileNameBase<T> {
    var fileName: string
    var stampValue: T
    var separator: char
    var stampAsExtension: bool
    var counter: int
    const formatStampValue: (T, char) -> string

    ghost predicate Valid()
      reads this
    {
      ValidFields(State())
    }

    function State(): Fields<T>
      reads this
    {
      Fields(fileName, stampValue, separator, stampAsExtension, counter)
    }

    /** The constructor, for arguments the setters accept. */
    constructor (fileName: string, stampValue: T, separator: char, extension: bool, counter: int,
                 formatStampValue: (T, char) -> string)
      requires !IsBlank(fileName) && IsInt32(counter)
      ensures Valid()
      ensures State() == Fields(fileName, stampValue, separator, extension, ClampCounter(counter))
      ensures this.formatStampValue == formatStampValue
    {
      this.fileName := fileName;
      this.stampValue := stampValue;
      this.separator := separator;
      this.stampAsExtension := extension;
      this.counter := ClampCounter(counter);
      this.formatStampValue := formatStampValue;
    }

    /** The FileName setter: ArgumentException for a blank name, which is
        then not stored. */
    method SetFileName(value: string) returns (err: Option<Error>)
      modifies this
      ensures err == (if IsBlank(value) then Some(ArgumentError) else None)
      ensures State() == if IsBlank(value) then old(State()) else old(State()).(fileName := value)
      ensures old(Valid()) ==> Valid()
    {
      if IsBlank(value) {
        return Some(ArgumentError);
      }
      fileName := value;
      return None;
    }

    /** The Separator setter: a char always converts to a one-character
        string, so its emptiness check never fires. */
    method SetSeparator(value: char)
      modifies this
      ensures State() == old(State()).(separator := value)
      ensures old(Valid()) ==> Valid()
    {
      separator := value;
    }

    /** The Counter setter. */
    method SetCounter(value: int)
      requires IsInt32(value)
      modifies this
      ensures State() == old(State()).(counter := ClampCounter(value))
      ensures old(Valid()) ==> Valid()
    {
      counter := ClampCounter(value);
    }

    /** ToString(). */
    method ToString() returns (name: string)
      requires Valid()
      ensures name == Format(State(), formatStampValue)
    {
      name := Format(State(), formatStampValue);
    }

    /** Deconstruct(out filename, out stampValue, out counter). */
    method Deconstruct() returns (fileName: string, stampValue: T, counter: int)
      ensures fileName == this.fileName && stampValue == this.stampValue && counter == this.counter
    {
      fileName, stampValue, counter := this.fileName, this.stampValue, this.counter;
    }

    /** ToStringWithRetry(): while the stamped name is among the existing
        files, Counter++ (which wraps from Int32.MaxValue to a negative value
        that the setter turns into 0). `free` is a counter whose name is not
        taken; without one the loop never ends. The name returned is not
        taken, and every counter passed over, in cyclic order from the
        original one, is. */
    method ToStringWithRetry(existing: set<string>, ghost free: int) returns (name: string)
      requires Valid()
      requires 0 <= free <= MaxInt32 && Format(State().(counter := free), formatStampValue) !in existing
      modifies this
      ensures Valid()
      ensures State() == old(State()).(counter := counter)
      ensures name == Format(State(), formatStampValue) && name !in existing
      ensures forall k :: Passed(old(counter), counter, k) ==> Format(old(State()).(counter := k), formatStampValue) in existing
    {
      ghost var f0 := State();
      ghost var start := counter;
      while true
        invariant 0 <= counter <= MaxInt32
        invariant State() == f0.(counter := counter)
        invariant start <= counter && start <= free ==> counter <= free
        invariant counter < start ==> counter <= free < start
        invariant forall k :: Passed(start, counter, k) ==> Format(f0.(counter := k), formatStampValue) in existing
        decreases if counter < start then 0 else 1, MaxInt32 - counter
      {
        name := ToString();
        if name in existing {
          assert counter != free;
          ghost var c := counter;
          counter := NextCounter(counter);
          forall k | Passed(start, counter, k)
            ensures Format(f0.(counter := k), formatStampValue) in existing
          {
            PassedStep(start, c, k);
          }
        } else {
          break;
        }
      }
    }
  }

  /** The counters the retry loop has passed over, in cyclic order from
      `start` up to `counter`: once the counter has wrapped below `start`,
      on to Int32.MaxValue and then from 0. */
  ghost predicate Passed(start: int, counter: int, k: int) {
    if counter < start then start <= k <= MaxInt32 || 0 <= k < counter else start <= k < counter
  }

  /** A counter passed over after one more step is the one just tried or
      one passed over before. */
  lemma {:induction false} PassedStep(start: int, c: int, k: int)
    requires 0 <= c <= MaxInt32
    requires Passed(start, NextCounter(c), k)
    ensures k == c || Passed(start, c, k)
  {
  }

  /** Counter++ followed by the Counter setter: Int32 addition wraps
      Int32.MaxValue to Int32.MinValue, which the setter stores as 0. */
  function NextCounter(c: int): (n: int)
    requires 0 <= c <= MaxInt32
    ensures n == if c == MaxInt32 then 0 else c + 1
  {
    ClampCounter(WrapInt32(c + 1))
  }

  /** The constructor's checks on their own: the FileName setter rejects a
      blank name with ArgumentException and the Counter setter clamps. */
  function Construct<T>(fileName: string, stampValue: T, separator: char, extension: bool, counter: int): (r: Result<Fields<T>, Error>)
    requires IsInt32(counter)
    ensures r.Failure? <==> IsBlank(fileName)
    ensures r.Failure? ==> r.error == ArgumentError
    ensures r.Success? ==> ValidFields(r.value) && r.value.fileName == fileName && r.value.stampValue == stampValue
    ensures r.Success? ==> r.value.separator == separator && r.value.stampAsExtension == extension
    ensures r.Success? ==> r.value.counter == (if counter < 0 then 0 else counter)
  {
    if IsBlank(fileName) then Failure(ArgumentError)
    else Success(Fields(fileName, stampValue, separator, extension, ClampCounter(counter)))
  }

  /** `new` with the FileName setter's check: ArgumentException for a blank
      file name; the counter is clamped. */
  method New<T>(fileName: string, stampValue: T, separator: char, extension: bool, counter: int,
                formatStampValue: (T, char) -> string)
    returns (r: Result<StampedFileNameBase<T>, Error>)
    requires IsInt32(counter)
    ensures r.Failure? <==> Construct(fileName, stampValue, separator, extension, counter).Failure?
    ensures r.Failure? ==> r.error == ArgumentError
    ensures r.Success? ==>
      && fresh(r.value) && r.value.Valid()
      && r.value.State() == Construct(fileName, stampValue, separator, extension, counter).value
      && r.value.formatStampValue == formatStampValue
  {
    if IsBlank(fileName) {
      return Failure(ArgumentError);
    }
    var o := new StampedFileNameBase(fileName, stampValue, separator, extension, counter, formatStampValue);
    return Success(o);
  }

  // ---------------------------------------------------------------------
  // Retry names

  /** The same file name stamped with two different stamps gives two
      different names. */
  lemma {:induction false} StampedInjective(fileName: string, separator: char, asExtension: bool, s1: string, s2: string)
    requires s1 != s2
    ensures Stamped(fileName, separator, asExtension, s1) != Stamped(fileName, separator, asExtension, s2)
  {
    if |s1| == |s2| {
      StampedLayout(fileName, separator, asExtension, s1);
      StampedLayout(fileName, separator, asExtension, s2);
    }
  }

  /** Different counters give different stamps. */
  lemma {:induction false} StampTextInjective<T>(f: Fields<T>, format: (T, char) -> string, j: int, k: int)
    requires 0 <= j < k
    ensures StampText(f.(counter := j), format) != StampText(f.(counter := k), format)
  {
    var v := format(f.stampValue, f.separator);
    var sj := StampText(f.(counter := j), format);
    var sk := StampText(f.(counter := k), format);
    if j > 0 {
      assert sj[|v| + 1..] == NatToString(j);
      assert sk[|v| + 1..] == NatToString(k);
      assert NatToString(j) != NatToString(k);
    }
  }

  /** Distinct counters give distinct stamped names, so the retry loop
      never proposes the same name twice. */
  lemma {:induction false} RetryNamesDistinct<T>(f: Fields<T>, format: (T, char) -> string, j: int, k: int)
    requires 0 <= j < k
    ensures Format(f.(counter := j), format) != Format(f.(counter := k), format)
  {
    StampTextInjective(f, format, j, k);
    StampedInjective(f.fileName, f.separator, f.stampAsExtension,
                     StampText(f.(counter := j), format), StampText(f.(counter := k), format));
  }
}
