/** The regular expressions the stamped-filename parser builds, and the three
    System.Text.RegularExpressions operations it applies to them. A pattern is
    described by the strings it matches as a whole; each search operation is
    defined by the match the .NET engine reports. */
module StampRegex {
  import opened Outcomes
  import opened Text

  /** The part of a stamp pattern before the optional counter. */
  datatype Core =
    | DateCore                        // \d{8}
    | DateTimeCore                    // \d{8}S\d{6}
    | ValueCore(value: string -> bool) // a caller's pattern, by the strings it matches

  /** The stamp pattern `core(S[0-9]+)?` for the separator S. */
  datatype StampPattern = StampPattern(core: Core, sep: char)

  /** The regular expression `\d{8}`. */
  predicate IsEightDigits(s: string) {
    |s| == 8 && IsDigits(s)
  }

  /** The regular expression `\d{8}S\d{6}`. */
  predicate IsDateTimeDigits(s: string, sep: char) {
    |s| == 15 && s[8] == sep && forall i :: 0 <= i < 15 && i != 8 ==> IsDigit(s[i])
  }

  predicate CoreMatches(core: Core, sep: char, s: string) {
    match core
    case DateCore => IsEightDigits(s)
    case DateTimeCore => IsDateTimeDigits(s, sep)
    case ValueCore(value) => value(s)
  }

  /** s is matched as a whole by `core(S[0-9]+)?`. */
  predicate Matches(pat: StampPattern, s: string) {
    || CoreMatches(pat.core, pat.sep, s)
    || exists k {:trigger CoreMatches(pat.core, pat.sep, s[..k])} | 0 <= k < |s| :: s[k] == pat.sep && CoreMatches(pat.core, pat.sep, s[..k]) && IsDigits(s[k + 1..])
  }

  /** s is matched as a whole by `S` followed by the stamp pattern. */
  predicate MatchesLed(pat: StampPattern, s: string) {
    |s| > 0 && s[0] == pat.sep && Matches(pat, s[1..])
  }

  /** No part of s is matched by `S` followed by the stamp pattern. */
  predicate NoLedMatch(pat: StampPattern, s: string) {
    forall i, j {:trigger MatchesLed(pat, s[i..j])} :: 0 <= i < j <= |s| ==> !MatchesLed(pat, s[i..j])
  }

  /** No end part of s is matched by `S` followed by the stamp pattern. */
  predicate NoLedEnd(pat: StampPattern, s: string) {
    forall j {:trigger MatchesLed(pat, s[j..])} :: 0 <= j < |s| ==> !MatchesLed(pat, s[j..])
  }

  /** A separator-led match that ends with a separator-led match is cut by it
      into two: a match running into the text before a stamp is always the
      stamp and a match ending just before it. */
  ghost predicate StampSplits(pat: StampPattern) {
    forall x, k {:trigger MatchesLed(pat, x[..k]), MatchesLed(pat, x[k..])} ::
      0 < k < |x| && MatchesLed(pat, x) && MatchesLed(pat, x[k..]) ==> MatchesLed(pat, x[..k])
  }

  lemma {:induction false} NoLedMatchHasNoLedEnd(pat: StampPattern, s: string)
    requires NoLedMatch(pat, s)
    ensures NoLedEnd(pat, s)
  {
    forall j | 0 <= j < |s|
      ensures !MatchesLed(pat, s[j..])
    {
      assert s[j..] == s[j..|s|];
    }
  }

  /** Text without the separator holds no separator-led match. */
  lemma {:induction false} NoSeparatorNoLedMatch(pat: StampPattern, s: string)
    requires pat.sep !in s
    ensures NoLedMatch(pat, s)
  {
    forall i, j | 0 <= i < j <= |s|
      ensures !MatchesLed(pat, s[i..j])
    {
      assert s[i..j][0] == s[i];
    }
  }

  // ---------------------------------------------------------------------
  // Regex.IsMatch(input, pattern)

  /** Regex.IsMatch: some substring of s is matched by the pattern. */
  predicate Occurs(pat: StampPattern, s: string) {
    exists i, j {:trigger Matches(pat, s[i..j])} | 0 <= i <= j <= |s| :: Matches(pat, s[i..j])
  }

  // ---------------------------------------------------------------------
  // Regex.Match(input, @"\." + pattern + "$")

  function ExtensionFrom(pat: StampPattern, s: string, k: nat): (i: int)
    requires k <= |s|
    ensures i == -1 || k <= i < |s|
    ensures i >= 0 ==> s[i] == '.' && Matches(pat, s[i + 1..])
    ensures forall j {:trigger Matches(pat, s[j + 1..])} :: k <= j < |s| && (i == -1 || j < i) && s[j] == '.' ==> !Matches(pat, s[j + 1..])
    decreases |s| - k
  {
    if k == |s| then -1
    else if s[k] == '.' && Matches(pat, s[k + 1..]) then k
    else ExtensionFrom(pat, s, k + 1)
  }

  /** Regex.Match(s, @"\." + pattern + "$"), reading `$` as the end of s: the
      leftmost '.' after which the rest of s is a stamp; -1 when there is none. */
  function MatchExtension(pat: StampPattern, s: string): (i: int)
    ensures -1 <= i < |s|
    ensures i >= 0 ==> s[i] == '.' && Matches(pat, s[i + 1..])
  {
    ExtensionFrom(pat, s, 0)
  }

  /** The extension match is the leftmost one, and there is none exactly
      when no '.' is followed by a stamp up to the end. */
  lemma {:induction false} MatchExtensionIsLeftmost(pat: StampPattern, s: string)
    ensures var i := MatchExtension(pat, s);
            i >= 0 ==> forall j {:trigger Matches(pat, s[j + 1..])} :: 0 <= j < i && s[j] == '.' ==> !Matches(pat, s[j + 1..])
    ensures MatchExtension(pat, s) == -1 <==>
            forall j {:trigger Matches(pat, s[j + 1..])} :: 0 <= j < |s| && s[j] == '.' ==> !Matches(pat, s[j + 1..])
  {
    var i := ExtensionFrom(pat, s, 0);
    if i >= 0 {
      assert s[i] == '.' && Matches(pat, s[i + 1..]);
    }
  }

  // ---------------------------------------------------------------------
  // Regex.Match(input, S + pattern, RegexOptions.RightToLeft)

  /** A span s[start..end] of the input. */
  datatype Span = Span(start: int, end: int)

  /** The least start of a match of `S` + pattern ending at e, from `from` on; -1
      when there is none. */
  function LongestEndingAt(pat: StampPattern, s: string, e: nat, from: nat): (st: int)
    requires from <= e <= |s|
    ensures st == -1 || from <= st < e
    ensures st >= 0 ==> MatchesLed(pat, s[st..e])
    ensures forall j {:trigger MatchesLed(pat, s[j..e])} :: from <= j < e && (st == -1 || j < st) ==> !MatchesLed(pat, s[j..e])
    decreases e - from
  {
    if from == e then -1
    else if MatchesLed(pat, s[from..e]) then from
    else LongestEndingAt(pat, s, e, from + 1)
  }

  /** The right-to-left search from end e downwards: the last end at which a
      match finishes, with the longest match there. */
  function LastMatchUpTo(pat: StampPattern, s: string, e: nat): (m: Option<Span>)
    requires e <= |s|
    ensures m.Some? ==> 0 <= m.value.start < m.value.end <= e
    ensures m.Some? ==> MatchesLed(pat, s[m.value.start..m.value.end])
    ensures m.Some? ==> forall j {:trigger MatchesLed(pat, s[j..m.value.end])} :: 0 <= j < m.value.start ==> !MatchesLed(pat, s[j..m.value.end])
    ensures forall i, j {:trigger MatchesLed(pat, s[i..j])} :: 0 <= i < j <= e && (m.None? || m.value.end < j) ==> !MatchesLed(pat, s[i..j])
  {
    var st := LongestEndingAt(pat, s, e, 0);
    if st >= 0 then Some(Span(st, e))
    else if e == 0 then None
    else LastMatchUpTo(pat, s, e - 1)
  }

  /** Regex.Match(s, S + pattern, RegexOptions.RightToLeft): the match with
      the greatest end and, among those, the earliest start. For the date and
      date/time patterns this is the greedy match the engine reports. */
  function MatchRightToLeft(pat: StampPattern, s: string): (m: Option<Span>)
    ensures m.Some? ==> 0 <= m.value.start < m.value.end <= |s|
    ensures m.Some? ==> MatchesLed(pat, s[m.value.start..m.value.end])
  {
    LastMatchUpTo(pat, s, |s|)
  }

  /** No match ends after the right-to-left match, and none that ends
      where it ends starts before it; with no match, nothing matches. */
  lemma {:induction false} MatchRightToLeftIsLast(pat: StampPattern, s: string)
    ensures var m := MatchRightToLeft(pat, s);
            m.Some? ==> forall j {:trigger MatchesLed(pat, s[j..m.value.end])} :: 0 <= j < m.value.start ==> !MatchesLed(pat, s[j..m.value.end])
    ensures var m := MatchRightToLeft(pat, s);
            forall i, j {:trigger MatchesLed(pat, s[i..j])} :: 0 <= i < j <= |s| && (m.None? || m.value.end < j) ==> !MatchesLed(pat, s[i..j])
  {
    var m := LastMatchUpTo(pat, s, |s|);
  }

  /** The right-to-left search finds nothing exactly when no part of s is a
      separator-led match. */
  lemma {:induction false} NoMatchIff(pat: StampPattern, s: string)
    ensures MatchRightToLeft(pat, s).None? <==> NoLedMatch(pat, s)
  {
    MatchRightToLeftIsLast(pat, s);
    var m := MatchRightToLeft(pat, s);
    if m.Some? {
      assert MatchesLed(pat, s[m.value.start..m.value.end]);
    }
  }

  // ---------------------------------------------------------------------
  // Regex.Replace(input, S + pattern, "", RegexOptions.RightToLeft)

  /** Regex.Replace with RightToLeft and an empty replacement: every match is
      removed, the search resuming to the left of each match removed. */
  function RemoveMatchesRightToLeft(pat: StampPattern, s: string): (r: string)
    ensures |r| <= |s|
    ensures r == s <==> MatchRightToLeft(pat, s).None?
    ensures MatchRightToLeft(pat, s).Some? ==>
      var tail := s[MatchRightToLeft(pat, s).value.end..];
      |r| < |s| && |tail| <= |r| && r[|r| - |tail|..] == tail
    decreases |s|
  {
    match MatchRightToLeft(pat, s)
    case None => s
    case Some(m) => RemoveMatchesRightToLeft(pat, s[..m.start]) + s[m.end..]
  }

  /** The right-to-left removal takes out the last match and goes on with
      what precedes it, keeping what follows it. */
  lemma {:induction false} RemoveAt(pat: StampPattern, s: string, start: int, end: int)
    requires MatchRightToLeft(pat, s) == Some(Span(start, end))
    ensures RemoveMatchesRightToLeft(pat, s) == RemoveMatchesRightToLeft(pat, s[..start]) + s[end..]
  {
  }

  /** Text holding no separator-led match is left as it is. */
  lemma {:induction false} RemoveNothing(pat: StampPattern, s: string)
    requires NoLedMatch(pat, s)
    ensures RemoveMatchesRightToLeft(pat, s) == s
  {
    NoMatchIff(pat, s);
  }

  /** Text holding a separator-led match loses at least one character. */
  lemma {:induction false} RemoveSomething(pat: StampPattern, s: string, i: int, j: int)
    requires 0 <= i < j <= |s| && MatchesLed(pat, s[i..j])
    ensures |RemoveMatchesRightToLeft(pat, s)| < |s|
  {
    NoMatchIff(pat, s);
  }
}
