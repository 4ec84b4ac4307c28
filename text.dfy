/** Characters, decimal text, 32-bit integers and splitting, as the .NET
    string and conversion APIs used by the stamped-filename code behave. */
module Text {
  import opened Outcomes

  // ---------------------------------------------------------------------
  // System.Int32

  const MinInt32: int := -0x8000_0000
  const MaxInt32: int := 0x7FFF_FFFF

  predicate IsInt32(x: int) {
    MinInt32 <= x <= MaxInt32
  }

  /** Unchecked 32-bit two's-complement arithmetic: the result is congruent
      to x modulo 2^32 and lies in the Int32 range. */
  function WrapInt32(x: int): (r: int)
    ensures IsInt32(r)
    ensures (r - x) % 0x1_0000_0000 == 0
    ensures IsInt32(x) ==> r == x
  {
    (x - MinInt32) % 0x1_0000_0000 + MinInt32
  }

  // ---------------------------------------------------------------------
  // Characters

  /** The ASCII decimal digits, `[0-9]`. */
  predicate IsDigit(c: char) {
    '0' <= c <= '9'
  }

  /** A non-empty run of ASCII digits, `[0-9]+`. */
  predicate IsDigits(s: string) {
    |s| > 0 && forall i :: 0 <= i < |s| ==> IsDigit(s[i])
  }

  /** char.IsWhiteSpace: the Unicode space separators, the line and
      paragraph separators, U+0009 to U+000D and U+0085. None of them is a
      digit, a dot, a path separator or the default stamp separator. */
  predicate IsWhiteSpace(c: char)
    ensures IsWhiteSpace(c) ==> !IsDigit(c) && c != '.' && c != '/' && c != '_'
  {
    || c == ' ' || '\t' <= c <= '\r' || c == '\U{0085}' || c == '\U{00A0}'
    || c == '\U{1680}' || '\U{2000}' <= c <= '\U{200A}' || c == '\U{2028}'
    || c == '\U{2029}' || c == '\U{202F}' || c == '\U{205F}' || c == '\U{3000}'
  }

  /** string.IsNullOrEmpty(s) || string.IsNullOrWhiteSpace(s), for a non-null s:
      the empty string is blank, and a blank string holds no digit, no dot
      and no path separator, so it carries neither a stamp nor an extension. */
  predicate IsBlank(s: string)
    ensures s == [] ==> IsBlank(s)
    ensures IsBlank(s) ==> forall i :: 0 <= i < |s| ==> !IsDigit(s[i]) && s[i] != '.' && s[i] != '/'
  {
    forall i :: 0 <= i < |s| ==> IsWhiteSpace(s[i])
  }

  // ---------------------------------------------------------------------
  // Decimal text

  function DigitChar(d: nat): (c: char)
    requires d < 10
    ensures IsDigit(c)
  {
    ('0' as int + d) as char
  }

  function DigitValue(c: char): (d: nat)
    requires IsDigit(c)
    ensures d < 10 && DigitChar(d) == c
  {
    c as int - '0' as int
  }

  /** The number a string of decimal digits denotes (leading zeros allowed). */
  function DigitsValue(s: string): nat
    requires forall i :: 0 <= i < |s| ==> IsDigit(s[i])
  {
    if s == [] then 0 else DigitsValue(s[..|s| - 1]) * 10 + DigitValue(s[|s| - 1])
  }

  function Pow10(n: nat): (p: nat)
    ensures p >= 1
  {
    if n == 0 then 1 else 10 * Pow10(n - 1)
  }

  /** Int32.ToString() of a non-negative value: its decimal digits, with no
      leading zero. */
  function NatToString(n: nat): (s: string)
    ensures IsDigits(s)
    ensures s[0] == '0' ==> s == "0"
    ensures DigitsValue(s) == n
  {
    if n < 10 then [DigitChar(n)]
    else
      var s := NatToString(n / 10) + [DigitChar(n % 10)];
      assert s[..|s| - 1] == NatToString(n / 10);
      s
  }

  /** A custom-format field such as "yyyy" or "MM": n written in exactly
      `width` digits, padded with leading zeros. */
  function ZeroPadded(n: nat, width: nat): (s: string)
    requires n < Pow10(width)
    ensures |s| == width
    ensures forall i :: 0 <= i < |s| ==> IsDigit(s[i])
    ensures DigitsValue(s) == n
  {
    if width == 0 then ""
    else
      var s := ZeroPadded(n / 10, width - 1) + [DigitChar(n % 10)];
      assert s[..|s| - 1] == ZeroPadded(n / 10, width - 1);
      s
  }

  // ---------------------------------------------------------------------
  // Convert.ToInt32(string): NumberStyles.Integer with the invariant culture

  /** The white space NumberStyles.AllowLeadingWhite and AllowTrailingWhite skip. */
  predicate IsNumberWhite(c: char) {
    c == ' ' || '\t' <= c <= '\r'
  }

  function TrimNumberWhite(s: string): (t: string)
    ensures |t| <= |s|
    ensures |t| > 0 ==> !IsNumberWhite(t[0]) && !IsNumberWhite(t[|t| - 1])
    ensures (forall i :: 0 <= i < |s| ==> !IsNumberWhite(s[i])) ==> t == s
    decreases |s|
  {
    if |s| > 0 && IsNumberWhite(s[0]) then TrimNumberWhite(s[1..])
    else if |s| > 0 && IsNumberWhite(s[|s| - 1]) then TrimNumberWhite(s[..|s| - 1])
    else s
  }

  /** Convert.ToInt32: optional white space around an optional sign and at
      least one digit; FormatException otherwise, OverflowException when the
      value is outside the Int32 range. */
  function ToInt32(s: string): (r: Result<int, Error>)
    ensures r.Success? ==> IsInt32(r.value)
    ensures r.Failure? ==> r.error == FormatError || r.error == OverflowError
    ensures IsDigits(s) ==>
      r == (if DigitsValue(s) <= MaxInt32 then Success(DigitsValue(s)) else Failure(OverflowError))
    ensures (forall i :: 0 <= i < |s| ==> !IsDigit(s[i])) ==> r == Failure(FormatError)
  {
    var t := TrimNumberWhite(s);
    var negative := |t| > 0 && t[0] == '-';
    var body := if |t| > 0 && (t[0] == '-' || t[0] == '+') then t[1..] else t;
    TrimmedIsInfix(s);
    assert |body| > 0 ==> body[0] in t;
    if !IsDigits(body) then Failure(FormatError)
    else
      var magnitude: int := DigitsValue(body);
      var v := if negative then -magnitude else magnitude;
      if IsInt32(v) then Success(v) else Failure(OverflowError)
  }

  lemma {:induction false} TrimmedIsInfix(s: string)
    ensures forall c :: c in TrimNumberWhite(s) ==> c in s
    decreases |s|
  {
    if |s| > 0 && IsNumberWhite(s[0]) {
      TrimmedIsInfix(s[1..]);
    } else if |s| > 0 && IsNumberWhite(s[|s| - 1]) {
      TrimmedIsInfix(s[..|s| - 1]);
    }
  }

  /** The counter round trip: Convert.ToInt32 reads back what Int32.ToString wrote. */
  lemma {:induction false} ToInt32OfNatToString(n: nat)
    requires n <= MaxInt32
    ensures ToInt32(NatToString(n)) == Success(n)
  {
  }

  // ---------------------------------------------------------------------
  // Slices of concatenations

  lemma {:induction false} DropOfConcat(a: string, b: string, n: int)
    requires 0 <= n <= |a|
    ensures (a + b)[n..] == a[n..] + b
  {
  }

  lemma {:induction false} SliceSplit(s: string, a: int, k: int)
    requires 0 <= a <= k <= |s|
    ensures s[a..] == s[a..k] + s[k..]
  {
  }

  lemma {:induction false} NotInSubslices(s: string, c: char, a: int, k: int)
    requires 0 <= a <= k <= |s| && c !in s[a..]
    ensures c !in s[a..k] && c !in s[k..]
  {
    forall j | 0 <= j < k - a
      ensures s[a..k][j] != c
    {
      assert s[a..k][j] == s[a..][j];
    }
    forall j | 0 <= j < |s| - k
      ensures s[k..][j] != c
    {
      assert s[k..][j] == s[a..][j + k - a];
    }
  }

  lemma {:induction false} DropOfDrop(s: string, a: int, b: int)
    requires 0 <= a && 0 <= b && a + b <= |s|
    ensures s[a..][b..] == s[a + b..]
  {
  }

  lemma {:induction false} ConcatAssoc(a: string, b: string, c: string, d: string)
    ensures a + (b + c) + d == a + b + c + d
  {
  }

  lemma {:induction false} TakeOfConcat(a: string, b: string, n: int)
    requires 0 <= n <= |a|
    ensures (a + b)[..n] == a[..n]
  {
  }

  // ---------------------------------------------------------------------
  // String.LastIndexOf(char) and String.Split(char)

  /** The index of the last occurrence of c in s[..k], or -1. */
  function LastIndexBefore(s: string, c: char, k: nat): (i: int)
    requires k <= |s|
    ensures -1 <= i < k
    ensures i >= 0 ==> s[i] == c
    ensures forall j {:trigger s[j]} :: i < j < k ==> s[j] != c
    decreases k
  {
    if k == 0 then -1
    else if s[k - 1] == c then k - 1
    else LastIndexBefore(s, c, k - 1)
  }

  /** String.LastIndexOf(c): the index of the last occurrence of c, or -1. */
  function LastIndexOf(s: string, c: char): (i: int)
    ensures -1 <= i < |s|
    ensures i == -1 <==> c !in s
    ensures 0 <= i ==> s[i] == c && c !in s[i + 1..]
  {
    var i := LastIndexBefore(s, c, |s|);
    assert 0 <= i ==> forall j {:trigger s[i + 1..][j]} :: 0 <= j < |s| - i - 1 ==> s[i + 1..][j] == s[i + 1 + j];
    i
  }


  /** String.Split(sep): the pieces between occurrences of sep, empty pieces
      included; a string without sep is one piece. */
  function Split(s: string, sep: char): (pieces: seq<string>)
    ensures |pieces| >= 1
    ensures forall i :: 0 <= i < |pieces| ==> sep !in pieces[i]
    ensures Join(pieces, sep) == s
    decreases |s|
  {
    if |s| == 0 then [""]
    else
      var rest := Split(s[1..], sep);
      if s[0] == sep then [""] + rest
      else
        var pieces := [[s[0]] + rest[0]] + rest[1..];
        assert pieces[1..] == rest[1..];
        assert Join(pieces, sep) == s by {
          if |rest| > 1 {
            assert Join(rest, sep) == rest[0] + [sep] + Join(rest[1..], sep);
          }
        }
        pieces
  }

  /** The inverse of Split: the pieces with sep between them. */
  function Join(pieces: seq<string>, sep: char): string
    requires |pieces| >= 1
  {
    if |pieces| == 1 then pieces[0] else pieces[0] + [sep] + Join(pieces[1..], sep)
  }

  /** Splitting text without the separator gives the text back as one piece. */
  lemma {:induction false} SplitWithoutSeparator(s: string, sep: char)
    requires sep !in s
    ensures Split(s, sep) == [s]
    decreases |s|
  {
    if |s| > 0 {
      assert sep !in s[1..];
      SplitWithoutSeparator(s[1..], sep);
    }
  }

  /** A separator-free head followed by the separator splits off as the first piece. */
  lemma {:induction false} SplitAfterHead(a: string, sep: char, b: string)
    requires sep !in a
    ensures Split(a + [sep] + b, sep) == [a] + Split(b, sep)
    decreases |a|
  {
    if |a| > 0 {
      assert (a + [sep] + b)[1..] == a[1..] + [sep] + b;
      assert sep !in a[1..];
      SplitAfterHead(a[1..], sep, b);
      assert [a[0]] + a[1..] == a;
    } else {
      assert a + [sep] + b == [sep] + b;
    }
  }

  /** Split undoes Join whenever no piece contains the separator. */
  lemma {:induction false} SplitJoin(pieces: seq<string>, sep: char)
    requires |pieces| >= 1
    requires forall i :: 0 <= i < |pieces| ==> sep !in pieces[i]
    ensures Split(Join(pieces, sep), sep) == pieces
    decreases |pieces|
  {
    if |pieces| == 1 {
      SplitWithoutSeparator(pieces[0], sep);
    } else {
      SplitJoin(pieces[1..], sep);
      SplitAfterHead(pieces[0], sep, Join(pieces[1..], sep));
      assert pieces == [pieces[0]] + pieces[1..];
    }
  }
}
