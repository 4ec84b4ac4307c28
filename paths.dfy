/** System.IO.Path on '/'-separated paths: GetFileName, GetDirectoryName and
    Combine, as the codec and the organizer use them. */
module Paths {
  import opened Text

  /** Path.GetFileName: everything after the last '/'. */
  function GetFileName(p: string): (name: string)
    ensures '/' !in name
    ensures |name| <= |p| && p[|p| - |name|..] == name
    ensures '/' !in p ==> name == p
  {
    p[LastIndexOf(p, '/') + 1..]
  }

  /** Path.GetDirectoryName: everything before the last '/', the root "/"
      for a file directly under it, and "" for a path without a '/'. */
  function GetDirectoryName(p: string): (dir: string)
    ensures '/' !in p ==> dir == ""
  {
    var i := LastIndexOf(p, '/');
    if i < 0 then "" else if i == 0 then "/" else p[..i]
  }

  /** Path.Combine(a, b) for a b that is not rooted: b alone when a is empty,
      a alone when b is empty, a + b when a already ends with '/', and
      a + "/" + b otherwise. */
  function Combine(a: string, b: string): (r: string)
    ensures a == "" ==> r == b
    ensures b == "" ==> r == a
    ensures |r| >= |a| + |b|
    ensures r[..|a|] == a && r[|r| - |b|..] == b
  {
    if a == "" then b else if b == "" then a else if a[|a| - 1] == '/' then a + b else a + "/" + b
  }

  /** Splitting a path into directory and file name and combining them again
      gives the path back; false where '/' is doubled before the file name,
      and for a path that ends in '/' and so names no file. */
  predicate Recombines(p: string) {
    Combine(GetDirectoryName(p), GetFileName(p)) == p
  }

  /** A '/'-free name under a '/'-free directory splits back into the two. */
  lemma {:induction false} FileNameAfterDirectory(directory: string, name: string)
    requires directory != "" && '/' !in directory && '/' !in name
    ensures GetFileName(directory + "/" + name) == name
    ensures GetDirectoryName(directory + "/" + name) == directory
  {
    var path := directory + "/" + name;
    assert path[|directory|] == '/' && path[|directory| + 1..] == name;
    LastIndexOfIs(path, '/', |directory|);
    assert path[..|directory|] == directory;
  }

  /** A path ending in '/', other than the root, has an empty file name, and
      its directory and that empty name combine to the path without the
      final '/'. */
  lemma {:induction false} TrailingSlashDoesNotRecombine(p: string)
    requires |p| > 1 && p[|p| - 1] == '/'
    ensures GetFileName(p) == ""
    ensures Combine(GetDirectoryName(p), GetFileName(p)) == p[..|p| - 1]
    ensures !Recombines(p)
  {
    LastIndexOfIs(p, '/', |p| - 1);
  }

  lemma {:induction false} LastIndexOfIs(s: string, c: char, i: int)
    requires 0 <= i < |s| && s[i] == c && c !in s[i + 1..]
    ensures LastIndexOf(s, c) == i
  {
  }

  lemma {:induction false} NotInSlice(s: string, c: char, lo: int, hi: int)
    requires 0 <= lo <= hi <= |s| && c !in s
    ensures c !in s[lo..hi]
  {
    forall j | 0 <= j < hi - lo
      ensures s[lo..hi][j] != c
    {
      assert s[lo..hi][j] == s[lo + j];
    }
  }

  /** Inserting '/'-free text after the last '/' of a path keeps that '/'
      the last one. */
  lemma {:induction false} SlashAfterInsert(p: string, k: int, x: string)
    requires LastIndexOf(p, '/') < k <= |p|
    requires '/' !in x
    ensures LastIndexOf(p[..k] + x + p[k..], '/') == LastIndexOf(p, '/')
  {
    var q := p[..k] + x + p[k..];
    var i := LastIndexOf(p, '/');
    forall j | i < j < |q|
      ensures q[j] != '/'
    {
      if j < k {
        assert q[j] == p[j];
      } else if j < k + |x| {
        assert q[j] == x[j - k];
      } else {
        assert q[j] == p[j - |x|];
      }
    }
    if 0 <= i {
      assert q[i] == '/';
      var rest := q[i + 1..];
      forall m | 0 <= m < |rest|
        ensures rest[m] != '/'
      {
        assert rest[m] == q[i + 1 + m];
      }
      LastIndexOfIs(q, '/', i);
    } else {
      assert '/' !in q;
    }
  }

  lemma {:induction false} FileNameAfterInsert(p: string, k: int, x: string)
    requires LastIndexOf(p, '/') < k <= |p|
    requires '/' !in x
    ensures GetFileName(p[..k] + x + p[k..]) == p[LastIndexOf(p, '/') + 1..k] + x + p[k..]
  {
    var i := LastIndexOf(p, '/');
    SlashAfterInsert(p, k, x);
    DropOfConcat(p[..k] + x, p[k..], i + 1);
    DropOfConcat(p[..k], x, i + 1);
    assert p[..k][i + 1..] == p[i + 1..k];
  }

  lemma {:induction false} DirectoryAfterInsert(p: string, k: int, x: string)
    requires LastIndexOf(p, '/') < k <= |p|
    requires '/' !in x
    ensures GetDirectoryName(p[..k] + x + p[k..]) == GetDirectoryName(p)
  {
    var i := LastIndexOf(p, '/');
    SlashAfterInsert(p, k, x);
    if i > 0 {
      TakeOfConcat(p[..k] + x, p[k..], i);
      TakeOfConcat(p[..k], x, i);
    }
  }

  /** Inserting '/'-free text after the last '/' of a path changes only its
      file name, by the same insertion, and keeps its directory. */
  lemma {:induction false} InsertIntoFileName(p: string, k: int, x: string)
    requires LastIndexOf(p, '/') < k <= |p|
    requires '/' !in x
    ensures GetFileName(p[..k] + x + p[k..]) == p[LastIndexOf(p, '/') + 1..k] + x + p[k..]
    ensures GetFileName(p) == p[LastIndexOf(p, '/') + 1..k] + p[k..]
    ensures GetDirectoryName(p[..k] + x + p[k..]) == GetDirectoryName(p)
  {
    FileNameAfterInsert(p, k, x);
    DirectoryAfterInsert(p, k, x);
    var i := LastIndexOf(p, '/');
    assert p[i + 1..] == p[i + 1..k] + p[k..];
  }

  /** Inserting '/'-free text before the last '/' of a path leaves its file
      name as it was. */
  lemma {:induction false} InsertBeforeFileName(p: string, k: int, x: string)
    requires 0 <= k <= LastIndexOf(p, '/')
    requires '/' !in x
    ensures GetFileName(p[..k] + x + p[k..]) == GetFileName(p)
  {
    TailAfterInsert(p, k, x, LastIndexOf(p, '/'));
    TailAfterInsert(p, k, x, LastIndexOf(p, '/') + 1);
    LastIndexOfIs(p[..k] + x + p[k..], '/', |x| + LastIndexOf(p, '/'));
  }

  /** Behind the insertion point, the text is the original shifted by |x|. */
  lemma {:induction false} TailAfterInsert(p: string, k: int, x: string, j: int)
    requires 0 <= k <= j <= |p|
    ensures (p[..k] + x + p[k..])[|x| + j..] == p[j..]
  {
    var q := p[..k] + x + p[k..];
    forall i | 0 <= i < |p| - j
      ensures q[|x| + j..][i] == p[j..][i]
    {
      assert q[|x| + j + i] == p[k..][j - k + i];
    }
  }

  /** Appending '/'-free text to a path appends it to the file name. */
  lemma {:induction false} AppendToFileName(p: string, x: string)
    requires '/' !in x
    ensures GetFileName(p + x) == GetFileName(p) + x
    ensures GetDirectoryName(p + x) == GetDirectoryName(p)
  {
    InsertIntoFileName(p, |p|, x);
    assert p[..|p|] == p && p[|p|..] == [];
    assert p + x + [] == p + x;
  }

  /** The file name and directory of a combined path are the two parts
      combined, for a directory that does not end with '/' and a file name
      that is not empty. */
  lemma {:induction false} CombineParts(a: string, b: string)
    requires a != "" && a[|a| - 1] != '/'
    requires b != "" && '/' !in b
    ensures GetFileName(Combine(a, b)) == b
    ensures GetDirectoryName(Combine(a, b)) == a
  {
    var r := Combine(a, b);
    assert r == a + "/" + b;
    assert r[|a| + 1..] == b;
    LastIndexOfIs(r, '/', |a|);
    assert r[..|a|] == a;
  }
}
