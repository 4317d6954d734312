/** POSIX path helpers with the meaning of Python's `os.path`: `basename`,
    `isabs`, `join` (two arguments), `splitext`, and the interpreter's own
    `resolve_path`. */
module Paths {
  import Text

  /** `os.path.basename(p)`: everything after the last `/`. */
  function Basename(p: string): (r: string)
    ensures '/' !in r
    ensures |r| <= |p| && r == p[|p| - |r|..]
    ensures |r| < |p| ==> p[|p| - |r| - 1] == '/'
  {
    if p == [] || p[|p| - 1] == '/' then []
    else
      var b := Basename(p[..|p| - 1]);
      SuffixExtend(p, b);
      b + [p[|p| - 1]]
  }

  /** A suffix of `p` without its last character, extended by that character,
      is a suffix of `p` one longer, preceded by the same character. */
  lemma SuffixExtend(p: string, b: string)
    requires |p| > 0
    requires |b| <= |p| - 1 && b == p[..|p| - 1][|p| - 1 - |b|..]
    ensures b + [p[|p| - 1]] == p[|p| - |b| - 1..]
    ensures |b| < |p| - 1 ==> p[..|p| - 1][|p| - 1 - |b| - 1] == p[|p| - |b| - 2]
  {
    assert p == p[..|p| - 1] + [p[|p| - 1]];
  }

  /** `os.path.isabs(p)` on POSIX. */
  predicate IsAbsolute(p: string) {
    |p| > 0 && p[0] == '/'
  }

  /** `os.path.join(a, b)`: an absolute `b` replaces `a`; otherwise a `/` is put
      between them unless `a` is empty or already ends with one. */
  function PathJoin(a: string, b: string): (r: string)
    ensures IsAbsolute(b) ==> r == b
    ensures !IsAbsolute(b) ==> r == a + (if a == [] || a[|a| - 1] == '/' then "" else "/") + b
  {
    if IsAbsolute(b) then b
    else if a == [] || a[|a| - 1] == '/' then a + b
    else a + "/" + b
  }

  /** `resolve_path`: a relative path is taken relative to the directory the
      interpreter was started in; an absolute one is kept. */
  function ResolvePath(originalDir: string, p: string): (r: string)
    ensures IsAbsolute(p) ==> r == p
    ensures IsAbsolute(originalDir) ==> IsAbsolute(r)
    ensures !IsAbsolute(p) ==>
      && originalDir <= r
      && |originalDir| + |p| <= |r| <= |originalDir| + 1 + |p|
      && r[|r| - |p|..] == p
    ensures Basename(r) == Basename(p)
  {
    var r := PathJoin(originalDir, p);
    BasenameOfJoin(originalDir, p);
    JoinKeepsBoth(originalDir, p);
    r
  }

  /** A relative join starts with the directory and ends with the path, with at
      most one separator between them. */
  lemma JoinKeepsBoth(a: string, b: string)
    ensures !IsAbsolute(b) ==>
      var r := PathJoin(a, b);
      && a <= r
      && |a| + |b| <= |r| <= |a| + 1 + |b|
      && r[|r| - |b|..] == b
  {
    if !IsAbsolute(b) {
      var sep := if a == [] || a[|a| - 1] == '/' then "" else "/";
      var r := a + sep + b;
      assert r[..|a|] == a;
      assert r[|r| - |b|..] == b;
    }
  }

  /** Joining never changes the last path component. */
  lemma BasenameOfJoin(a: string, b: string)
    ensures Basename(PathJoin(a, b)) == Basename(b)
  {
    if !IsAbsolute(b) {
      var sep := if a == [] || a[|a| - 1] == '/' then "" else "/";
      BasenameAfterSlash(a + sep, b);
    }
  }

  /** The basename of `x + y` is that of `y` when `x` is empty or ends with `/`. */
  lemma {:induction false} BasenameAfterSlash(x: string, y: string)
    requires x == [] || x[|x| - 1] == '/'
    ensures Basename(x + y) == Basename(y)
    decreases |y|
  {
    if y == [] {
      assert x + y == x;
    } else {
      var last := y[|y| - 1];
      assert (x + y)[..|x + y| - 1] == x + y[..|y| - 1];
      assert (x + y)[|x + y| - 1] == last;
      if last != '/' {
        BasenameAfterSlash(x, y[..|y| - 1]);
      }
    }
  }

  /** Position of the last `c` in `s`. */
  function LastIndexOf(s: string, c: char): (i: nat)
    requires c in s
    ensures i < |s| && s[i] == c && c !in s[i + 1..]
  {
    if s[|s| - 1] == c then |s| - 1
    else
      var i := LastIndexOf(s[..|s| - 1], c);
      assert s[i + 1..] == s[..|s| - 1][i + 1..] + [s[|s| - 1]];
      i
  }

  /** `os.path.splitext(p)[1]`: the final component's suffix from its last `.`,
      unless only dots precede that `.` in the component (a hidden file such as
      `.bashrc` has no extension). */
  function Extension(p: string): (r: string)
    ensures r == [] || (r[0] == '.' && '.' !in r[1..] && '/' !in r)
    ensures |r| <= |p| && r == p[|p| - |r|..]
    ensures r != [] <==> HasExtension(Basename(p))
  {
    var b := Basename(p);
    var r := ComponentExtension(b);
    SuffixOfSuffix(p, b, r);
    r
  }

  /** The extension of one path component `b`. */
  function ComponentExtension(b: string): (r: string)
    requires '/' !in b
    ensures r == [] || (r[0] == '.' && '.' !in r[1..] && '/' !in r)
    ensures |r| <= |b| && r == b[|b| - |r|..]
    ensures r != [] <==> HasExtension(b)
  {
    if '.' !in b then []
    else
      var d := LastIndexOf(b, '.');
      AllDotsMeans(b[..d]);
      if AllDots(b[..d]) then
        assert !HasExtension(b) by {
          assert forall j :: 0 <= j < d ==> b[j] == b[..d][j];
        }
        []
      else
        assert HasExtension(b) by {
          var j :| 0 <= j < d && b[..d][j] != '.';
          assert b[j] != '.' && b[d] == '.';
        }
        assert b[d..][1..] == b[d + 1..];
        b[d..]
  }

  /** A component has an extension exactly when some `.` in it comes after a
      character that is not a `.`. */
  predicate HasExtension(b: string) {
    exists i, j :: 0 <= j < i < |b| && b[i] == '.' && b[j] != '.'
  }

  /** Every character is a `.`. */
  predicate AllDots(s: string) {
    s == [] || (s[0] == '.' && AllDots(s[1..]))
  }

  lemma {:induction false} AllDotsMeans(s: string)
    ensures AllDots(s) <==> forall k :: 0 <= k < |s| ==> s[k] == '.'
  {
    if s != [] {
      AllDotsMeans(s[1..]);
      assert forall k :: 0 < k < |s| ==> s[k] == s[1..][k - 1];
    }
  }

  /** A suffix of a suffix of `p` is a suffix of `p`. */
  lemma SuffixOfSuffix(p: string, b: string, r: string)
    requires |b| <= |p| && b == p[|p| - |b|..]
    requires |r| <= |b| && r == b[|b| - |r|..]
    ensures |r| <= |p| && r == p[|p| - |r|..]
  {
    assert forall k :: 0 <= k < |r| ==> r[k] == b[|b| - |r| + k] == p[|p| - |r| + k];
  }

  /** `s.split('/')[-1]`, the piece after the last `/`, is the basename. */
  lemma {:induction false} LastPieceIsBasename(s: string)
    ensures var pieces := Text.SplitOn(s, '/'); pieces[|pieces| - 1] == Basename(s)
    decreases |s|
  {
    var pieces := Text.SplitOn(s, '/');
    if '/' !in s {
      assert pieces == [s];
      BasenameWithoutSlash(s);
    } else {
      var i := Text.IndexOf(s, '/');
      var rest := s[i + 1..];
      var tail := Text.SplitOn(rest, '/');
      assert pieces == [s[..i]] + tail;
      assert pieces[|pieces| - 1] == tail[|tail| - 1];
      LastPieceIsBasename(rest);
      assert s == s[..i + 1] + rest;
      BasenameAfterSlash(s[..i + 1], rest);
    }
  }

  /** A path with no `/` is its own basename. */
  lemma BasenameWithoutSlash(s: string)
    requires '/' !in s
    ensures Basename(s) == s
  {
  }
}
