/** The string primitives the interpreter is built on, with Python's meaning:
    `str.isspace`, `str.split()` and `str.split(maxsplit=n)` on whitespace,
    `str.split(sep)` on one character, `sep.join(xs)` and `str.splitlines()`. */
module Text {

  /** Python's `str.isspace` for one character. */
  predicate IsSpace(c: char) {
    var n := c as int;
    || (9 <= n <= 13) || (28 <= n <= 32) || n == 0x85 || n == 0xA0 || n == 0x1680
    || (0x2000 <= n <= 0x200A) || n == 0x2028 || n == 0x2029 || n == 0x202F
    || n == 0x205F || n == 0x3000
  }

  /** The line boundaries `str.splitlines` recognises (`"\r\n"` counts as one). */
  predicate IsLineBreak(c: char) {
    var n := c as int;
    (10 <= n <= 13) || (28 <= n <= 30) || n == 0x85 || n == 0x2028 || n == 0x2029
  }

  /** `not s.strip()`: nothing but whitespace. */
  predicate IsBlank(s: string) {
    forall i :: 0 <= i < |s| ==> IsSpace(s[i])
  }

  predicate SpaceFree(s: string) {
    forall i :: 0 <= i < |s| ==> !IsSpace(s[i])
  }

  predicate NoBreaks(s: string) {
    forall i :: 0 <= i < |s| ==> !IsLineBreak(s[i])
  }

  /** `s.lstrip()`: the suffix left after dropping leading whitespace. */
  function SkipSpaces(s: string): (r: string)
    ensures |r| <= |s|
    ensures r == [] || !IsSpace(r[0])
  {
    if |s| > 0 && IsSpace(s[0]) then SkipSpaces(s[1..]) else s
  }

  /** The whitespace-free run at the start of `s`. */
  function LeadingWord(s: string): (w: string)
    ensures |w| <= |s|
    ensures SpaceFree(w)
    ensures |s| > 0 && !IsSpace(s[0]) ==> |w| > 0
    ensures w == s[..|w|]
    ensures |w| < |s| ==> IsSpace(s[|w|])
  {
    if |s| > 0 && !IsSpace(s[0]) then [s[0]] + LeadingWord(s[1..]) else []
  }

  /** `s.split()`: the maximal whitespace-free runs, in order. */
  function Tokens(s: string): (r: seq<string>)
    ensures forall i :: 0 <= i < |r| ==> |r[i]| > 0 && SpaceFree(r[i])
    decreases |s|
  {
    var t := SkipSpaces(s);
    if t == [] then []
    else
      var w := LeadingWord(t);
      [w] + Tokens(t[|w|..])
  }

  /** `s.split(maxsplit=n)`: at most `n` splits; the last field is the rest of the
      line with its leading whitespace dropped and everything else, internal and
      trailing whitespace included, kept. */
  function SplitMax(s: string, n: nat): (r: seq<string>)
    ensures |r| <= n + 1
    ensures forall i :: 0 <= i < |r| ==> |r[i]| > 0 && !IsSpace(r[i][0])
    ensures forall i :: 0 <= i < |r| - 1 ==> SpaceFree(r[i])
    decreases |s|
  {
    var t := SkipSpaces(s);
    if t == [] then []
    else if n == 0 then [t]
    else
      var w := LeadingWord(t);
      var rest := SplitMax(t[|w|..], n - 1);
      assert w[0] == t[0];
      assert forall i :: 0 < i < 1 + |rest| ==> ([w] + rest)[i] == rest[i - 1];
      [w] + rest
  }

  /** `sep.join(xs)`. */
  function JoinWith(xs: seq<string>, sep: string): string
  {
    if |xs| == 0 then []
    else if |xs| == 1 then xs[0]
    else xs[0] + sep + JoinWith(xs[1..], sep)
  }

  /** Position of the first `c` in `s`. */
  function IndexOf(s: string, c: char): (i: nat)
    requires c in s
    ensures i < |s| && s[i] == c && c !in s[..i]
  {
    if s[0] == c then 0
    else
      var i := 1 + IndexOf(s[1..], c);
      assert s[..i] == [s[0]] + s[1..][..i - 1];
      i
  }

  /** `s.split(c)`: the pieces between occurrences of `c`, empty pieces included;
      joining them back with `c` gives `s`. */
  function SplitOn(s: string, c: char): (r: seq<string>)
    ensures |r| > 0
    ensures forall i :: 0 <= i < |r| ==> c !in r[i]
    ensures JoinWith(r, [c]) == s
    decreases |s|
  {
    if c !in s then [s]
    else
      var i := IndexOf(s, c);
      var rest := SplitOn(s[i + 1..], c);
      assert ([s[..i]] + rest)[1..] == rest;
      assert s == s[..i] + [c] + s[i + 1..];
      [s[..i]] + rest
  }

  /** Position of the first line boundary in `s`, or `|s|` when there is none. */
  function BreakIndex(s: string): (i: nat)
    ensures i <= |s|
    ensures i < |s| ==> IsLineBreak(s[i])
    ensures forall j :: 0 <= j < i ==> !IsLineBreak(s[j])
  {
    if |s| == 0 || IsLineBreak(s[0]) then 0 else 1 + BreakIndex(s[1..])
  }

  /** `s.splitlines()`: lines without their terminators; a final terminator does
      not start an extra empty line. */
  function SplitLines(s: string): (r: seq<string>)
    ensures s != [] ==> |r| > 0
    ensures forall k :: 0 <= k < |r| ==> NoBreaks(r[k])
    decreases |s|
  {
    if s == [] then []
    else
      var i := BreakIndex(s);
      if i == |s| then [s]
      else
        var next := if s[i] == '\r' && i + 1 < |s| && s[i + 1] == '\n' then i + 2 else i + 1;
        assert NoBreaks(s[..i]) by {
          assert forall j :: 0 <= j < i ==> s[..i][j] == s[j];
        }
        [s[..i]] + SplitLines(s[next..])
  }

  // ----- Facts about the primitives -----

  /** A line is skipped as blank exactly when `split()` finds no token in it. */
  lemma {:induction false} BlankIffNoTokens(s: string)
    ensures IsBlank(s) <==> Tokens(s) == []
  {
    SkipSpacesEmptyIffBlank(s);
  }

  lemma {:induction false} SkipSpacesEmptyIffBlank(s: string)
    ensures SkipSpaces(s) == [] <==> IsBlank(s)
    decreases |s|
  {
    if |s| > 0 && IsSpace(s[0]) {
      SkipSpacesEmptyIffBlank(s[1..]);
      assert IsBlank(s) <==> IsBlank(s[1..]) by {
        assert forall i :: 0 < i < |s| ==> s[i] == s[1..][i - 1];
      }
    } else if |s| > 0 {
      assert !IsSpace(s[0]);
    }
  }

  /** Where a left-to-right scan of a line stands: before the first word, inside
      a word, or in the whitespace after a word. */
  datatype Scan = Leading | InWord | Between

  /** `" ".join(s.split())` computed one character at a time, independently of
      `Tokens`: whitespace before the first word and after the last is dropped,
      and every other whitespace run becomes one space. */
  function Squeeze(s: string, at: Scan): string
    decreases |s|
  {
    if s == [] then []
    else if IsSpace(s[0]) then Squeeze(s[1..], if at == Leading then Leading else Between)
    else (if at == Between then " " else "") + [s[0]] + Squeeze(s[1..], InWord)
  }

  /** The words of a line, joined by single spaces, are the line with its
      whitespace squeezed: together with the words being non-empty and
      whitespace-free, this fixes `Tokens` completely. */
  lemma {:induction false} TokensSqueeze(s: string)
    ensures JoinWith(Tokens(s), " ") == Squeeze(s, Leading)
    ensures Squeeze(s, Between) == (if Tokens(s) == [] then [] else " " + JoinWith(Tokens(s), " "))
    decreases |s|
  {
    var t := SkipSpaces(s);
    SqueezeSkipsSpaces(s, Leading);
    SqueezeSkipsSpaces(s, Between);
    if t != [] {
      var w := LeadingWord(t);
      var u := t[|w|..];
      var rest := Tokens(u);
      assert Tokens(s) == [w] + rest;
      SqueezeWord(t, Leading);
      SqueezeWord(t, Between);
      SqueezeEndOfWord(u);
      TokensSqueeze(u);
      JoinCons(w, rest);
      SqueezeAssemble(w, JoinWith(rest, " "), rest == [], Squeeze(u, InWord),
        JoinWith([w] + rest, " "), Squeeze(t, Leading), Squeeze(t, Between));
    }
  }

  /** The sequence arithmetic of one step of TokensSqueeze. */
  lemma SqueezeAssemble(w: string, joined: string, last: bool, after: string,
                        all: string, leading: string, between: string)
    requires after == (if last then [] else " " + joined)
    requires all == (if last then w else w + (" " + joined))
    requires leading == "" + w + after
    requires between == " " + w + after
    ensures all == leading && between == " " + all
  {
  }

  /** Joining a word in front of a list puts one space between them. */
  lemma JoinCons(w: string, ts: seq<string>)
    ensures JoinWith([w] + ts, " ") == (if ts == [] then w else w + (" " + JoinWith(ts, " ")))
  {
    assert ([w] + ts)[0] == w && ([w] + ts)[1..] == ts;
  }

  /** Outside a word, leading whitespace adds nothing to the squeeze. */
  lemma {:induction false} SqueezeSkipsSpaces(s: string, at: Scan)
    requires at != InWord
    ensures Squeeze(s, at) == Squeeze(SkipSpaces(s), at)
    decreases |s|
  {
    if |s| > 0 && IsSpace(s[0]) {
      SqueezeSkipsSpaces(s[1..], at);
    }
  }

  /** A word is copied as is, after one space when it follows another word. */
  lemma {:induction false} SqueezeWord(t: string, at: Scan)
    requires t != [] && !IsSpace(t[0])
    ensures var w := LeadingWord(t);
      Squeeze(t, at) == (if at == Between then " " else "") + w + Squeeze(t[|w|..], InWord)
    decreases |t|
  {
    var w := LeadingWord(t);
    var v := t[1..];
    var head := if at == Between then " " else "";
    assert Squeeze(t, at) == head + [t[0]] + Squeeze(v, InWord);
    if v != [] && !IsSpace(v[0]) {
      var x := LeadingWord(v);
      SqueezeWord(v, InWord);
      assert w == [t[0]] + x;
      assert t[|w|..] == v[|x|..];
      WordAssoc(head, [t[0]], x, Squeeze(v[|x|..], InWord));
    } else {
      assert w == [t[0]];
      assert t[|w|..] == v;
    }
  }

  lemma WordAssoc(a: string, b: string, c: string, d: string)
    ensures a + b + ("" + c + d) == a + (b + c) + d
  {
  }

  /** Right after a word, the scan behaves as if whitespace had been seen. */
  lemma SqueezeEndOfWord(u: string)
    requires u == [] || IsSpace(u[0])
    ensures Squeeze(u, InWord) == Squeeze(u, Between)
  {
  }

  /** `split(maxsplit=n)` agrees with `split()`: with at most `n` tokens the two are
      equal; otherwise the first `n` fields are the first `n` tokens and the last
      field holds exactly the remaining tokens. */
  lemma {:induction false} SplitMaxAgreesWithTokens(s: string, n: nat)
    ensures |Tokens(s)| <= n ==> SplitMax(s, n) == Tokens(s)
    ensures |Tokens(s)| > n ==>
      && |SplitMax(s, n)| == n + 1
      && SplitMax(s, n)[..n] == Tokens(s)[..n]
      && Tokens(SplitMax(s, n)[n]) == Tokens(s)[n..]
    decreases |s|
  {
    var t := SkipSpaces(s);
    if t != [] && n == 0 {
      assert SkipSpaces(t) == t;
      assert Tokens(t) == Tokens(s);
    } else if t != [] {
      var w := LeadingWord(t);
      var u := t[|w|..];
      SplitMaxAgreesWithTokens(u, n - 1);
      assert Tokens(s) == [w] + Tokens(u);
      assert SplitMax(s, n) == [w] + SplitMax(u, n - 1);
      if |Tokens(u)| > n - 1 {
        ConsShift(w, Tokens(u), SplitMax(u, n - 1), n);
      }
    }
  }

  /** Putting one word in front of both a field list and a token list that agree
      on their first `n - 1` entries keeps them agreeing on the first `n`. */
  lemma ConsShift(w: string, ts: seq<string>, r: seq<string>, n: nat)
    requires 0 < n <= |ts| && |r| == n && r[..n - 1] == ts[..n - 1]
    ensures |[w] + r| == n + 1
    ensures ([w] + r)[..n] == ([w] + ts)[..n]
    ensures ([w] + r)[n] == r[n - 1]
    ensures ([w] + ts)[n..] == ts[n - 1..]
  {
    assert ([w] + r)[..n] == [w] + r[..n - 1];
    assert ([w] + ts)[..n] == [w] + ts[..n - 1];
  }

  lemma IndexOfAfterPiece(x: string, c: char, y: string)
    requires c !in x
    ensures c in x + [c] + y && IndexOf(x + [c] + y, c) == |x|
  {
    assert (x + [c] + y)[|x|] == c;
  }

  /** The converse round trip of `SplitOn`: splitting a `c`-join of `c`-free pieces
      gives the pieces back. */
  lemma {:induction false} SplitOnJoin(xs: seq<string>, c: char)
    requires |xs| > 0
    requires forall i :: 0 <= i < |xs| ==> c !in xs[i]
    ensures SplitOn(JoinWith(xs, [c]), c) == xs
  {
    if |xs| > 1 {
      var rest := JoinWith(xs[1..], [c]);
      var s := xs[0] + [c] + rest;
      assert JoinWith(xs, [c]) == s;
      IndexOfAfterPiece(xs[0], c, rest);
      var i := IndexOf(s, c);
      assert s[..i] == xs[0];
      assert s[i + 1..] == rest;
      assert SplitOn(s, c) == [s[..i]] + SplitOn(s[i + 1..], c);
      SplitOnJoin(xs[1..], c);
      assert xs == [xs[0]] + xs[1..];
    }
  }

  /** The only line boundary in `s` is `\n`. */
  predicate OnlyNewlines(s: string) {
    forall j :: 0 <= j < |s| && IsLineBreak(s[j]) ==> s[j] == '\n'
  }

  /** What `splitlines` drops at the end: the final `\n`, if any. */
  function FinalNewline(s: string): string {
    if |s| > 0 && s[|s| - 1] == '\n' then "\n" else ""
  }

  /** For a script whose only line boundary is `\n`, joining the lines of
      `splitlines` with `\n` gives the text back, up to a final terminator. */
  lemma {:induction false} SplitLinesRoundTrip(s: string)
    requires OnlyNewlines(s)
    ensures s == JoinWith(SplitLines(s), "\n") + FinalNewline(s)
    decreases |s|
  {
    if s != [] {
      var i := BreakIndex(s);
      if i == |s| {
        assert s[..i] == s;
        assert SplitLines(s) == [s];
      } else {
        SplitLinesRoundTripStep(s, i);
      }
    }
  }

  lemma {:induction false} SplitLinesRoundTripStep(s: string, i: nat)
    requires OnlyNewlines(s) && s != []
    requires i == BreakIndex(s) && i < |s|
    ensures s == JoinWith(SplitLines(s), "\n") + FinalNewline(s)
    decreases |s|, 0
  {
    var head, rest := s[..i], s[i + 1..];
    SplitLinesAtNewline(s, i);
    if rest == [] {
      Reassemble(s, head, rest, []);
    } else {
      OnlyNewlinesSuffix(s, i + 1);
      SplitLinesRoundTrip(rest);
      Reassemble(s, head, rest, SplitLines(rest));
    }
  }

  /** At a `\n`, `splitlines` takes the text before it as the first line and
      goes on after it. */
  lemma SplitLinesAtNewline(s: string, i: nat)
    requires OnlyNewlines(s) && s != []
    requires i == BreakIndex(s) && i < |s|
    ensures s == s[..i] + "\n" + s[i + 1..]
    ensures SplitLines(s) == [s[..i]] + SplitLines(s[i + 1..])
  {
    assert s[i] == '\n';
    Pieces(s, i);
  }

  lemma Reassemble(s: string, head: string, rest: string, lines: seq<string>)
    requires s == head + "\n" + rest
    requires rest == [] ==> lines == []
    requires rest != [] ==> |lines| > 0 && rest == JoinWith(lines, "\n") + FinalNewline(rest)
    ensures s == JoinWith([head] + lines, "\n") + FinalNewline(s)
  {
    if rest == [] {
      assert [head] + lines == [head];
      assert FinalNewline(s) == "\n";
    } else {
      var tail := JoinWith(lines, "\n");
      var f := FinalNewline(rest);
      assert FinalNewline(s) == f by {
        assert s[|s| - 1] == rest[|rest| - 1];
      }
      assert ([head] + lines)[0] == head && ([head] + lines)[1..] == lines;
      assert JoinWith([head] + lines, "\n") == head + "\n" + tail;
      calc {
        s;
        head + "\n" + rest;
        head + "\n" + (tail + f);
        { SeqAssoc(head + "\n", tail, f); }
        head + "\n" + tail + f;
      }
    }
  }

  lemma SeqAssoc(a: string, b: string, c: string)
    ensures a + (b + c) == a + b + c
  {
  }

  lemma Pieces(s: string, i: nat)
    requires i < |s|
    ensures s == s[..i] + [s[i]] + s[i + 1..]
  {
  }

  lemma OnlyNewlinesSuffix(s: string, k: nat)
    requires OnlyNewlines(s) && k <= |s|
    ensures OnlyNewlines(s[k..])
  {
    assert forall j :: 0 <= j < |s| - k ==> s[k..][j] == s[k + j];
  }
}
