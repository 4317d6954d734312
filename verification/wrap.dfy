/** `wrap_text_smart`: greedy word wrapping at single spaces under a width
    bound measured by the font. Words are never broken; a word wider than the
    bound gets a line of its own. The font's measure is a parameter. */
module TextWrap {
  import opened Text

  /** The words of all lines, in order. */
  function Flatten(groups: seq<seq<string>>): seq<string> {
    if groups == [] then [] else groups[0] + Flatten(groups[1..])
  }

  lemma FlattenCons(g: seq<string>, groups: seq<seq<string>>)
    ensures Flatten([g] + groups) == g + Flatten(groups)
  {
    assert ([g] + groups)[1..] == groups;
  }

  /** The line made of these words, as the font measures it, is within the bound. */
  predicate Fits(width: string -> int, maxWidth: int, line: seq<string>) {
    width(JoinWith(line, " ")) <= maxWidth
  }

  /** Every word after a line's first was added because the line still fit. */
  predicate Grown(width: string -> int, maxWidth: int, line: seq<string>) {
    forall j :: 1 < j <= |line| ==> Fits(width, maxWidth, line[..j])
  }

  /** The loop of `wrap_text_smart` from the line in progress `current` on: a
      word joins the current line when the line still fits with it or the line
      is empty; otherwise the line is closed and the word starts the next one.
      The line in progress is closed at the end. */
  function Pack(width: string -> int, maxWidth: int, current: seq<string>, words: seq<string>): (groups: seq<seq<string>>)
    ensures Flatten(groups) == current + words
    ensures forall i :: 0 <= i < |groups| ==> groups[i] != []
    ensures |groups| <= |words| + (if current == [] then 0 else 1)
    ensures current + words != [] ==> groups != []
    ensures current != [] ==> |current| <= |groups[0]| && groups[0][..|current|] == current
    ensures Grown(width, maxWidth, current) ==>
      forall i :: 0 <= i < |groups| ==> Grown(width, maxWidth, groups[i])
    ensures forall i :: 0 <= i < |groups| - 1 ==>
      !Fits(width, maxWidth, groups[i] + [groups[i + 1][0]])
    decreases |words|
  {
    if words == [] then
      if current == [] then [] else [current]
    else
      var w := words[0];
      if Fits(width, maxWidth, current + [w]) || current == [] then
        var groups := Pack(width, maxWidth, current + [w], words[1..]);
        assert current + [w] + words[1..] == current + words;
        assert groups[0][..|current|] == (current + [w])[..|current|];
        GrownExtend(width, maxWidth, current, w);
        groups
      else
        var rest := Pack(width, maxWidth, [w], words[1..]);
        assert [w] + words[1..] == words;
        CloseLine(width, maxWidth, current, w, words[1..], rest);
        [current] + rest
  }

  /** Closing the line in progress in front of the packing of the remaining
      words keeps the packing's guarantees. */
  lemma CloseLine(width: string -> int, maxWidth: int, current: seq<string>, w: string,
                  more: seq<string>, rest: seq<seq<string>>)
    requires current != [] && !Fits(width, maxWidth, current + [w])
    requires Flatten(rest) == [w] + more
    requires forall i :: 0 <= i < |rest| ==> rest[i] != []
    requires |rest| <= |more| + 1
    requires rest != [] && |rest[0]| >= 1 && rest[0][..1] == [w]
    requires forall i :: 0 <= i < |rest| ==> Grown(width, maxWidth, rest[i])
    requires forall i :: 0 <= i < |rest| - 1 ==> !Fits(width, maxWidth, rest[i] + [rest[i + 1][0]])
    ensures var groups := [current] + rest;
      && Flatten(groups) == current + ([w] + more)
      && (forall i :: 0 <= i < |groups| ==> groups[i] != [])
      && |groups| <= |more| + 2
      && groups[0][..|current|] == current
      && (Grown(width, maxWidth, current) ==>
            forall i :: 0 <= i < |groups| ==> Grown(width, maxWidth, groups[i]))
      && (forall i :: 0 <= i < |groups| - 1 ==> !Fits(width, maxWidth, groups[i] + [groups[i + 1][0]]))
  {
    var groups := [current] + rest;
    FlattenCons(current, rest);
    assert groups[0] == current && groups[1] == rest[0];
    assert rest[0][0] == w;
    assert forall i :: 0 < i < |groups| ==> groups[i] == rest[i - 1];
    forall i | 0 < i < |groups| - 1
      ensures !Fits(width, maxWidth, groups[i] + [groups[i + 1][0]])
    {
      assert groups[i] == rest[i - 1] && groups[i + 1] == rest[i];
    }
  }

  /** Adding a word to a grown line that still fits with it, or to an empty
      line, keeps it grown. */
  lemma GrownExtend(width: string -> int, maxWidth: int, current: seq<string>, w: string)
    requires Fits(width, maxWidth, current + [w]) || current == []
    ensures Grown(width, maxWidth, current) ==> Grown(width, maxWidth, current + [w])
  {
    if Grown(width, maxWidth, current) {
      forall j | 1 < j <= |current + [w]|
        ensures Fits(width, maxWidth, (current + [w])[..j])
      {
        if j <= |current| {
          assert (current + [w])[..j] == current[..j];
        } else {
          assert (current + [w])[..j] == current + [w];
        }
      }
    }
  }

  /** The text of each line: its words joined by single spaces. */
  function Lines(groups: seq<seq<string>>): (lines: seq<string>)
    ensures |lines| == |groups|
    ensures forall i :: 0 <= i < |groups| ==> lines[i] == JoinWith(groups[i], " ")
  {
    if groups == [] then [] else [JoinWith(groups[0], " ")] + Lines(groups[1..])
  }

  /** The words of `text`, packed into lines. */
  function WrapGroups(text: string, width: string -> int, maxWidth: int): seq<seq<string>> {
    Pack(width, maxWidth, [], SplitOn(text, ' '))
  }

  /** `wrap_text_smart(text, font, max_width)`: the packed lines joined by `\n`. */
  function WrapTextSmart(text: string, width: string -> int, maxWidth: int): string {
    JoinWith(Lines(WrapGroups(text, width, maxWidth)), "\n")
  }

  /** `s` with every `a` replaced by `b`. */
  function Replace(s: string, a: char, b: char): (r: string)
    ensures |r| == |s|
    ensures forall i :: 0 <= i < |s| ==> r[i] == (if s[i] == a then b else s[i])
  {
    if s == [] then [] else [if s[0] == a then b else s[0]] + Replace(s[1..], a, b)
  }

  /** A packing is greedy when it keeps the words in order, has no empty line,
      every word after a line's first was added while the line fit, and a line
      is closed only when the next word would not fit on it. */
  predicate Greedy(width: string -> int, maxWidth: int, words: seq<string>, groups: seq<seq<string>>) {
    && Flatten(groups) == words
    && (forall i :: 0 <= i < |groups| ==> groups[i] != [] && Grown(width, maxWidth, groups[i]))
    && (forall i :: 0 <= i < |groups| - 1 ==> !Fits(width, maxWidth, groups[i] + [groups[i + 1][0]]))
  }

  /** The shape of the wrapped text: the lines, flattened, are exactly
      `text.split(' ')`; there is at least one line and no more lines than
      words; each line is a single word or fits the bound. */
  lemma WrapShape(text: string, width: string -> int, maxWidth: int)
    ensures var groups := WrapGroups(text, width, maxWidth);
      && Flatten(groups) == SplitOn(text, ' ')
      && 1 <= |groups| <= |SplitOn(text, ' ')|
      && forall i :: 0 <= i < |groups| ==>
           |groups[i]| == 1 || Fits(width, maxWidth, groups[i])
  {
    var words := SplitOn(text, ' ');
    var groups := WrapGroups(text, width, maxWidth);
    assert [] + words == words;
    assert Grown(width, maxWidth, []);
    forall i | 0 <= i < |groups| && |groups[i]| != 1
      ensures Fits(width, maxWidth, groups[i])
    {
      assert Grown(width, maxWidth, groups[i]);
      assert groups[i][..|groups[i]|] == groups[i];
    }
  }

  /** The wrapping is greedy: a line is closed only when the next word would not
      fit on it, and every word after a line's first fit when it was added. */
  lemma WrapIsGreedy(text: string, width: string -> int, maxWidth: int)
    ensures Greedy(width, maxWidth, SplitOn(text, ' '), WrapGroups(text, width, maxWidth))
  {
    var words := SplitOn(text, ' ');
    assert [] + words == words;
    assert Grown(width, maxWidth, []);
  }

  /** For text without `\n`, the output's lines are exactly the packed lines. */
  lemma WrapLines(text: string, width: string -> int, maxWidth: int)
    requires '\n' !in text
    ensures SplitOn(WrapTextSmart(text, width, maxWidth), '\n') == Lines(WrapGroups(text, width, maxWidth))
  {
    var groups := WrapGroups(text, width, maxWidth);
    LinesFreeOf(text, width, maxWidth, '\n');
    var words := SplitOn(text, ' ');
    assert [] + words == words;
    SplitOnJoin(Lines(groups), '\n');
  }

  /** A character absent from the text is absent from every output line. */
  lemma LinesFreeOf(text: string, width: string -> int, maxWidth: int, c: char)
    requires c !in text && c != ' '
    ensures forall i :: 0 <= i < |WrapGroups(text, width, maxWidth)| ==>
      c !in Lines(WrapGroups(text, width, maxWidth))[i]
  {
    var words := SplitOn(text, ' ');
    var groups := WrapGroups(text, width, maxWidth);
    assert [] + words == words;
    forall k | 0 <= k < |words| ensures c !in words[k] {
      if c in words[k] {
        InJoin(words, " ", k, c);
      }
    }
    forall i | 0 <= i < |groups| ensures c !in Lines(groups)[i] {
      forall k | 0 <= k < |groups[i]| ensures c !in groups[i][k] {
        WordOfGroup(groups, i, k);
      }
      NotInJoin(groups[i], " ", c);
    }
  }

  /** There is only one greedy packing of a word list, so the wrapping is THE
      greedy packing of the text's words. */
  lemma {:induction false} GreedyIsUnique(width: string -> int, maxWidth: int, words: seq<string>, g1: seq<seq<string>>, g2: seq<seq<string>>)
    requires Greedy(width, maxWidth, words, g1) && Greedy(width, maxWidth, words, g2)
    ensures g1 == g2
    decreases |g1|
  {
    if g1 != [] && g2 != [] {
      FirstLineNotShorter(width, maxWidth, words, g1, g2);
      FirstLineNotShorter(width, maxWidth, words, g2, g1);
      var a := g1[0];
      assert Flatten(g1) == a + Flatten(g1[1..]);
      assert Flatten(g2) == g2[0] + Flatten(g2[1..]);
      assert g2[0] == words[..|a|] == a;
      var rest := words[|a|..];
      assert Flatten(g1[1..]) == rest && Flatten(g2[1..]) == rest;
      GreedyTail(width, maxWidth, words, g1);
      GreedyTail(width, maxWidth, words, g2);
      GreedyIsUnique(width, maxWidth, rest, g1[1..], g2[1..]);
      assert g1 == [a] + g1[1..] && g2 == [a] + g2[1..];
    }
  }

  /** The lines after the first are a greedy packing of the remaining words. */
  lemma GreedyTail(width: string -> int, maxWidth: int, words: seq<string>, groups: seq<seq<string>>)
    requires Greedy(width, maxWidth, words, groups) && groups != []
    ensures Greedy(width, maxWidth, words[|groups[0]|..], groups[1..])
  {
    assert Flatten(groups) == groups[0] + Flatten(groups[1..]);
    assert words[|groups[0]|..] == Flatten(groups[1..]);
  }

  /** In two greedy packings of the same words, the first line of the one is no
      shorter than that of the other: a longer first line would have had to
      close before a word that, by the other packing, fits. */
  lemma FirstLineNotShorter(width: string -> int, maxWidth: int, words: seq<string>, g1: seq<seq<string>>, g2: seq<seq<string>>)
    requires Greedy(width, maxWidth, words, g1) && Greedy(width, maxWidth, words, g2)
    requires g1 != [] && g2 != []
    ensures |g1[0]| >= |g2[0]|
  {
    var a, b := g1[0], g2[0];
    assert Flatten(g1) == a + Flatten(g1[1..]);
    assert Flatten(g2) == b + Flatten(g2[1..]);
    if |a| < |b| {
      assert Flatten(g1[1..]) != [];
      assert |g1| > 1;
      assert Flatten(g1[1..]) == g1[1] + Flatten(g1[2..]) by {
        assert g1[1..][1..] == g1[2..];
      }
      var c := g1[1][0];
      assert words[|a|] == c;
      assert b[..|a| + 1] == a + [c] by {
        assert b[..|a| + 1] == words[..|a| + 1];
        assert a + [c] == words[..|a| + 1];
      }
    }
  }

  /** The wrapping is the one and only greedy packing of the text's words. */
  lemma WrapIsTheGreedyPacking(text: string, width: string -> int, maxWidth: int, groups: seq<seq<string>>)
    requires Greedy(width, maxWidth, SplitOn(text, ' '), groups)
    ensures groups == WrapGroups(text, width, maxWidth)
  {
    WrapIsGreedy(text, width, maxWidth);
    GreedyIsUnique(width, maxWidth, SplitOn(text, ' '), groups, WrapGroups(text, width, maxWidth));
  }

  /** For text without `\n`, turning the output's line breaks back into spaces
      gives the text back: wrapping only ever replaces a space by a break. */
  lemma {:induction false} WrapRoundTrip(text: string, width: string -> int, maxWidth: int)
    requires '\n' !in text
    ensures Replace(WrapTextSmart(text, width, maxWidth), '\n', ' ') == text
  {
    var words := SplitOn(text, ' ');
    var groups := WrapGroups(text, width, maxWidth);
    assert [] + words == words;
    LinesFreeOf(text, width, maxWidth, '\n');
    ReplaceJoin(Lines(groups), '\n', ' ');
    JoinLines(groups);
  }

  /** Joining the lines with spaces is joining all their words with spaces. */
  lemma {:induction false} JoinLines(groups: seq<seq<string>>)
    requires forall i :: 0 <= i < |groups| ==> groups[i] != []
    ensures JoinWith(Lines(groups), " ") == JoinWith(Flatten(groups), " ")
    decreases |groups|
  {
    if |groups| > 1 {
      var rest := groups[1..];
      JoinLines(rest);
      assert Lines(groups)[1..] == Lines(rest);
      assert Flatten(rest) != [] by {
        assert Flatten(rest) == rest[0] + Flatten(rest[1..]);
      }
      JoinAppend(groups[0], Flatten(rest), " ");
    } else if |groups| == 1 {
      assert groups[1..] == [];
      assert Flatten(groups) == groups[0];
      assert Lines(groups) == [JoinWith(groups[0], " ")];
    }
  }

  /** Joining two non-empty lists is joining each and putting the separator between. */
  lemma {:induction false} JoinAppend(a: seq<string>, b: seq<string>, sep: string)
    requires a != [] && b != []
    ensures JoinWith(a + b, sep) == JoinWith(a, sep) + sep + JoinWith(b, sep)
    decreases |a|
  {
    if |a| == 1 {
      assert (a + b)[1..] == b;
    } else {
      assert (a + b)[1..] == a[1..] + b;
      JoinAppend(a[1..], b, sep);
    }
  }

  /** Replacing `a` by `b` in a join of `a`-free pieces separated by `a` joins
      them with `b` instead. */
  lemma {:induction false} ReplaceJoin(xs: seq<string>, a: char, b: char)
    requires forall i :: 0 <= i < |xs| ==> a !in xs[i]
    ensures Replace(JoinWith(xs, [a]), a, b) == JoinWith(xs, [b])
    decreases |xs|
  {
    if |xs| == 1 {
      ReplaceFree(xs[0], a, b);
    } else if |xs| > 1 {
      assert forall i :: 0 <= i < |xs| - 1 ==> xs[1..][i] == xs[i + 1];
      ReplaceJoin(xs[1..], a, b);
      ReplaceFree(xs[0], a, b);
      var rest := JoinWith(xs[1..], [a]);
      assert JoinWith(xs, [a]) == xs[0] + [a] + rest;
      assert JoinWith(xs, [b]) == xs[0] + [b] + JoinWith(xs[1..], [b]);
      ReplaceConcat(xs[0] + [a], rest, a, b);
      ReplaceConcat(xs[0], [a], a, b);
      assert Replace([a], a, b) == [b];
    }
  }

  lemma ReplaceFree(s: string, a: char, b: char)
    requires a !in s
    ensures Replace(s, a, b) == s
  {
  }

  lemma ReplaceConcat(x: string, y: string, a: char, b: char)
    ensures Replace(x + y, a, b) == Replace(x, a, b) + Replace(y, a, b)
  {
  }

  /** A character of one piece occurs in the join. */
  lemma {:induction false} InJoin(xs: seq<string>, sep: string, k: nat, c: char)
    requires k < |xs| && c in xs[k]
    ensures c in JoinWith(xs, sep)
    decreases |xs|
  {
    if |xs| > 1 {
      if k > 0 {
        InJoin(xs[1..], sep, k - 1, c);
      }
      assert JoinWith(xs, sep) == xs[0] + sep + JoinWith(xs[1..], sep);
    }
  }

  /** A character in neither the pieces nor the separator is not in the join. */
  lemma {:induction false} NotInJoin(xs: seq<string>, sep: string, c: char)
    requires c !in sep
    requires forall k :: 0 <= k < |xs| ==> c !in xs[k]
    ensures c !in JoinWith(xs, sep)
    decreases |xs|
  {
    if |xs| > 1 {
      NotInJoin(xs[1..], sep, c);
    }
  }

  /** Every word of a line is one of the flattened words. */
  lemma {:induction false} WordOfGroup(groups: seq<seq<string>>, i: nat, k: nat)
    requires i < |groups| && k < |groups[i]|
    ensures groups[i][k] in Flatten(groups)
    decreases |groups|
  {
    if i == 0 {
      assert Flatten(groups)[k] == groups[0][k];
    } else {
      WordOfGroup(groups[1..], i - 1, k);
    }
  }
}
