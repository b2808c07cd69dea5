/** The string operations the preparation script relies on, with Python's
    semantics: `str.isspace`, `str.strip()`, `str.split()` (no argument),
    `str.split(sep)`, the slice `s[:e]` and `str.replace`. */
module Text {

  /** Python's `str.isspace` for one character: the characters that
      `str.split()` and `str.strip()` treat as whitespace. */
  predicate IsSpace(c: char)
  {
    || c == ' '
    || ('\t' <= c <= '\r')             // tab, line feed, vertical tab, form feed, carriage return
    || ('\U{1C}' <= c <= '\U{1F}')     // file, group, record and unit separators
    || c == '\U{85}' || c == '\U{A0}' || c == '\U{1680}'
    || ('\U{2000}' <= c <= '\U{200A}')
    || c == '\U{2028}' || c == '\U{2029}' || c == '\U{202F}' || c == '\U{205F}' || c == '\U{3000}'
  }

  predicate AllSpace(s: string)
  {
    forall i :: 0 <= i < |s| ==> IsSpace(s[i])
  }

  /** A token of `str.split()`: non-empty and free of whitespace. */
  predicate IsToken(t: string)
  {
    |t| > 0 && forall i :: 0 <= i < |t| ==> !IsSpace(t[i])
  }

  // ---------------------------------------------------------------------------
  // str.strip()

  function StripLeft(s: string): (r: string)
    ensures |r| <= |s| && r == s[|s| - |r|..]
    ensures forall k :: 0 <= k < |s| - |r| ==> IsSpace(s[k])
    ensures |r| == 0 || !IsSpace(r[0])
  {
    if |s| > 0 && IsSpace(s[0]) then
      var r := StripLeft(s[1..]);
      assert forall k :: 0 < k < |s| ==> s[k] == s[1..][k - 1];
      r
    else s
  }

  function StripRight(s: string): (r: string)
    ensures |r| <= |s| && r == s[..|r|]
    ensures forall k :: |r| <= k < |s| ==> IsSpace(s[k])
    ensures |r| == 0 || !IsSpace(r[|r| - 1])
  {
    if |s| > 0 && IsSpace(s[|s| - 1]) then
      var r := StripRight(s[..|s| - 1]);
      assert forall k :: 0 <= k < |s| - 1 ==> s[k] == s[..|s| - 1][k];
      r
    else s
  }

  /** `r` is the infix of `s` starting at `i` with only whitespace cut before
      and after it. */
  predicate TrimmedAt(s: string, r: string, i: nat)
  {
    && i + |r| <= |s| && r == s[i..i + |r|]
    && AllSpace(s[..i]) && AllSpace(s[i + |r|..])
  }

  /** `s.strip()`: `s` without the whitespace at either end. It is an infix
      of `s` with only whitespace cut before and after it, and it neither
      starts nor ends with whitespace, so nothing more could be cut;
      `StripKeepsTokens` shows it splits like `s`. */
  function Strip(s: string): (r: string)
    ensures exists i :: TrimmedAt(s, r, i)
    ensures |r| == 0 || (!IsSpace(r[0]) && !IsSpace(r[|r| - 1]))
  {
    StripTrimmed(s);
    StripRight(StripLeft(s))
  }

  lemma StripTrimmed(s: string)
    ensures TrimmedAt(s, StripRight(StripLeft(s)), |s| - |StripLeft(s)|)
  {
    StripLeftCut(s);
    StripRightCut(StripLeft(s));
    TrimmedOfCuts(s, StripLeft(s), StripRight(StripLeft(s)));
  }

  /** Cutting a whitespace prefix and then a whitespace suffix leaves an infix
      with only whitespace around it. */
  lemma TrimmedOfCuts(s: string, l: string, r: string)
    requires |l| <= |s| && l == s[|s| - |l|..] && AllSpace(s[..|s| - |l|])
    requires |r| <= |l| && r == l[..|r|] && AllSpace(l[|r|..])
    ensures TrimmedAt(s, r, |s| - |l|)
  {
    var i := |s| - |l|;
    assert s[i..i + |r|] == l[..|r|];
    assert s[i + |r|..] == l[|r|..];
  }

  /** What `StripLeft` cuts is whitespace. */
  lemma StripLeftCut(s: string)
    ensures AllSpace(s[..|s| - |StripLeft(s)|])
  {
    var i := |s| - |StripLeft(s)|;
    forall k | 0 <= k < i ensures IsSpace(s[..i][k]) {
      assert s[..i][k] == s[k];
    }
  }

  /** What `StripRight` cuts is whitespace. */
  lemma StripRightCut(l: string)
    ensures AllSpace(l[|StripRight(l)|..])
  {
    var n := |StripRight(l)|;
    forall k | 0 <= k < |l| - n ensures IsSpace(l[n..][k]) {
      assert l[n..][k] == l[n + k];
    }
  }

  // ---------------------------------------------------------------------------
  // str.split() with no argument

  /** The longest whitespace-free prefix of `s`. */
  function Word(s: string): (w: string)
    ensures |w| <= |s| && w == s[..|w|]
    ensures forall i :: 0 <= i < |w| ==> !IsSpace(w[i])
    ensures |w| == |s| || IsSpace(s[|w|])
  {
    if |s| == 0 || IsSpace(s[0]) then "" else [s[0]] + Word(s[1..])
  }

  /** `s.split()`: the maximal runs of non-whitespace characters, in order. */
  function Tokens(s: string): (ts: seq<string>)
    ensures forall i :: 0 <= i < |ts| ==> IsToken(ts[i])
    ensures |ts| == 0 <==> AllSpace(s)
    decreases |s|
  {
    if |s| == 0 then []
    else if IsSpace(s[0]) then
      assert forall k :: 0 < k < |s| ==> s[k] == s[1..][k - 1];
      Tokens(s[1..])
    else
      var w := Word(s);
      [w] + Tokens(s[|w|..])
  }

  /** Every gap is a non-empty run of whitespace: tabs, spaces, or a mix. */
  predicate AllGaps(gaps: seq<string>)
  {
    forall i :: 0 <= i < |gaps| ==> |gaps[i]| > 0 && AllSpace(gaps[i])
  }

  /** Tokens written out with `gaps[i]` between `ts[i]` and `ts[i + 1]` (the
      layout of a metadata line: tab-separated, or space-aligned). */
  function Layout(ts: seq<string>, gaps: seq<string>): string
    requires |ts| == 0 ==> |gaps| == 0
    requires |ts| > 0 ==> |gaps| == |ts| - 1
  {
    if |ts| <= 1 then (if |ts| == 0 then "" else ts[0])
    else ts[0] + gaps[0] + Layout(ts[1..], gaps[1..])
  }

  /** Leading whitespace does not change the tokens. */
  lemma {:induction false} TokensSkipLeading(pre: string, s: string)
    requires AllSpace(pre)
    ensures Tokens(pre + s) == Tokens(s)
  {
    if |pre| > 0 {
      assert (pre + s)[0] == pre[0];
      assert (pre + s)[1..] == pre[1..] + s;
      TokensSkipLeading(pre[1..], s);
    } else {
      assert pre + s == s;
    }
  }

  lemma {:induction false} WordExtend(s: string, u: string)
    requires |Word(s)| < |s| || |u| == 0 || IsSpace(u[0])
    ensures Word(s + u) == Word(s)
    decreases |s|
  {
    if |s| == 0 {
      assert s + u == u;
    } else if IsSpace(s[0]) {
      assert (s + u)[0] == s[0];
    } else {
      assert (s + u)[0] == s[0];
      assert (s + u)[1..] == s[1..] + u;
      assert Word(s) == [s[0]] + Word(s[1..]);
      WordExtend(s[1..], u);
      assert Word(s + u) == [s[0]] + Word(s[1..] + u);
    }
  }

  /** One trailing whitespace character does not change the tokens. */
  lemma {:induction false} TokensAppendSpace(s: string, c: char)
    requires IsSpace(c)
    ensures Tokens(s + [c]) == Tokens(s)
    decreases |s|
  {
    if |s| == 0 {
      assert Tokens([c]) == Tokens([c][1..]);
    } else if IsSpace(s[0]) {
      assert (s + [c])[1..] == s[1..] + [c];
      TokensAppendSpace(s[1..], c);
    } else {
      var w := Word(s);
      assert (s + [c])[0] == s[0];
      WordExtend(s, [c]);
      assert (s + [c])[|w|..] == s[|w|..] + [c];
      TokensAppendSpace(s[|w|..], c);
      assert Tokens(s + [c]) == [w] + Tokens(s[|w|..] + [c]);
    }
  }

  /** Trailing whitespace does not change the tokens. */
  lemma {:induction false} TokensSkipTrailing(s: string, post: string)
    requires AllSpace(post)
    ensures Tokens(s + post) == Tokens(s)
    decreases |post|
  {
    if |post| > 0 {
      var n := |post| - 1;
      assert s + post == (s + post[..n]) + [post[n]];
      TokensAppendSpace(s + post[..n], post[n]);
      TokensSkipTrailing(s, post[..n]);
    } else {
      assert s + post == s;
    }
  }

  /** Whitespace at both ends does not change the tokens. */
  lemma TokensIgnorePadding(pre: string, s: string, post: string)
    requires AllSpace(pre) && AllSpace(post)
    ensures Tokens(pre + s + post) == Tokens(s)
  {
    TokensSkipTrailing(s, post);
    TokensSkipLeading(pre, s + post);
    assert pre + s + post == pre + (s + post);
  }

  /** `s.strip().split()` is `s.split()`: the strip is redundant. */
  lemma StripKeepsTokens(s: string)
    ensures Tokens(Strip(s)) == Tokens(s)
  {
    StripLeftKeepsTokens(s);
    StripRightKeepsTokens(StripLeft(s));
  }

  lemma StripLeftKeepsTokens(s: string)
    ensures Tokens(StripLeft(s)) == Tokens(s)
  {
    var l := StripLeft(s);
    var i := |s| - |l|;
    StripLeftCut(s);
    assert s == s[..i] + l;
    TokensSkipLeading(s[..i], l);
  }

  lemma StripRightKeepsTokens(s: string)
    ensures Tokens(StripRight(s)) == Tokens(s)
  {
    var r := StripRight(s);
    StripRightCut(s);
    assert s == r + s[|r|..];
    TokensSkipTrailing(r, s[|r|..]);
  }

  /** A token followed by a run of whitespace is the first token of the line. */
  lemma {:induction false} TokensOfTokenThenGap(t: string, gap: string, rest: string)
    requires IsToken(t) && |gap| > 0 && AllSpace(gap)
    ensures Tokens(t + gap + rest) == [t] + Tokens(rest)
  {
    var s := t + gap + rest;
    assert s == t + (gap + rest);
    assert s[0] == t[0];
    assert (gap + rest)[0] == gap[0];
    WordOfToken(t);
    WordExtend(t, gap + rest);
    assert Word(s) == t;
    assert s[|t|..] == gap + rest;
    TokensSkipLeading(gap, rest);
    assert Tokens(s) == [t] + Tokens(s[|t|..]);
  }

  lemma {:induction false} WordOfToken(t: string)
    requires forall i :: 0 <= i < |t| ==> !IsSpace(t[i])
    ensures Word(t) == t
    decreases |t|
  {
    if |t| > 0 {
      WordOfToken(t[1..]);
    }
  }

  /** Round trip: splitting tokens laid out with any whitespace runs between
      them gives the tokens back. */
  lemma {:induction false} TokensOfLayout(ts: seq<string>, gaps: seq<string>)
    requires forall i :: 0 <= i < |ts| ==> IsToken(ts[i])
    requires |ts| == 0 ==> |gaps| == 0
    requires |ts| > 0 ==> |gaps| == |ts| - 1
    requires AllGaps(gaps)
    ensures Tokens(Layout(ts, gaps)) == ts
  {
    if |ts| == 1 {
      WordOfToken(ts[0]);
      assert ts[0][|ts[0]|..] == "";
    } else if |ts| > 1 {
      assert AllGaps(gaps[1..]) by {
        forall i | 0 <= i < |gaps[1..]| ensures |gaps[1..][i]| > 0 && AllSpace(gaps[1..][i]) {
          assert gaps[1..][i] == gaps[i + 1];
        }
      }
      TokensOfTokenThenGap(ts[0], gaps[0], Layout(ts[1..], gaps[1..]));
      TokensOfLayout(ts[1..], gaps[1..]);
    }
  }

  // ---------------------------------------------------------------------------
  // str.split(c) with an explicit separator

  /** `s.split(c)`: the pieces between occurrences of `c`, in order. There is
      always at least one piece and none contains `c`. */
  function SplitOn(s: string, c: char): (parts: seq<string>)
    ensures |parts| >= 1
    ensures forall i :: 0 <= i < |parts| ==> c !in parts[i]
  {
    if |s| == 0 then [""]
    else
      var init := SplitOn(s[..|s| - 1], c);
      if s[|s| - 1] == c then init + [""]
      else init[..|init| - 1] + [init[|init| - 1] + [s[|s| - 1]]]
  }

  /** `c.join(parts)` */
  function JoinWith(parts: seq<string>, c: char): string
    requires |parts| >= 1
  {
    if |parts| == 1 then parts[0]
    else JoinWith(parts[..|parts| - 1], c) + [c] + parts[|parts| - 1]
  }

  /** A character other than the separator extends the last piece. */
  lemma SplitOnPush(x: string, d: char, c: char)
    requires d != c
    ensures var px := SplitOn(x, c);
            SplitOn(x + [d], c) == px[..|px| - 1] + [px[|px| - 1] + [d]]
  {
    var s := x + [d];
    assert s[..|s| - 1] == x;
  }

  /** Appending text without the separator only extends the last piece. */
  lemma {:induction false} SplitOnExtend(x: string, q: string, c: char)
    requires c !in q
    ensures var px := SplitOn(x, c);
            SplitOn(x + q, c) == px[..|px| - 1] + [px[|px| - 1] + q]
    decreases |q|
  {
    var px := SplitOn(x, c);
    var m := |px|;
    if |q| == 0 {
      assert x + q == x;
      assert px[m - 1] + q == px[m - 1];
      assert px[..m - 1] + [px[m - 1] + q] == px;
    } else {
      var n := |q| - 1;
      var d := q[n];
      assert d != c by { assert d in q; }
      assert x + q == (x + q[..n]) + [d];
      SplitOnExtend(x, q[..n], c);
      var init := SplitOn(x + q[..n], c);
      SplitOnPush(x + q[..n], d, c);
      assert init[..m - 1] == px[..m - 1];
      assert init[m - 1] + [d] == px[m - 1] + q;
    }
  }

  /** A separator ends the last piece and starts an empty one. */
  lemma SplitOnSeparator(x: string, c: char)
    ensures SplitOn(x + [c], c) == SplitOn(x, c) + [""]
  {
    var s := x + [c];
    assert s[..|s| - 1] == x;
  }

  /** Round trip: joining the pieces of a split gives the string back. */
  lemma {:induction false} JoinSplit(s: string, c: char)
    ensures JoinWith(SplitOn(s, c), c) == s
    decreases |s|
  {
    if |s| > 0 {
      var s' := s[..|s| - 1];
      var x := s[|s| - 1];
      assert s == s' + [x];
      var init := SplitOn(s', c);
      JoinSplit(s', c);
      var k := |init|;
      if x == c {
        SplitOnSeparator(s', c);
        assert (init + [""])[..k] == init;
        assert JoinWith(init + [""], c) == JoinWith(init, c) + [c] + "";
      } else {
        var parts := init[..k - 1] + [init[k - 1] + [x]];
        assert SplitOn(s, c) == parts;
        if k == 1 {
          assert JoinWith(parts, c) == init[0] + [x];
        } else {
          assert parts[..k - 1] == init[..k - 1];
          assert JoinWith(parts, c) == JoinWith(init[..k - 1], c) + [c] + (init[k - 1] + [x]);
          assert JoinWith(init, c) == JoinWith(init[..k - 1], c) + [c] + init[k - 1];
        }
      }
    }
  }

  /** Round trip the other way: splitting joined separator-free pieces gives them back. */
  lemma {:induction false} SplitJoin(parts: seq<string>, c: char)
    requires |parts| >= 1
    requires forall i :: 0 <= i < |parts| ==> c !in parts[i]
    ensures SplitOn(JoinWith(parts, c), c) == parts
  {
    var k := |parts|;
    if k == 1 {
      SplitOnExtend("", parts[0], c);
      assert "" + parts[0] == parts[0];
      assert SplitOn("", c) == [""];
    } else {
      var init := parts[..k - 1];
      SplitJoin(init, c);
      var x := JoinWith(init, c);
      var last := parts[k - 1];
      SplitOnSeparator(x, c);
      var p' := SplitOn(x + [c], c);
      assert p' == init + [""];
      SplitOnExtend(x + [c], last, c);
      assert p'[..k - 1] == init;
      assert p'[k - 1] + last == last;
      assert init + [last] == parts;
      assert JoinWith(parts, c) == (x + [c]) + last;
    }
  }

  /** The piece after the last `c`, as `s.split(c)[-1]` gives it. */
  function LastPiece(s: string, c: char): string
  {
    var parts := SplitOn(s, c);
    parts[|parts| - 1]
  }

  /** The last piece is the longest separator-free suffix: it has no `c`, it
      ends `s`, and it is all of `s` or is preceded by a `c`. */
  lemma {:induction false} LastPieceIsLongestSuffix(s: string, c: char)
    ensures var r := LastPiece(s, c);
            && c !in r
            && |r| <= |s| && r == s[|s| - |r|..]
            && (|r| == |s| || s[|s| - |r| - 1] == c)
    decreases |s|
  {
    if |s| > 0 {
      var s' := s[..|s| - 1];
      var x := s[|s| - 1];
      assert s == s' + [x];
      LastPieceIsLongestSuffix(s', c);
      if x == c {
        SplitOnSeparator(s', c);
      } else {
        SplitOnExtend(s', [x], c);
        var r' := LastPiece(s', c);
        assert LastPiece(s, c) == r' + [x];
        if |r'| < |s'| {
          assert s[|s| - |r' + [x]| - 1] == s'[|s'| - |r'| - 1];
        }
      }
    }
  }

  /** The piece after a separator that is followed by separator-free text is that text. */
  lemma LastPieceAfterSeparator(dir: string, name: string, c: char)
    requires c !in name
    ensures LastPiece(dir + [c] + name, c) == name
  {
    SplitOnSeparator(dir, c);
    SplitOnExtend(dir + [c], name, c);
    assert "" + name == name;
  }

  // ---------------------------------------------------------------------------
  // slicing and replacing

  /** Python's `s[:e]`: a negative end counts from the back, and an end out of
      range is clamped, so `s[:-4]` of a string shorter than 4 is "". */
  function SliceTo(s: string, e: int): (r: string)
    ensures |r| <= |s| && r == s[..|r|]
    ensures e >= 0 ==> |r| == (if e <= |s| then e else |s|)
    ensures e < 0 ==> |r| == (if |s| + e >= 0 then |s| + e else 0)
  {
    var end := if e < 0 then |s| + e else e;
    if end < 0 then "" else if end > |s| then s else s[..end]
  }

  /** Dropping a suffix by its length with a negative slice end gives the rest back. */
  lemma SliceToDropsSuffix(stem: string, ext: string)
    requires |ext| >= 1
    ensures SliceTo(stem + ext, -|ext|) == stem
  {
    assert (stem + ext)[..|stem|] == stem;
  }

  /** `s.replace(a, b)` for single characters. */
  function Replace(s: string, a: char, b: char): string
  {
    seq(|s|, i requires 0 <= i < |s| => if s[i] == a then b else s[i])
  }

  /** After the replacement `a` no longer occurs, every other character is
      kept in place, and replacing commutes with concatenation. */
  lemma ReplaceFacts(s: string, t: string, a: char, b: char)
    requires a != b
    ensures |Replace(s, a, b)| == |s| && a !in Replace(s, a, b)
    ensures forall i :: 0 <= i < |s| && s[i] != a ==> Replace(s, a, b)[i] == s[i]
    ensures Replace(s + t, a, b) == Replace(s, a, b) + Replace(t, a, b)
    ensures a !in s ==> Replace(s, a, b) == s
  {
  }
}
