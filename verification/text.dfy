/** The string operations of Rust's `str` that the todo code relies on:
    `trim`, `split(',')` and `lines`, over strings as sequences of characters. */
module Text {
  import opened Wrappers
  import opened Search

  /** `char::is_whitespace`: the characters with the Unicode White_Space property. */
  predicate IsWhitespace(c: char)
  {
    || ('\t' <= c <= '\r')
    || c == ' '
    || c == '\U{85}'
    || c == '\U{A0}'
    || c == '\U{1680}'
    || ('\U{2000}' <= c <= '\U{200A}')
    || c == '\U{2028}'
    || c == '\U{2029}'
    || c == '\U{202F}'
    || c == '\U{205F}'
    || c == '\U{3000}'
  }

  /** `str::trim_start`: drops the leading whitespace, and only that. */
  function TrimStart(s: string): (r: string)
    ensures |r| <= |s| && r == s[|s| - |r|..]
    ensures forall i :: 0 <= i < |s| - |r| ==> IsWhitespace(s[i])
    ensures r == [] || !IsWhitespace(r[0])
  {
    if s != [] && IsWhitespace(s[0]) then TrimStart(s[1..]) else s
  }

  /** `str::trim_end`: drops the trailing whitespace, and only that. */
  function TrimEnd(s: string): (r: string)
    ensures |r| <= |s| && r == s[..|r|]
    ensures forall i :: |r| <= i < |s| ==> IsWhitespace(s[i])
    ensures r == [] || !IsWhitespace(r[|r| - 1])
  {
    if s != [] && IsWhitespace(s[|s| - 1]) then TrimEnd(s[..|s| - 1]) else s
  }

  /** `str::trim`: a stretch of `s` that neither starts nor ends with whitespace,
      obtained by dropping nothing but whitespace from both ends. */
  function Trim(s: string): (r: string)
    ensures |r| <= |s|
    ensures r == [] || (!IsWhitespace(r[0]) && !IsWhitespace(r[|r| - 1]))
    ensures (s == [] || (!IsWhitespace(s[0]) && !IsWhitespace(s[|s| - 1]))) ==> r == s
    ensures forall c :: c in r ==> c in s
    ensures exists k :: WhitespaceAround(s, r, k)
  {
    TrimBothEnds(s, TrimStart(s), TrimEnd(TrimStart(s)));
    TrimEnd(TrimStart(s))
  }

  /** Dropping whitespace from the front (giving `a`) and then from the back
      (giving `r`) leaves a middle stretch of `s` with whitespace around it. */
  lemma TrimBothEnds(s: string, a: string, r: string)
    requires |a| <= |s| && a == s[|s| - |a|..]
    requires forall i :: 0 <= i < |s| - |a| ==> IsWhitespace(s[i])
    requires |r| <= |a| && r == a[..|r|]
    requires forall i :: |r| <= i < |a| ==> IsWhitespace(a[i])
    ensures WhitespaceAround(s, r, |s| - |a|)
  {
    var k := |s| - |a|;
    assert r == s[k..k + |r|];
    forall i | k + |r| <= i < |s|
      ensures IsWhitespace(s[i])
    {
      assert s[i] == a[i - k];
    }
  }

  /** `r` is the stretch of `s` that starts at `k`, and everything of `s`
      before and after it is whitespace. */
  predicate WhitespaceAround(s: string, r: string, k: int)
  {
    && 0 <= k <= |s| - |r|
    && r == s[k..k + |r|]
    && (forall i :: 0 <= i < k ==> IsWhitespace(s[i]))
    && (forall i :: k + |r| <= i < |s| ==> IsWhitespace(s[i]))
  }

  /** The pieces joined back together with `c` between each two of them. */
  function Join(pieces: seq<string>, c: char): string
  {
    if |pieces| == 0 then ""
    else if |pieces| == 1 then pieces[0]
    else pieces[0] + [c] + Join(pieces[1..], c)
  }

  /** `str::split(c)`: the maximal `c`-free pieces of `s`, in order. Even the
      empty string yields one (empty) piece. */
  function Split(s: string, c: char): (r: seq<string>)
    ensures |r| >= 1
    ensures forall i :: 0 <= i < |r| ==> c !in r[i]
    decreases |s|
  {
    match IndexOf(s, c)
    case None => [s]
    case Some(i) => [s[..i]] + Split(s[i + 1..], c)
  }

  /** Nothing is lost by splitting: joining the pieces back with the
      separator gives the original string. */
  lemma {:induction false} JoinSplit(s: string, c: char)
    ensures Join(Split(s, c), c) == s
    decreases |s|
  {
    match IndexOf(s, c)
    case None =>
    case Some(i) =>
      var p, rest := s[..i], s[i + 1..];
      assert Split(s, c) == [p] + Split(rest, c);
      assert s == p + [c] + rest;
      JoinSplit(rest, c);
      JoinSplitStep(s, p, rest, c);
  }

  /** The inductive step of `JoinSplit`, with the split of `s` already known. */
  lemma JoinSplitStep(s: string, p: string, rest: string, c: char)
    requires Split(s, c) == [p] + Split(rest, c) && s == p + [c] + rest
    requires Join(Split(rest, c), c) == rest
    ensures Join(Split(s, c), c) == s
  {
    JoinCons(p, Split(rest, c), c);
  }

  /** Joining a first piece in front of at least one more. */
  lemma JoinCons(p: string, pieces: seq<string>, c: char)
    requires |pieces| >= 1
    ensures Join([p] + pieces, c) == p + [c] + Join(pieces, c)
  {
    assert ([p] + pieces)[1..] == pieces;
  }

  lemma SplitPiece(p: string, c: char, rest: string)
    requires c !in p
    ensures Split(p + [c] + rest, c) == [p] + Split(rest, c)
  {
    var s := p + [c] + rest;
    assert s[..|p|] == p && s[|p|] == c && s[|p| + 1..] == rest;
    FirstSeparator(s, p, c);
  }

  /** Joining six pieces spelled out. */
  lemma JoinSix(a: string, b: string, c: string, d: string, e: string, f: string, sep: char)
    ensures Join([a, b, c, d, e, f], sep) == a + [sep] + b + [sep] + c + [sep] + d + [sep] + e + [sep] + f
  {
    var p2, p3, p4, p5, p6 := [a, b], [a, b, c], [a, b, c, d], [a, b, c, d, e], [a, b, c, d, e, f];
    JoinLast(p2, sep);
    assert p2[..1] == [a];
    JoinLast(p3, sep);
    assert p3[..2] == p2;
    JoinLast(p4, sep);
    assert p4[..3] == p3;
    JoinLast(p5, sep);
    assert p5[..4] == p4;
    JoinLast(p6, sep);
    assert p6[..5] == p5;
  }

  /** Joining adds no character other than the separator. */
  lemma {:induction false} JoinAvoids(pieces: seq<string>, c: char, x: char)
    requires x != c
    requires forall i :: 0 <= i < |pieces| ==> x !in pieces[i]
    ensures x !in Join(pieces, c)
  {
    if |pieces| > 1 {
      JoinAvoids(pieces[1..], c, x);
    }
  }

  /** `SplitPiece` for a string already known to be `p + [c] + rest`. */
  lemma SplitAt(s: string, p: string, c: char, rest: string)
    requires c !in p && s == p + [c] + rest
    ensures Split(s, c) == [p] + Split(rest, c)
  {
    SplitPiece(p, c, rest);
  }

  /** Splitting at a separator splits the two sides independently. */
  lemma {:induction false} SplitConcat(a: string, c: char, b: string)
    ensures Split(a + [c] + b, c) == Split(a, c) + Split(b, c)
    decreases |a|
  {
    match IndexOf(a, c)
    case None =>
      SplitAt(a + [c] + b, a, c, b);
    case Some(i) =>
      var a1, a2 := a[..i], a[i + 1..];
      assert a == a1 + [c] + a2;
      SplitConcat(a2, c, b);
      SplitConcatStep(a, a1, a2, c, b);
  }

  /** The inductive step of `SplitConcat`: the first piece of `a` is split
      off on both sides. */
  lemma SplitConcatStep(a: string, a1: string, a2: string, c: char, b: string)
    requires c !in a1 && a == a1 + [c] + a2
    requires Split(a2 + [c] + b, c) == Split(a2, c) + Split(b, c)
    ensures Split(a + [c] + b, c) == Split(a, c) + Split(b, c)
  {
    Reassociate(a1, [c] + a2, [c] + b);
    Reassociate(a1, [c], a2);
    Reassociate(a2, [c], b);
    Reassociate([c], a2, [c] + b);
    SplitAt(a + [c] + b, a1, c, a2 + [c] + b);
    SplitAt(a, a1, c, a2);
    Reassociate([a1], Split(a2, c), Split(b, c));
  }

  /** Concatenation is associative (stated once so that proofs about
      `Split` need not rediscover it). */
  lemma Reassociate<T>(x: seq<T>, y: seq<T>, z: seq<T>)
    ensures x + (y + z) == x + y + z
  {
  }

  /** A string holding the separator splits into at least two pieces. */
  lemma SplitAtLeastTwo(s: string, c: char)
    requires c in s
    ensures |Split(s, c)| >= 2
  {
  }

  /** Joined pieces split into at least as many pieces, and into more as
      soon as one of them holds the separator. */
  lemma {:induction false} SplitJoinCount(pieces: seq<string>, c: char, k: nat)
    requires |pieces| >= 1 && k < |pieces|
    ensures |Split(Join(pieces, c), c)| >= |pieces|
    ensures c in pieces[k] ==> |Split(Join(pieces, c), c)| > |pieces|
  {
    if c in pieces[0] {
      SplitAtLeastTwo(pieces[0], c);
    }
    if |pieces| > 1 {
      SplitConcat(pieces[0], c, Join(pieces[1..], c));
      SplitJoinCount(pieces[1..], c, if k > 0 then k - 1 else 0);
    }
  }

  /** Splitting undoes joining, as long as no piece contains the separator. */
  lemma {:induction false} SplitJoin(pieces: seq<string>, c: char)
    requires |pieces| >= 1
    requires forall i :: 0 <= i < |pieces| ==> c !in pieces[i]
    ensures Split(Join(pieces, c), c) == pieces
  {
    if |pieces| == 1 {
      assert IndexOf(pieces[0], c) == None;
    } else {
      SplitJoin(pieces[1..], c);
      SplitPiece(pieces[0], c, Join(pieces[1..], c));
      assert [pieces[0]] + pieces[1..] == pieces;
    }
  }

  /** Joining grows at the end by one separator and the last piece. */
  lemma {:induction false} JoinLast(pieces: seq<string>, c: char)
    requires |pieces| >= 2
    ensures Join(pieces, c) == Join(pieces[..|pieces| - 1], c) + [c] + pieces[|pieces| - 1]
  {
    if |pieces| > 2 {
      JoinLast(pieces[1..], c);
      assert pieces[1..][..|pieces| - 2] == pieces[..|pieces| - 1][1..];
    }
  }

  /** What `lines` does with the text before a line feed: a carriage return
      right before the line feed belongs to the line ending. */
  function StripCr(line: string): string
  {
    if line != [] && line[|line| - 1] == '\r' then line[..|line| - 1] else line
  }

  /** `str::lines`: the lines of `s`, each without its "\n" or "\r\n" ending; a
      final line ending is optional and does not start an empty last line. */
  function Lines(s: string): (r: seq<string>)
    ensures forall i :: 0 <= i < |r| ==> '\n' !in r[i]
    ensures s == [] <==> r == []
    decreases |s|
  {
    match IndexOf(s, '\n')
    case None => if s == [] then [] else [s]
    case Some(i) => [StripCr(s[..i])] + Lines(s[i + 1..])
  }

  /** A line that ends in a line feed is the first of the lines. */
  lemma LinesFirst(line: string, rest: string)
    requires '\n' !in line
    requires line == [] || line[|line| - 1] != '\r'
    ensures Lines(line + "\n" + rest) == [line] + Lines(rest)
  {
    var s := line + "\n" + rest;
    assert s[..|line|] == line && s[|line|] == '\n' && s[|line| + 1..] == rest;
    FirstSeparator(s, line, '\n');
    assert StripCr(line) == line;
  }

  /** When `s` starts with the separator-free `p` followed by `c`, the first
      `c` of `s` is the one right after `p`. */
  lemma FirstSeparator(s: string, p: string, c: char)
    requires c !in p && |p| < |s| && s[..|p|] == p && s[|p|] == c
    ensures IndexOf(s, c) == Some(|p|)
  {
    assert forall j :: 0 <= j < |p| ==> s[j] == p[j];
  }
}
