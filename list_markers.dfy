/**
 * The third pass of `cleanMarkdown` (script.js line 143):
 * `replace(/^- +/gm, '- ')`. With the `m` flag `^` matches at index 0 and
 * just after every line terminator; `- +` is a hyphen followed by a greedy run
 * of U+0020 spaces (a tab does not count). The scan `NormalizeFrom` follows
 * the regex engine left to right; `NormalizeLines` is a reference definition
 * that rewrites the text line by line, and the two are proved equal.
 */
module ListMarkers {
  import opened Text

  /** Length of the maximal prefix of U+0020 spaces. */
  function SpaceRunLen(s: string): (k: nat)
    ensures k <= |s|
    ensures forall i :: 0 <= i < k ==> s[i] == ' '
    ensures k < |s| ==> s[k] != ' '
  {
    if s == [] || s[0] != ' ' then 0
    else
      var k := 1 + SpaceRunLen(s[1..]);
      assert forall i :: 1 <= i < k ==> s[i] == s[1..][i - 1];
      k
  }

  /** A line that opens with a hyphen and a space. */
  predicate StartsWithMarker(l: string) {
    |l| >= 2 && l[0] == '-' && l[1] == ' '
  }

  /** Length of the match of `^- +` at the front of s, or 0 when there is none. */
  function MarkerMatchLen(s: string, atLineStart: bool): (k: nat)
    ensures k <= |s|
  {
    if atLineStart && StartsWithMarker(s) then 1 + SpaceRunLen(s[1..]) else 0
  }

  /** A match is a hyphen at a line start followed by the longest run of spaces,
      at least one; there is no match exactly when no marker is at a line start. */
  lemma MarkerMatchLenSpec(s: string, atLineStart: bool)
    ensures var k := MarkerMatchLen(s, atLineStart);
      k > 0 ==> (atLineStart && 2 <= k && s[0] == '-'
        && (forall i :: 1 <= i < k ==> s[i] == ' ') && (k == |s| || s[k] != ' '))
    ensures MarkerMatchLen(s, atLineStart) == 0 <==> !(atLineStart && StartsWithMarker(s))
  {
    if atLineStart && StartsWithMarker(s) {
      var k := MarkerMatchLen(s, atLineStart);
      assert forall i :: 1 <= i < k ==> s[i] == s[1..][i - 1];
    }
  }

  /** The global replacement, scanning from the front of s; `atLineStart` tells
      whether `^` matches at that point. After a match the scan resumes right
      behind it, which is never a line start; after a copied character it is a
      line start exactly when that character is a line terminator. */
  function NormalizeFrom(s: string, atLineStart: bool): string
    decreases |s|
  {
    if s == [] then []
    else
      var k := MarkerMatchLen(s, atLineStart);
      if k > 0 then "- " + NormalizeFrom(s[k..], false)
      else [s[0]] + NormalizeFrom(s[1..], IsLineTerminator(s[0]))
  }

  function NormalizeListMarkers(s: string): string {
    NormalizeFrom(s, true)
  }

  // ---------------------------------------------------------------------
  // Lines and the reference definition

  predicate SingleLine(s: string) {
    forall i :: 0 <= i < |s| ==> !IsLineTerminator(s[i])
  }

  /** Length of the first line of s (up to its first line terminator). */
  function LineLen(s: string): (k: nat)
    ensures k <= |s| && SingleLine(s[..k])
    ensures k < |s| ==> IsLineTerminator(s[k])
  {
    if s == [] || IsLineTerminator(s[0]) then 0
    else
      var k := 1 + LineLen(s[1..]);
      assert forall i :: 1 <= i < k ==> s[..k][i] == s[1..][..k - 1][i - 1];
      k
  }

  /** The lines of s, split at every line terminator. */
  function Lines(s: string): seq<string>
    decreases |s|
  {
    var k := LineLen(s);
    if k == |s| then [s] else [s[..k]] + Lines(s[k + 1..])
  }

  /** The line terminators of s, in order. */
  function Terminators(s: string): string {
    if s == [] then [] else (if IsLineTerminator(s[0]) then [s[0]] else []) + Terminators(s[1..])
  }

  /** One line after the replacement. */
  function NormalizeLine(l: string): string {
    if StartsWithMarker(l) then "- " + l[1 + SpaceRunLen(l[1..])..] else l
  }

  /** Every line rewritten by NormalizeLine, the terminators kept. */
  function NormalizeLines(s: string): string
    decreases |s|
  {
    var k := LineLen(s);
    if k == |s| then NormalizeLine(s)
    else NormalizeLine(s[..k]) + [s[k]] + NormalizeLines(s[k + 1..])
  }

  /** A line whose marker, if any, is followed by exactly one space. */
  predicate Canonical(l: string) {
    StartsWithMarker(l) ==> |l| == 2 || l[2] != ' '
  }

  function Spaces(n: nat): string {
    if n == 0 then [] else [' '] + Spaces(n - 1)
  }

  lemma {:induction false} SpacesOf(s: string)
    requires forall i :: 0 <= i < |s| ==> s[i] == ' '
    ensures s == Spaces(|s|)
    decreases |s|
  {
    if s != [] {
      SpacesOf(s[1..]);
      assert s == [s[0]] + s[1..];
    }
  }

  /** A line with a marker becomes "- " and the rest of the line after the
      spaces; the spaces removed are all U+0020 and at least one stays. Any
      other line is unchanged. No line terminator is introduced. */
  lemma NormalizeLineSpec(l: string)
    ensures !StartsWithMarker(l) ==> NormalizeLine(l) == l
    ensures StartsWithMarker(l) ==>
      var r := NormalizeLine(l);
      |r| >= 2 && r[..2] == "- " && Canonical(r) && |r| <= |l|
      && l == "-" + Spaces(|l| - |r| + 1) + r[2..]
    ensures SingleLine(l) ==> SingleLine(NormalizeLine(l))
  {
    if StartsWithMarker(l) {
      NormalizeLineMarker(l);
      if SingleLine(l) {
        NormalizeLineSingle(l);
      }
    }
  }

  lemma NormalizeLineMarker(l: string)
    requires StartsWithMarker(l)
    ensures var r := NormalizeLine(l);
      |r| >= 2 && r[..2] == "- " && Canonical(r) && |r| <= |l|
      && l == "-" + Spaces(|l| - |r| + 1) + r[2..]
  {
    var m := SpaceRunLen(l[1..]);
    var rest := l[1 + m..];
    assert NormalizeLine(l) == "- " + rest;
    MarkerSpaces(l, m);
    MarkerRest(rest);
  }

  /** A line with a marker is the hyphen, its run of spaces and the rest. */
  lemma MarkerSpaces(l: string, m: nat)
    requires StartsWithMarker(l) && m == SpaceRunLen(l[1..])
    ensures l == "-" + Spaces(m) + l[1 + m..]
  {
    var sp := l[1..1 + m];
    assert forall i :: 0 <= i < m ==> sp[i] == l[1..][i];
    SpacesOf(sp);
    assert l == [l[0]] + sp + l[1 + m..];
  }

  /** "- " before a text that does not start with a space is canonical. */
  lemma MarkerRest(rest: string)
    requires rest == [] || rest[0] != ' '
    ensures var r := "- " + rest;
      |r| >= 2 && r[..2] == "- " && Canonical(r) && r[2..] == rest
  {
    var r := "- " + rest;
    assert |r| >= 3 ==> r[2] == rest[0];
  }

  lemma NormalizeLineSingle(l: string)
    requires StartsWithMarker(l) && SingleLine(l)
    ensures SingleLine(NormalizeLine(l))
  {
    var rest := l[1 + SpaceRunLen(l[1..])..];
    SingleLineSuffix(l, 1 + SpaceRunLen(l[1..]));
    SingleLineAppend("- ", rest);
  }

  lemma SingleLineSuffix(l: string, j: nat)
    requires j <= |l| && SingleLine(l)
    ensures SingleLine(l[j..])
  {
    assert forall i :: 0 <= i < |l| - j ==> l[j..][i] == l[j + i];
  }

  lemma SingleLineAppend(a: string, b: string)
    requires SingleLine(a) && SingleLine(b)
    ensures SingleLine(a + b)
  {
    assert forall i :: |a| <= i < |a + b| ==> (a + b)[i] == b[i - |a|];
  }

  /** A line is left alone exactly when it is canonical. */
  lemma CanonicalIffFixed(l: string)
    ensures NormalizeLine(l) == l <==> Canonical(l)
  {
    if StartsWithMarker(l) {
      var m := SpaceRunLen(l[1..]);
      if |l| == 2 || l[2] != ' ' {
        assert m == 1;
        assert NormalizeLine(l) == [l[0], l[1]] + l[2..];
        assert l == [l[0], l[1]] + l[2..];
      } else {
        assert l[1..][1] == ' ';
        assert |NormalizeLine(l)| < |l|;
      }
    }
  }

  /** Rewriting a line twice is rewriting it once. */
  lemma NormalizeLineIdempotent(l: string)
    ensures NormalizeLine(NormalizeLine(l)) == NormalizeLine(l)
  {
    NormalizeLineSpec(l);
    CanonicalIffFixed(NormalizeLine(l));
  }

  // ---------------------------------------------------------------------
  // The scan equals the reference

  lemma {:induction false} LineLenOf(l: string, t: string)
    requires SingleLine(l)
    requires t == [] || IsLineTerminator(t[0])
    ensures LineLen(l + t) == |l|
    decreases |l|
  {
    if l == [] {
      assert l + t == t;
    } else {
      DropFromAppend(l, t, 1);
      LineLenOf(l[1..], t);
    }
  }

  lemma {:induction false} SpaceRunLenAppend(x: string, t: string)
    requires t == [] || t[0] != ' '
    ensures SpaceRunLen(x + t) == SpaceRunLen(x)
    decreases |x|
  {
    if x == [] {
      assert x + t == t;
    } else {
      DropFromAppend(x, t, 1);
      SpaceRunLenAppend(x[1..], t);
    }
  }

  /** Away from a line start, the scan copies the rest of a line unchanged. */
  lemma {:induction false} ScanPassesLine(l: string, t: string)
    requires SingleLine(l)
    requires t == [] || IsLineTerminator(t[0])
    ensures NormalizeFrom(l + t, false) == l + NormalizeFrom(t, false)
    decreases |l|
  {
    if l == [] {
      assert l + t == t;
    } else {
      DropFromAppend(l, t, 1);
      ScanPassesLine(l[1..], t);
      ConcatAssoc([l[0]], l[1..], NormalizeFrom(t, false));
      assert [l[0]] + l[1..] == l;
    }
  }

  /** At a line terminator the scan copies it and is at a line start after it. */
  lemma ScanAtTerminator(t: string)
    requires t != [] && IsLineTerminator(t[0])
    ensures NormalizeFrom(t, false) == [t[0]] + NormalizeFrom(t[1..], true)
    ensures NormalizeFrom(t, true) == NormalizeFrom(t, false)
  {
  }

  lemma ScanLineMarker(l: string, t: string)
    requires SingleLine(l) && StartsWithMarker(l)
    requires t == [] || IsLineTerminator(t[0])
    ensures NormalizeFrom(l + t, true) == NormalizeLine(l) + NormalizeFrom(t, false)
  {
    var rest := l[1 + SpaceRunLen(l[1..])..];
    ScanMarkerHead(l, t);
    SingleLineSuffix(l, 1 + SpaceRunLen(l[1..]));
    ScanPassesLine(rest, t);
    Regroup(NormalizeFrom(l + t, true), NormalizeFrom(rest + t, false),
      rest, NormalizeFrom(t, false), NormalizeLine(l));
  }

  /** Sequence bookkeeping for ScanLineMarker. */
  lemma Regroup(a: string, b: string, r: string, c: string, n: string)
    requires a == "- " + b && b == r + c && n == "- " + r
    ensures a == n + c
  {
    ConcatAssoc("- ", r, c);
  }

  /** At a marker the scan emits "- " and goes on behind the spaces. */
  lemma ScanMarkerHead(l: string, t: string)
    requires StartsWithMarker(l)
    requires t == [] || IsLineTerminator(t[0])
    ensures NormalizeFrom(l + t, true)
      == "- " + NormalizeFrom(l[1 + SpaceRunLen(l[1..])..] + t, false)
  {
    var m := SpaceRunLen(l[1..]);
    DropFromAppend(l, t, 1);
    SpaceRunLenAppend(l[1..], t);
    assert MarkerMatchLen(l + t, true) == 1 + m;
    DropFromAppend(l, t, 1 + m);
  }

  lemma ScanLineOther(l: string, t: string)
    requires SingleLine(l) && l != [] && !StartsWithMarker(l)
    requires t == [] || IsLineTerminator(t[0])
    ensures NormalizeFrom(l + t, true) == NormalizeLine(l) + NormalizeFrom(t, false)
  {
    assert MarkerMatchLen(l + t, true) == 0;
    DropFromAppend(l, t, 1);
    ScanPassesLine(l[1..], t);
    ConcatAssoc([l[0]], l[1..], NormalizeFrom(t, false));
    assert [l[0]] + l[1..] == l;
  }

  /** From a line start, the scan rewrites one line as NormalizeLine does. */
  lemma ScanLine(l: string, t: string)
    requires SingleLine(l)
    requires t == [] || IsLineTerminator(t[0])
    ensures NormalizeFrom(l + t, true) == NormalizeLine(l) + NormalizeFrom(t, false)
  {
    if l == [] {
      assert l + t == t;
      if t != [] {
        ScanAtTerminator(t);
      }
    } else if StartsWithMarker(l) {
      ScanLineMarker(l, t);
    } else {
      ScanLineOther(l, t);
    }
  }

  /** The regex replacement rewrites the text line by line. */
  lemma {:induction false} NormalizeByLines(s: string)
    ensures NormalizeListMarkers(s) == NormalizeLines(s)
    decreases |s|
  {
    var k := LineLen(s);
    if k == |s| {
      assert s + [] == s;
      ScanLine(s, []);
    } else {
      var l, t := s[..k], s[k..];
      assert s == l + t;
      ScanLine(l, t);
      ScanAtTerminator(t);
      assert t[1..] == s[k + 1..];
      NormalizeByLines(s[k + 1..]);
      ConcatAssoc(NormalizeLine(l), [s[k]], NormalizeLines(s[k + 1..]));
    }
  }

  // ---------------------------------------------------------------------
  // Properties of the reference

  /** A text is its first line, the terminator after it and the rest. */
  lemma SplitFirstLine(s: string)
    requires LineLen(s) < |s|
    ensures s == s[..LineLen(s)] + [s[LineLen(s)]] + s[LineLen(s) + 1..]
  {
    SplitAt(s, LineLen(s));
  }

  lemma LinesOfLine(l: string)
    requires SingleLine(l)
    ensures Lines(l) == [l]
  {
    assert l + [] == l;
    LineLenOf(l, []);
  }

  lemma LinesJoin(l: string, c: char, rest: string)
    requires SingleLine(l) && IsLineTerminator(c)
    ensures Lines(l + [c] + rest) == [l] + Lines(rest)
  {
    var s := l + [c] + rest;
    assert s == l + ([c] + rest);
    LineLenOf(l, [c] + rest);
    assert s[..|l|] == l;
    assert s[|l| + 1..] == rest;
  }

  /** NormalizeLine applied to each line of a list. */
  function NormalizeEach(ls: seq<string>): (r: seq<string>)
  {
    if ls == [] then [] else [NormalizeLine(ls[0])] + NormalizeEach(ls[1..])
  }

  lemma {:induction false} NormalizeEachSpec(ls: seq<string>)
    ensures |NormalizeEach(ls)| == |ls|
    ensures forall i :: 0 <= i < |ls| ==> NormalizeEach(ls)[i] == NormalizeLine(ls[i])
    decreases |ls|
  {
    if ls != [] {
      NormalizeEachSpec(ls[1..]);
    }
  }

  /** The lines of the output are the lines of the input, each rewritten. */
  lemma {:induction false} LinesOfNormalized(s: string)
    ensures Lines(NormalizeLines(s)) == NormalizeEach(Lines(s))
    decreases |s|
  {
    if LineLen(s) == |s| {
      LinesOfNormalizedLast(s);
    } else {
      LinesOfNormalized(s[LineLen(s) + 1..]);
      LinesOfNormalizedStep(s);
    }
  }

  lemma LinesOfNormalizedLast(s: string)
    requires LineLen(s) == |s|
    ensures Lines(NormalizeLines(s)) == NormalizeEach(Lines(s))
  {
    assert s[..LineLen(s)] == s;
    assert Lines(NormalizeLine(s)) == [NormalizeLine(s)] by {
      NormalizeLineSpec(s);
      LinesOfLine(NormalizeLine(s));
    }
    assert NormalizeEach([s]) == [NormalizeLine(s)] + NormalizeEach([]);
  }

  lemma LinesOfNormalizedStep(s: string)
    requires LineLen(s) < |s|
    requires Lines(NormalizeLines(s[LineLen(s) + 1..])) == NormalizeEach(Lines(s[LineLen(s) + 1..]))
    ensures Lines(NormalizeLines(s)) == NormalizeEach(Lines(s))
  {
    var k := LineLen(s);
    var l, rest := s[..k], s[k + 1..];
    assert SingleLine(NormalizeLine(l)) by {
      NormalizeLineSpec(l);
    }
    LinesJoin(NormalizeLine(l), s[k], NormalizeLines(rest));
    assert Lines(s) == [l] + Lines(rest);
    NormalizeEachCons(l, Lines(rest));
  }

  lemma NormalizeEachCons(l: string, ls: seq<string>)
    ensures NormalizeEach([l] + ls) == [NormalizeLine(l)] + NormalizeEach(ls)
  {
    assert ([l] + ls)[1..] == ls;
  }

  lemma {:induction false} TerminatorsAppend(a: string, b: string)
    ensures Terminators(a + b) == Terminators(a) + Terminators(b)
    decreases |a|
  {
    if a == [] {
      assert a + b == b;
    } else {
      DropFromAppend(a, b, 1);
      TerminatorsAppend(a[1..], b);
      ConcatAssoc(if IsLineTerminator(a[0]) then [a[0]] else [], Terminators(a[1..]), Terminators(b));
    }
  }

  lemma {:induction false} TerminatorsOfLine(l: string)
    requires SingleLine(l)
    ensures Terminators(l) == []
    decreases |l|
  {
    if l != [] {
      TerminatorsOfLine(l[1..]);
    }
  }

  lemma TerminatorsJoin(l: string, c: char, rest: string)
    requires SingleLine(l) && IsLineTerminator(c)
    ensures Terminators(l + [c] + rest) == [c] + Terminators(rest)
  {
    TerminatorsAppend(l + [c], rest);
    TerminatorsAppend(l, [c]);
    TerminatorsOfLine(l);
    assert [c][1..] == [];
  }

  /** The output holds the same line terminators as the input, in order. */
  lemma {:induction false} TerminatorsOfNormalized(s: string)
    ensures Terminators(NormalizeLines(s)) == Terminators(s)
    decreases |s|
  {
    var k := LineLen(s);
    var l := s[..k];
    NormalizeLineSpec(l);
    if k == |s| {
      assert l == s;
      TerminatorsOfLine(s);
      TerminatorsOfLine(NormalizeLine(s));
    } else {
      var rest := s[k + 1..];
      SplitFirstLine(s);
      TerminatorsJoin(l, s[k], rest);
      TerminatorsJoin(NormalizeLine(l), s[k], NormalizeLines(rest));
      TerminatorsOfNormalized(rest);
    }
  }

  /** Text whose lines are all canonical is left alone. */
  lemma {:induction false} NormalizeLinesFixes(s: string)
    requires forall i :: 0 <= i < |Lines(s)| ==> Canonical(Lines(s)[i])
    ensures NormalizeLines(s) == s
    decreases |s|
  {
    var k := LineLen(s);
    assert Canonical(Lines(s)[0]);
    CanonicalIffFixed(s[..k]);
    if k == |s| {
      assert s[..k] == s;
    } else {
      var ls := Lines(s[k + 1..]);
      assert forall i :: 0 <= i < |ls| ==> ls[i] == Lines(s)[i + 1];
      NormalizeLinesFixes(s[k + 1..]);
      assert s == s[..k] + [s[k]] + s[k + 1..];
    }
  }

  /** Rewriting twice is rewriting once. */
  lemma {:induction false} NormalizeLinesIdempotent(s: string)
    ensures NormalizeLines(NormalizeLines(s)) == NormalizeLines(s)
    decreases |s|
  {
    var r := NormalizeLines(s);
    LinesOfNormalized(s);
    NormalizeEachSpec(Lines(s));
    forall i | 0 <= i < |Lines(r)|
      ensures Canonical(Lines(r)[i])
    {
      NormalizeLineSpec(Lines(s)[i]);
      CanonicalIffFixed(Lines(s)[i]);
    }
    NormalizeLinesFixes(r);
  }

  // ---------------------------------------------------------------------
  // Properties of the scan

  /** The replacement deletes only whitespace: the non-whitespace text is unchanged
      and the output is no longer than the input. */
  lemma {:induction false} NormalizeRemovesOnlyWs(s: string, atLineStart: bool)
    ensures NonWs(NormalizeFrom(s, atLineStart)) == NonWs(s)
    ensures |NormalizeFrom(s, atLineStart)| <= |s|
    decreases |s|, 1
  {
    if s != [] {
      if MarkerMatchLen(s, atLineStart) > 0 {
        NormalizeRemovesAtMatch(s, atLineStart);
      } else {
        NormalizeRemovesAtCopy(s, atLineStart);
      }
    }
  }

  lemma {:induction false} NormalizeRemovesAtMatch(s: string, atLineStart: bool)
    requires MarkerMatchLen(s, atLineStart) > 0
    ensures NonWs(NormalizeFrom(s, atLineStart)) == NonWs(s)
    ensures |NormalizeFrom(s, atLineStart)| <= |s|
    decreases |s|, 0
  {
    var k := MarkerMatchLen(s, atLineStart);
    MarkerMatchLenSpec(s, atLineStart);
    NormalizeRemovesOnlyWs(s[k..], false);
    MarkerNonWs(s, k);
    DashSpaceNonWs(NormalizeFrom(s[k..], false));
  }

  lemma {:induction false} NormalizeRemovesAtCopy(s: string, atLineStart: bool)
    requires s != [] && MarkerMatchLen(s, atLineStart) == 0
    ensures NonWs(NormalizeFrom(s, atLineStart)) == NonWs(s)
    ensures |NormalizeFrom(s, atLineStart)| <= |s|
    decreases |s|, 0
  {
    var r := NormalizeFrom(s[1..], IsLineTerminator(s[0]));
    NormalizeRemovesOnlyWs(s[1..], IsLineTerminator(s[0]));
    NonWsCons(s[0], r);
    assert s == [s[0]] + s[1..];
    NonWsCons(s[0], s[1..]);
  }

  /** A hyphen followed by spaces contributes only the hyphen to NonWs. */
  lemma MarkerNonWs(s: string, k: nat)
    requires 2 <= k <= |s| && s[0] == '-'
    requires forall i :: 1 <= i < k ==> s[i] == ' '
    ensures NonWs(s) == "-" + NonWs(s[k..])
  {
    NonWsDash(s);
    assert forall i :: 0 <= i < k - 1 ==> s[1..][i] == ' ';
    NonWsSkipSpaces(s[1..], k - 1);
    assert s[1..][k - 1..] == s[k..];
  }

  lemma NonWsDash(s: string)
    requires s != [] && s[0] == '-'
    ensures NonWs(s) == "-" + NonWs(s[1..])
  {
    assert s == [s[0]] + s[1..];
    NonWsCons(s[0], s[1..]);
    assert !IsWs(s[0]);
  }

  /** Leading spaces contribute nothing to NonWs. */
  lemma NonWsSkipSpaces(t: string, j: nat)
    requires j <= |t|
    requires forall i :: 0 <= i < j ==> t[i] == ' '
    ensures NonWs(t) == NonWs(t[j..])
  {
    SpacesNonWs(t[..j]);
    assert t == t[..j] + t[j..];
    NonWsAfterBlank(t[..j], t[j..]);
  }

  lemma SpacesNonWs(x: string)
    requires forall i :: 0 <= i < |x| ==> x[i] == ' '
    ensures NonWs(x) == []
  {
    AllWsIffNoNonWs(x);
  }

  lemma DashSpaceNonWs(r: string)
    ensures NonWs("- " + r) == "-" + NonWs(r)
  {
    assert "- " + r == ['-'] + ([' '] + r);
    NonWsCons('-', [' '] + r);
    NonWsCons(' ', r);
  }

  /** The replacement keeps the first character, and the last one when it is
      not a space. */
  lemma {:induction false} NormalizeKeepsEnds(s: string, atLineStart: bool)
    requires s != []
    ensures NormalizeFrom(s, atLineStart) != []
    ensures NormalizeFrom(s, atLineStart)[0] == s[0]
    ensures s[|s| - 1] != ' ' ==>
      NormalizeFrom(s, atLineStart)[|NormalizeFrom(s, atLineStart)| - 1] == s[|s| - 1]
    decreases |s|, 1
  {
    if MarkerMatchLen(s, atLineStart) > 0 {
      NormalizeKeepsEndsAtMatch(s, atLineStart);
    } else {
      NormalizeKeepsEndsAtCopy(s, atLineStart);
    }
  }

  lemma {:induction false} NormalizeKeepsEndsAtMatch(s: string, atLineStart: bool)
    requires MarkerMatchLen(s, atLineStart) > 0
    ensures NormalizeFrom(s, atLineStart) != []
    ensures NormalizeFrom(s, atLineStart)[0] == s[0]
    ensures s[|s| - 1] != ' ' ==>
      NormalizeFrom(s, atLineStart)[|NormalizeFrom(s, atLineStart)| - 1] == s[|s| - 1]
    decreases |s|, 0
  {
    var k := MarkerMatchLen(s, atLineStart);
    MarkerMatchLenSpec(s, atLineStart);
    var r := NormalizeFrom(s[k..], false);
    assert NormalizeFrom(s, atLineStart) == "- " + r;
    if k < |s| {
      NormalizeKeepsEnds(s[k..], false);
      assert s[k..][|s| - k - 1] == s[|s| - 1];
    } else {
      assert s[|s| - 1] == ' ';
    }
  }

  lemma {:induction false} NormalizeKeepsEndsAtCopy(s: string, atLineStart: bool)
    requires s != [] && MarkerMatchLen(s, atLineStart) == 0
    ensures NormalizeFrom(s, atLineStart) != []
    ensures NormalizeFrom(s, atLineStart)[0] == s[0]
    ensures s[|s| - 1] != ' ' ==>
      NormalizeFrom(s, atLineStart)[|NormalizeFrom(s, atLineStart)| - 1] == s[|s| - 1]
    decreases |s|, 0
  {
    var r := NormalizeFrom(s[1..], IsLineTerminator(s[0]));
    assert NormalizeFrom(s, atLineStart) == [s[0]] + r;
    if |s| > 1 {
      NormalizeKeepsEnds(s[1..], IsLineTerminator(s[0]));
      assert s[1..][|s| - 2] == s[|s| - 1];
    } else {
      assert r == [];
    }
  }
}
