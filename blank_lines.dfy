/**
 * The first pass of `cleanMarkdown` (script.js line 141):
 * `markdown.replace(/\n\s*\n\s*\n/g, '\n\n')`.
 *
 * `CollapseBlankLines` is the regex engine's global scan: at each position
 * either the pattern matches (greedily) and is replaced, or one character is
 * copied and the scan moves on. `CollapseByRuns` is an independent
 * description in terms of maximal whitespace runs, and `CollapseIsByRuns`
 * shows that the two agree.
 */
module BlankLines {
  import opened Text

  /** Index of the first '\n' in s. */
  function FirstNewline(s: string): (i: nat)
    requires Newlines(s) > 0
    ensures i < |s| && s[i] == '\n' && Newlines(s[..i]) == 0
  {
    if s[0] == '\n' then 0
    else
      assert s == [s[0]] + s[1..];
      var i := FirstNewline(s[1..]) + 1;
      assert s[..i] == [s[0]] + s[1..][..i - 1];
      i
  }

  /** Index of the last '\n' in s. */
  function LastNewline(s: string): (i: nat)
    requires Newlines(s) > 0
    ensures i < |s| && s[i] == '\n' && Newlines(s[i + 1..]) == 0
  {
    assert s == [s[0]] + s[1..];
    if Newlines(s[1..]) == 0 then 0
    else
      var i := LastNewline(s[1..]) + 1;
      assert s[i + 1..] == s[1..][i..];
      i
  }

  lemma FirstNewlineBeforeLast(s: string)
    requires Newlines(s) > 0
    ensures FirstNewline(s) <= LastNewline(s)
  {
    var f, l := FirstNewline(s), LastNewline(s);
    assert '\n' !in s[..f];
  }

  /** u belongs to the language of `\n\s*\n\s*\n`: whitespace only, starting and
      ending with '\n', with a third '\n' in between. */
  predicate IsBlankRunMatch(u: string) {
    |u| > 0 && u[0] == '\n' && u[|u| - 1] == '\n' && AllWs(u) && Newlines(u) >= 3
  }

  /** Length of the match of `\n\s*\n\s*\n` at the start of t, or 0 when it does
      not match there. The greedy `\s*` runs to the end of the whitespace run,
      so the match ends at that run's last '\n'. */
  function MatchLen(t: string): (k: nat)
    ensures k <= |t|
  {
    var w := WsRunLen(t);
    if 0 < |t| && t[0] == '\n' && Newlines(t[..w]) >= 3 then LastNewline(t[..w]) + 1 else 0
  }

  /** A positive `MatchLen` is a match of the pattern, at least three characters long. */
  lemma MatchLenIsMatch(t: string)
    ensures MatchLen(t) > 0 ==> MatchLen(t) >= 3 && IsBlankRunMatch(t[..MatchLen(t)])
  {
    var k := MatchLen(t);
    if k > 0 {
      var u := t[..WsRunLen(t)];
      NewlinesUpTo(u, k);
      PrefixMatch(u, k);
      assert u[..k] == t[..k];
    }
  }

  /** When no '\n' follows position k, the prefix before k holds all of them. */
  lemma NewlinesUpTo(s: string, k: nat)
    requires k <= |s| && Newlines(s[k..]) == 0
    ensures Newlines(s[..k]) == Newlines(s)
  {
    NewlinesSplit(s, k);
  }

  /** A whitespace-only prefix from a '\n' to a '\n' holding three '\n' is a
      match, and it is at least three characters long. */
  lemma PrefixMatch(u: string, k: nat)
    requires AllWs(u) && 0 < k <= |u| && u[0] == '\n' && u[k - 1] == '\n' && Newlines(u[..k]) >= 3
    ensures k >= 3 && IsBlankRunMatch(u[..k])
  {
    AllWsPrefix(u, k);
    NewlinesBound(u[..k]);
  }

  /** `MatchLen` is the longest prefix of t in the pattern's language, and it is
      0 exactly when no prefix is: what a backtracking greedy match yields. */
  lemma MatchLenIsLongest(t: string, j: nat)
    requires j <= |t| && IsBlankRunMatch(t[..j])
    ensures 0 < MatchLen(t) && j <= MatchLen(t)
  {
    var w := WsRunLen(t);
    if j > w {
      assert false;
    }
    assert t[..w] == t[..j] + t[j..w];
    var l := LastNewline(t[..w]);
    if j - 1 > l {
      assert false;
    }
  }

  /** The regex replacement as the engine performs it. */
  function CollapseBlankLines(s: string): string
    decreases |s|
  {
    if s == [] then []
    else
      var k := MatchLen(s);
      if k > 0 then "\n\n" + CollapseBlankLines(s[k..])
      else [s[0]] + CollapseBlankLines(s[1..])
  }

  /** The pass only deletes whitespace: the non-whitespace characters, in order,
      are those of the input, and the result is never longer. */
  lemma {:induction false} CollapseRemovesOnlyWs(s: string)
    ensures NonWs(CollapseBlankLines(s)) == NonWs(s)
    ensures |CollapseBlankLines(s)| <= |s|
    decreases |s|, 1
  {
    if s != [] {
      if MatchLen(s) > 0 {
        CollapseRemovesAtMatch(s);
      } else {
        CollapseRemovesAtCopy(s);
      }
    }
  }

  lemma {:induction false} CollapseRemovesAtMatch(s: string)
    requires MatchLen(s) > 0
    ensures NonWs(CollapseBlankLines(s)) == NonWs(s)
    ensures |CollapseBlankLines(s)| <= |s|
    decreases |s|, 0
  {
    var k := MatchLen(s);
    MatchLenIsMatch(s);
    var rest := CollapseBlankLines(s[k..]);
    CollapseRemovesOnlyWs(s[k..]);
    NonWsOfBlankPrefix(s, k);
    NonWsAppend("\n\n", rest);
  }

  /** A whitespace-only prefix contributes nothing to NonWs. */
  lemma NonWsOfBlankPrefix(s: string, k: nat)
    requires k <= |s| && AllWs(s[..k])
    ensures NonWs(s) == NonWs(s[k..])
  {
    AllWsIffNoNonWs(s[..k]);
    assert s == s[..k] + s[k..];
    NonWsAfterBlank(s[..k], s[k..]);
  }

  lemma {:induction false} CollapseRemovesAtCopy(s: string)
    requires s != [] && MatchLen(s) == 0
    ensures NonWs(CollapseBlankLines(s)) == NonWs(s)
    ensures |CollapseBlankLines(s)| <= |s|
    decreases |s|, 0
  {
    var rest := CollapseBlankLines(s[1..]);
    CollapseRemovesOnlyWs(s[1..]);
    NonWsConsEq(s[0], rest, s[1..]);
    assert [s[0]] + s[1..] == s;
  }

  /** What the pass does to one maximal whitespace run w: when w holds three or
      more '\n', the stretch from its first to its last '\n' becomes "\n\n";
      otherwise w is left alone. */
  function CollapseRun(w: string): string
    requires AllWs(w)
  {
    if Newlines(w) >= 3 then w[..FirstNewline(w)] + "\n\n" + w[LastNewline(w) + 1..] else w
  }

  /** A collapsed run is still whitespace only; it holds exactly two '\n' when
      the original held three or more, and is the original run otherwise. */
  lemma CollapseRunSpec(w: string)
    requires AllWs(w)
    ensures AllWs(CollapseRun(w))
    ensures Newlines(w) >= 3 ==> Newlines(CollapseRun(w)) == 2
    ensures Newlines(w) < 3 ==> CollapseRun(w) == w
  {
    if Newlines(w) >= 3 {
      var f, l := FirstNewline(w), LastNewline(w);
      FirstNewlineBeforeLast(w);
      CollapseRunIs(w, f, l);
      KeptPartsBlank(w, f, l);
    }
  }

  /** What surrounds two '\n' in a collapsed run is whitespace without '\n'. */
  lemma KeptPartsBlank(w: string, f: nat, l: nat)
    requires AllWs(w) && f <= l < |w|
    requires Newlines(w[..f]) == 0 && Newlines(w[l + 1..]) == 0
    ensures AllWs(w[..f] + "\n\n" + w[l + 1..])
    ensures Newlines(w[..f] + "\n\n" + w[l + 1..]) == 2
  {
    var a, b := w[..f], w[l + 1..];
    AllWsPrefix(w, f);
    AllWsSuffix(w, l + 1);
    AllWsConcat(a, "\n\n");
    AllWsConcat(a + "\n\n", b);
    assert multiset(a + "\n\n" + b) == multiset(a) + multiset("\n\n") + multiset(b);
  }

  /** Reference definition: collapse each maximal whitespace run on its own. */
  function CollapseByRuns(s: string): (r: string)
    ensures s != [] && !IsWs(s[0]) ==> r != [] && r[0] == s[0]
    ensures s == [] ==> r == []
    decreases |s|
  {
    if s == [] then []
    else if !IsWs(s[0]) then [s[0]] + CollapseByRuns(s[1..])
    else
      var k := WsRunLen(s);
      CollapseRun(s[..k]) + CollapseByRuns(s[k..])
  }

  /** Where a whitespace run w followed by t begins, the pattern matches exactly
      when w starts with '\n' and holds three or more; the match ends at w's last '\n'. */
  lemma MatchLenOfRun(w: string, t: string)
    requires AllWs(w) && w != []
    requires t == [] || !IsWs(t[0])
    ensures MatchLen(w + t) == if w[0] == '\n' && Newlines(w) >= 3 then LastNewline(w) + 1 else 0
  {
    WsRunLenOf(w, t);
    assert (w + t)[..|w|] == w;
  }

  lemma CollapseRunAtNewline(w: string)
    requires AllWs(w) && w != [] && w[0] == '\n' && Newlines(w) >= 3
    ensures CollapseRun(w) == "\n\n" + w[LastNewline(w) + 1..]
  {
    assert FirstNewline(w) == 0;
    assert w[..0] == [];
  }

  lemma CollapseRunShift(w: string)
    requires AllWs(w) && w != [] && !(w[0] == '\n' && Newlines(w) >= 3)
    ensures CollapseRun(w) == [w[0]] + CollapseRun(w[1..])
  {
    NewlinesCons(w);
    if Newlines(w) >= 3 {
      CollapseRunShiftMany(w);
    } else {
      assert w == [w[0]] + w[1..];
    }
  }

  lemma CollapseRunShiftMany(w: string)
    requires AllWs(w) && w != [] && w[0] != '\n' && Newlines(w) >= 3
    ensures CollapseRun(w) == [w[0]] + CollapseRun(w[1..])
  {
    NewlineIndicesShift(w);
    FirstNewlineBeforeLast(w[1..]);
    ShiftAssemble(w, FirstNewline(w[1..]), LastNewline(w[1..]));
  }

  lemma ShiftAssemble(w: string, f: nat, l: nat)
    requires AllWs(w) && w != [] && Newlines(w) >= 3 && Newlines(w[1..]) >= 3
    requires f == FirstNewline(w[1..]) && l == LastNewline(w[1..]) && f <= l
    requires FirstNewline(w) == f + 1 && LastNewline(w) == l + 1
    ensures CollapseRun(w) == [w[0]] + CollapseRun(w[1..])
  {
    CollapseRunIs(w[1..], f, l);
    CollapseRunIs(w, f + 1, l + 1);
    ConsSlices(w, f, l + 1);
  }

  lemma CollapseRunIs(w: string, f: nat, l: nat)
    requires AllWs(w) && Newlines(w) >= 3 && f == FirstNewline(w) && l == LastNewline(w)
    ensures CollapseRun(w) == w[..f] + "\n\n" + w[l + 1..]
  {
  }

  lemma NewlineIndicesShift(w: string)
    requires w != [] && w[0] != '\n' && Newlines(w) > 0
    ensures Newlines(w[1..]) == Newlines(w)
    ensures FirstNewline(w) == FirstNewline(w[1..]) + 1
    ensures LastNewline(w) == LastNewline(w[1..]) + 1
  {
    NewlinesCons(w);
  }

  /** Sequence bookkeeping for CollapseRunShift. */
  lemma ConsSlices(w: string, f: nat, m: nat)
    requires w != [] && f <= m <= |w| - 1
    ensures [w[0]] + (w[1..][..f] + "\n\n" + w[1..][m..]) == w[..f + 1] + "\n\n" + w[m + 1..]
  {
    assert [w[0]] + w[1..][..f] == w[..f + 1];
    assert w[1..][m..] == w[m + 1..];
  }

  /** The scan over a whole whitespace run w, followed by t, emits CollapseRun(w). */
  lemma {:induction false} CollapseRunStep(w: string, t: string)
    requires AllWs(w)
    requires t == [] || !IsWs(t[0])
    ensures CollapseBlankLines(w + t) == CollapseRun(w) + CollapseBlankLines(t)
    decreases |w|, 1
  {
    if w == [] {
      assert w + t == t;
    } else if w[0] == '\n' && Newlines(w) >= 3 {
      CollapseRunStepMatch(w, t);
    } else {
      CollapseRunStepCopy(w, t);
    }
  }

  lemma {:induction false} CollapseRunStepMatch(w: string, t: string)
    requires AllWs(w) && w != [] && w[0] == '\n' && Newlines(w) >= 3
    requires t == [] || !IsWs(t[0])
    ensures CollapseBlankLines(w + t) == CollapseRun(w) + CollapseBlankLines(t)
    decreases |w|, 0
  {
    var k := LastNewline(w) + 1;
    MatchRest(w);
    CollapseRunStep(w[k..], t);
    StepAtMatch(w, t);
  }

  /** What is left of a run after its last '\n'. */
  lemma MatchRest(w: string)
    requires AllWs(w) && Newlines(w) > 0
    ensures 0 < LastNewline(w) + 1 <= |w| && AllWs(w[LastNewline(w) + 1..])
  {
  }

  lemma {:induction false} CollapseRunStepCopy(w: string, t: string)
    requires AllWs(w) && w != [] && !(w[0] == '\n' && Newlines(w) >= 3)
    requires t == [] || !IsWs(t[0])
    ensures CollapseBlankLines(w + t) == CollapseRun(w) + CollapseBlankLines(t)
    decreases |w|, 0
  {
    CollapseRunStep(w[1..], t);
    StepAtCopy(w, t);
  }

  /** One step of CollapseRunStep where the pattern matches at the start of w. */
  lemma StepAtMatch(w: string, t: string)
    requires AllWs(w) && w != [] && w[0] == '\n' && Newlines(w) >= 3
    requires t == [] || !IsWs(t[0])
    requires CollapseBlankLines(w[LastNewline(w) + 1..] + t)
      == CollapseRun(w[LastNewline(w) + 1..]) + CollapseBlankLines(t)
    ensures CollapseBlankLines(w + t) == CollapseRun(w) + CollapseBlankLines(t)
  {
    var k := LastNewline(w) + 1;
    assert MatchLen(w + t) == k by { MatchLenOfRun(w, t); }
    assert CollapseRun(w[k..]) == w[k..];
    var b := CollapseBlankLines(t);
    ScanMatches(w, t, k, w[k..] + b);
    CollapseRunAtNewline(w);
    ConcatAssoc("\n\n", w[k..], b);
  }

  /** One step of CollapseRunStep where the scan copies w's first character. */
  lemma StepAtCopy(w: string, t: string)
    requires AllWs(w) && w != [] && !(w[0] == '\n' && Newlines(w) >= 3)
    requires t == [] || !IsWs(t[0])
    requires CollapseBlankLines(w[1..] + t) == CollapseRun(w[1..]) + CollapseBlankLines(t)
    ensures CollapseBlankLines(w + t) == CollapseRun(w) + CollapseBlankLines(t)
  {
    assert MatchLen(w + t) == 0 by { MatchLenOfRun(w, t); }
    var a, b := CollapseRun(w[1..]), CollapseBlankLines(t);
    ScanCopies(w, t, a + b);
    CollapseRunShift(w);
    ConcatAssoc([w[0]], a, b);
  }

  /** The scan at w + t when the pattern matches k characters there. */
  lemma ScanMatches(w: string, t: string, k: nat, x: string)
    requires 0 < k <= |w| && MatchLen(w + t) == k
    requires CollapseBlankLines(w[k..] + t) == x
    ensures CollapseBlankLines(w + t) == "\n\n" + x
  {
    DropFromAppend(w, t, k);
  }

  /** The scan at w + t when the pattern does not match there. */
  lemma ScanCopies(w: string, t: string, x: string)
    requires w != [] && MatchLen(w + t) == 0
    requires CollapseBlankLines(w[1..] + t) == x
    ensures CollapseBlankLines(w + t) == [w[0]] + x
  {
    DropFromAppend(w, t, 1);
  }

  /** The engine's scan and the run-by-run description agree on every input. */
  lemma {:induction false} CollapseIsByRuns(s: string)
    ensures CollapseBlankLines(s) == CollapseByRuns(s)
    decreases |s|
  {
    if s != [] {
      if !IsWs(s[0]) {
        assert MatchLen(s) == 0;
        CollapseIsByRuns(s[1..]);
      } else {
        var k := WsRunLen(s);
        assert s == s[..k] + s[k..];
        CollapseRunStep(s[..k], s[k..]);
        CollapseIsByRuns(s[k..]);
      }
    }
  }

  /** Scanning s with `pending` '\n's already seen in the current whitespace
      run, no whitespace run ever reaches three '\n's. */
  predicate NoBlankRunFrom(s: string, pending: nat)
    decreases |s|
  {
    pending <= 2 &&
    (s == [] || NoBlankRunFrom(s[1..], if IsWs(s[0]) then pending + NewlineCount(s[0]) else 0))
  }

  /** No whitespace stretch of s (hence no maximal run) holds more than two '\n'. */
  predicate NoBlankRun(s: string) {
    forall i, j :: 0 <= i <= j <= |s| && AllWs(s[i..j]) ==> Newlines(s[i..j]) <= 2
  }

  lemma {:induction false} NoBlankRunFromSlice(s: string, n: nat, i: nat, j: nat)
    requires NoBlankRunFrom(s, n)
    requires i <= j <= |s| && AllWs(s[i..j])
    ensures Newlines(s[i..j]) + (if i == 0 then n else 0) <= 2
    decreases |s|
  {
    if i < j {
      var m := if IsWs(s[0]) then n + NewlineCount(s[0]) else 0;
      if i > 0 {
        assert forall x :: 0 <= x < j - i ==> s[i..j][x] == s[1..][i - 1..j - 1][x];
        assert s[i..j] == s[1..][i - 1..j - 1];
        NoBlankRunFromSlice(s[1..], m, i - 1, j - 1);
      } else {
        assert s[i..j][0] == s[0];
        assert s[0..j][1..] == s[1..][0..j - 1];
        NewlinesCons(s[0..j]);
        NoBlankRunFromSlice(s[1..], m, 0, j - 1);
      }
    }
  }

  lemma {:induction false} SliceNoBlankRunFrom(s: string, n: nat)
    requires n <= 2
    requires forall i, j :: 0 <= i <= j <= |s| && AllWs(s[i..j]) ==>
      Newlines(s[i..j]) + (if i == 0 then n else 0) <= 2
    ensures NoBlankRunFrom(s, n)
    decreases |s|
  {
    if s != [] {
      var m := if IsWs(s[0]) then n + NewlineCount(s[0]) else 0;
      if IsWs(s[0]) {
        assert s[0..1] == [s[0]];
        assert AllWs(s[0..1]);
      }
      forall i, j | 0 <= i <= j <= |s[1..]| && AllWs(s[1..][i..j])
        ensures Newlines(s[1..][i..j]) + (if i == 0 then m else 0) <= 2
      {
        if i == 0 && IsWs(s[0]) {
          assert s[0..j + 1] == [s[0]] + s[1..][i..j];
          assert s[0..j + 1][1..] == s[1..][i..j];
          assert AllWs(s[0..j + 1]);
          NewlinesCons(s[0..j + 1]);
        } else {
          assert s[1..][i..j] == s[i + 1..j + 1];
        }
      }
      SliceNoBlankRunFrom(s[1..], m);
    }
  }

  /** The scanning predicate and the stretch-wise one are the same property. */
  lemma NoBlankRunFromIff(s: string)
    ensures NoBlankRunFrom(s, 0) <==> NoBlankRun(s)
  {
    if NoBlankRunFrom(s, 0) {
      forall i, j | 0 <= i <= j <= |s| && AllWs(s[i..j]) ensures Newlines(s[i..j]) <= 2 {
        NoBlankRunFromSlice(s, 0, i, j);
      }
    }
    if NoBlankRun(s) {
      SliceNoBlankRunFrom(s, 0);
    }
  }

  /** A whitespace run with few enough '\n's, followed by a run-free remainder
      that starts with a non-whitespace character, stays run-free. */
  lemma {:induction false} RunThenNoBlankRun(v: string, x: string, n: nat)
    requires AllWs(v) && n + Newlines(v) <= 2
    requires x == [] || !IsWs(x[0])
    requires NoBlankRunFrom(x, 0)
    ensures NoBlankRunFrom(v + x, n)
    decreases |v|
  {
    if v == [] {
      assert v + x == x;
    } else {
      DropFromAppend(v, x, 1);
      NewlinesCons(v);
      RunThenNoBlankRun(v[1..], x, n + NewlineCount(v[0]));
    }
  }

  lemma {:induction false} CollapseByRunsNoBlankRun(s: string)
    ensures NoBlankRunFrom(CollapseByRuns(s), 0)
    decreases |s|
  {
    if s != [] {
      if !IsWs(s[0]) {
        CollapseByRunsNoBlankRun(s[1..]);
        assert ([s[0]] + CollapseByRuns(s[1..]))[1..] == CollapseByRuns(s[1..]);
      } else {
        var k := WsRunLen(s);
        CollapseByRunsNoBlankRun(s[k..]);
        CollapseRunSpec(s[..k]);
        RunThenNoBlankRun(CollapseRun(s[..k]), CollapseByRuns(s[k..]), 0);
      }
    }
  }

  /** After line 141 no whitespace stretch holds three or more '\n'. */
  lemma CollapseLeavesNoBlankRun(s: string)
    ensures NoBlankRun(CollapseBlankLines(s))
  {
    CollapseIsByRuns(s);
    CollapseByRunsNoBlankRun(s);
    NoBlankRunFromIff(CollapseBlankLines(s));
  }

  /** On a string with no such run the pattern never matches: the pass changes nothing. */
  lemma {:induction false} CollapseFixesNoBlankRunFrom(s: string, n: nat)
    requires NoBlankRunFrom(s, n)
    ensures CollapseBlankLines(s) == s
    decreases |s|
  {
    if s != [] {
      MatchLenIsMatch(s);
      if MatchLen(s) > 0 {
        NoBlankRunFromSlice(s, n, 0, MatchLen(s));
        assert false;
      }
      CollapseFixesNoBlankRunFrom(s[1..], if IsWs(s[0]) then n + NewlineCount(s[0]) else 0);
    }
  }

  lemma CollapseFixesNoBlankRun(s: string)
    requires NoBlankRun(s)
    ensures CollapseBlankLines(s) == s
  {
    NoBlankRunFromIff(s);
    CollapseFixesNoBlankRunFrom(s, 0);
  }

  /** Every stretch of a run-free string is run-free. */
  lemma NoBlankRunSlice(s: string, a: nat, b: nat)
    requires NoBlankRun(s) && a <= b <= |s|
    ensures NoBlankRun(s[a..b])
  {
    forall i, j | 0 <= i <= j <= b - a && AllWs(s[a..b][i..j])
      ensures Newlines(s[a..b][i..j]) <= 2
    {
      assert forall k :: 0 <= k < j - i ==> s[a..b][i..j][k] == s[a + i..a + j][k];
      assert s[a..b][i..j] == s[a + i..a + j];
    }
  }
}
