/**
 * Stripping characters from both ends of a string. The second pass of
 * `cleanMarkdown` (script.js line 142, `trim()`) strips whitespace; the last
 * pass (line 144, `replace(/^\n+|\n+$/g, '')`) strips '\n' only.
 */
module Edges {
  import opened Text

  predicate All(s: string, p: char -> bool) {
    forall i :: 0 <= i < |s| ==> p(s[i])
  }

  function DropLeading(s: string, p: char -> bool): (r: string)
    ensures |r| <= |s|
    decreases |s|
  {
    if s != [] && p(s[0]) then DropLeading(s[1..], p) else s
  }

  function DropTrailing(s: string, p: char -> bool): (r: string)
    ensures |r| <= |s|
    decreases |s|
  {
    if s != [] && p(s[|s| - 1]) then DropTrailing(s[..|s| - 1], p) else s
  }

  /** DropLeading removes the longest prefix of characters satisfying p. */
  lemma {:induction false} DropLeadingSpec(s: string, p: char -> bool)
    ensures |DropLeading(s, p)| <= |s|
    ensures DropLeading(s, p) == s[|s| - |DropLeading(s, p)|..]
    ensures All(s[..|s| - |DropLeading(s, p)|], p)
    ensures DropLeading(s, p) == [] || !p(DropLeading(s, p)[0])
    decreases |s|
  {
    if s != [] && p(s[0]) {
      DropLeadingSpec(s[1..], p);
      var d := |s| - |DropLeading(s, p)|;
      assert s[1..][d - 1..] == s[d..];
      assert forall i :: 1 <= i < d ==> s[..d][i] == s[1..][..d - 1][i - 1];
    }
  }

  /** DropTrailing removes the longest suffix of characters satisfying p. */
  lemma {:induction false} DropTrailingSpec(s: string, p: char -> bool)
    ensures |DropTrailing(s, p)| <= |s|
    ensures DropTrailing(s, p) == s[..|DropTrailing(s, p)|]
    ensures All(s[|DropTrailing(s, p)|..], p)
    ensures DropTrailing(s, p) == [] || !p(DropTrailing(s, p)[|DropTrailing(s, p)| - 1])
    decreases |s|
  {
    if s != [] && p(s[|s| - 1]) {
      var s' := s[..|s| - 1];
      DropTrailingSpec(s', p);
      var e := |DropTrailing(s, p)|;
      assert s'[..e] == s[..e];
      assert forall i :: 0 <= i < |s| - 1 - e ==> s[e..][i] == s'[e..][i];
    }
  }

  /** Drop from both ends. */
  function Strip(s: string, p: char -> bool): string {
    DropTrailing(DropLeading(s, p), p)
  }

  /** Strip(s, p) is the middle of s between a prefix and a suffix made of
      characters satisfying p, and neither of its ends satisfies p. */
  lemma StripSpec(s: string, p: char -> bool)
    ensures |Strip(s, p)| <= |s|
    ensures var a := |s| - |DropLeading(s, p)|;
      a + |Strip(s, p)| <= |s| && Strip(s, p) == s[a..a + |Strip(s, p)|]
      && All(s[..a], p) && All(s[a + |Strip(s, p)|..], p)
    ensures Strip(s, p) == [] || (!p(Strip(s, p)[0]) && !p(Strip(s, p)[|Strip(s, p)| - 1]))
  {
    var t := DropLeading(s, p);
    DropLeadingSpec(s, p);
    DropTrailingSpec(t, p);
    SliceOfSuffix(s, |s| - |t|, |Strip(s, p)|);
    StripEnds(s, p);
  }

  lemma StripEnds(s: string, p: char -> bool)
    ensures Strip(s, p) == [] || (!p(Strip(s, p)[0]) && !p(Strip(s, p)[|Strip(s, p)| - 1]))
  {
    var t := DropLeading(s, p);
    DropLeadingSpec(s, p);
    DropTrailingSpec(t, p);
    var r := Strip(s, p);
    if r != [] {
      assert r[0] == t[0];
    }
  }

  lemma SliceOfSuffix(s: string, a: nat, e: nat)
    requires a + e <= |s|
    ensures s[a..][..e] == s[a..a + e] && s[a..][e..] == s[a + e..]
  {
  }

  /** Strip changes its input exactly when one of the input's ends satisfies p. */
  lemma StripFixes(s: string, p: char -> bool)
    ensures Strip(s, p) == s <==> (s == [] || (!p(s[0]) && !p(s[|s| - 1])))
  {
    StripSpec(s, p);
  }

  /** Strip deletes only characters satisfying p. */
  lemma StripKeepsOthers(s: string, p: char -> bool)
    requires forall c :: p(c) ==> IsWs(c)
    ensures NonWs(Strip(s, p)) == NonWs(s)
  {
    StripSpec(s, p);
    var r := Strip(s, p);
    var a := |s| - |DropLeading(s, p)|;
    var b := a + |r|;
    assert s == s[..a] + r + s[b..];
    NonWsAroundMiddle(s[..a], r, s[b..], p);
  }

  /** Removing text made of whitespace-class characters around a middle part
      keeps the non-whitespace text. */
  lemma NonWsAroundMiddle(x: string, r: string, y: string, p: char -> bool)
    requires forall c :: p(c) ==> IsWs(c)
    requires All(x, p) && All(y, p)
    ensures NonWs(x + r + y) == NonWs(r)
  {
    NonWsAppend(x + r, y);
    NonWsAppend(x, r);
    AllWsIfAll(x, p);
    AllWsIfAll(y, p);
    AllWsIffNoNonWs(x);
    AllWsIffNoNonWs(y);
  }

  lemma AllWsIfAll(x: string, p: char -> bool)
    requires forall c :: p(c) ==> IsWs(c)
    requires All(x, p)
    ensures AllWs(x)
  {
  }

  /** `String.prototype.trim`: strip the whitespace of `\s` from both ends. */
  function Trim(s: string): string {
    Strip(s, IsWs)
  }

  /** Trim leaves no whitespace at either end, deletes only whitespace, and
      yields "" exactly for whitespace-only input; it changes its input exactly
      when an end of the input is whitespace. */
  lemma TrimSpec(s: string)
    ensures NoEdgeWs(Trim(s))
    ensures NonWs(Trim(s)) == NonWs(s)
    ensures |Trim(s)| <= |s|
    ensures Trim(s) == [] <==> AllWs(s)
    ensures Trim(s) == s <==> NoEdgeWs(s)
  {
    StripSpec(s, IsWs);
    StripFixes(s, IsWs);
    StripKeepsOthers(s, IsWs);
    AllWsIffNoNonWs(s);
    AllWsIffNoNonWs(Trim(s));
  }

  predicate IsNewline(c: char) {
    c == '\n'
  }

  /** `replace(/^\n+|\n+$/g, '')`. Without the `m` flag the first alternative can
      match only at index 0 and the second only on a suffix made of '\n', so
      the replacement deletes the leading and the trailing run of '\n'. */
  function StripEdgeNewlines(s: string): string {
    Strip(s, IsNewline)
  }

  /** StripEdgeNewlines deletes only '\n' at the two ends, leaves no '\n' at either
      end, and changes its input exactly when an end of the input is '\n'. */
  lemma StripEdgeNewlinesSpec(s: string)
    ensures var r := StripEdgeNewlines(s); var a := |s| - |DropLeading(s, IsNewline)|;
      a + |r| <= |s| && r == s[a..a + |r|]
      && All(s[..a], IsNewline) && All(s[a + |r|..], IsNewline)
    ensures var r := StripEdgeNewlines(s); r == [] || (r[0] != '\n' && r[|r| - 1] != '\n')
    ensures NonWs(StripEdgeNewlines(s)) == NonWs(s)
    ensures StripEdgeNewlines(s) == s <==> (s == [] || (s[0] != '\n' && s[|s| - 1] != '\n'))
  {
    StripSpec(s, IsNewline);
    StripFixes(s, IsNewline);
    StripKeepsOthers(s, IsNewline);
  }
}
