/**
 * Characters as the ECMAScript regular-expression engine and
 * `String.prototype.trim` classify them, and a few facts about strings
 * that the passes of `cleanMarkdown` share.
 */
module Text {

  /** ECMAScript LineTerminator: LF, CR, LINE SEPARATOR and PARAGRAPH SEPARATOR.
      Under the `m` flag, `^` matches just after one of these. */
  predicate IsLineTerminator(c: char) {
    c == '\n' || c == '\r' || c == '\U{2028}' || c == '\U{2029}'
  }

  /** ECMAScript WhiteSpace: TAB, VT, FF, ZWNBSP and the Unicode category Zs. */
  predicate IsWhiteSpace(c: char) {
    c == '\t' || c == '\U{000B}' || c == '\U{000C}' || c == '\U{FEFF}'
    || c == ' ' || c == '\U{00A0}' || c == '\U{1680}' || ('\U{2000}' <= c <= '\U{200A}')
    || c == '\U{202F}' || c == '\U{205F}' || c == '\U{3000}'
  }

  /** The regex class `\s`; `trim()` strips exactly the same characters. */
  predicate IsWs(c: char) {
    IsWhiteSpace(c) || IsLineTerminator(c)
  }

  predicate AllWs(s: string) {
    forall i :: 0 <= i < |s| ==> IsWs(s[i])
  }

  /** Neither the first nor the last character is whitespace. */
  predicate NoEdgeWs(s: string) {
    s == [] || (!IsWs(s[0]) && !IsWs(s[|s| - 1]))
  }

  function NewlineCount(c: char): nat {
    if c == '\n' then 1 else 0
  }

  /** Number of '\n' characters in s. */
  function Newlines(s: string): nat {
    multiset(s)['\n']
  }

  lemma NewlinesCons(s: string)
    requires s != []
    ensures Newlines(s) == NewlineCount(s[0]) + Newlines(s[1..])
  {
    assert s == [s[0]] + s[1..];
  }

  lemma {:induction false} NewlinesBound(s: string)
    ensures Newlines(s) <= |s|
    decreases |s|
  {
    if s != [] {
      assert s == [s[0]] + s[1..];
      NewlinesBound(s[1..]);
    }
  }

  /** The non-whitespace characters of s, in order. */
  function NonWs(s: string): string {
    if s == [] then [] else (if IsWs(s[0]) then [] else [s[0]]) + NonWs(s[1..])
  }

  lemma {:induction false} NonWsAppend(a: string, b: string)
    ensures NonWs(a + b) == NonWs(a) + NonWs(b)
    decreases |a|
  {
    if a == [] {
      assert a + b == b;
    } else {
      DropFromAppend(a, b, 1);
      NonWsAppend(a[1..], b);
    }
  }

  /** A prefix without non-whitespace adds nothing to NonWs. */
  lemma NonWsAfterBlank(a: string, b: string)
    requires NonWs(a) == []
    ensures NonWs(a + b) == NonWs(b)
  {
    NonWsAppend(a, b);
    assert NonWs(a) + NonWs(b) == NonWs(b);
  }

  lemma NonWsCons(c: char, s: string)
    ensures NonWs([c] + s) == (if IsWs(c) then [] else [c]) + NonWs(s)
  {
    assert ([c] + s)[1..] == s;
  }

  lemma {:induction false} AllWsIffNoNonWs(s: string)
    ensures AllWs(s) <==> NonWs(s) == []
    decreases |s|
  {
    if s != [] {
      AllWsIffNoNonWs(s[1..]);
      assert forall i :: 1 <= i < |s| ==> s[i] == s[1..][i - 1];
    }
  }

  /** Dropping j characters from a + b, j within a, drops them from a. */
  lemma DropFromAppend(a: string, b: string, j: nat)
    requires j <= |a|
    ensures (a + b)[j..] == a[j..] + b
  {
  }

  /** s is its part before k, its k-th character and its part after k. */
  lemma SplitAt(s: string, k: nat)
    requires k < |s|
    ensures s == s[..k] + [s[k]] + s[k + 1..]
  {
    assert s[k..] == [s[k]] + s[k + 1..];
    assert s == s[..k] + s[k..];
  }

  lemma NewlinesSplit(s: string, k: nat)
    requires k <= |s|
    ensures Newlines(s) == Newlines(s[..k]) + Newlines(s[k..])
  {
    assert s == s[..k] + s[k..];
  }

  lemma AllWsSuffix(s: string, k: nat)
    requires AllWs(s) && k <= |s|
    ensures AllWs(s[k..])
  {
    assert forall i :: 0 <= i < |s| - k ==> s[k..][i] == s[k + i];
  }

  /** Equal NonWs texts stay equal behind the same character. */
  lemma NonWsConsEq(c: char, x: string, y: string)
    requires NonWs(x) == NonWs(y)
    ensures NonWs([c] + x) == NonWs([c] + y)
  {
    NonWsCons(c, x);
    NonWsCons(c, y);
  }

  lemma AllWsConcat(a: string, b: string)
    requires AllWs(a) && AllWs(b)
    ensures AllWs(a + b)
  {
    assert forall i :: |a| <= i < |a + b| ==> (a + b)[i] == b[i - |a|];
  }

  lemma AllWsPrefix(s: string, k: nat)
    requires AllWs(s) && k <= |s|
    ensures AllWs(s[..k])
  {
    assert forall i :: 0 <= i < k ==> s[..k][i] == s[i];
  }

  lemma ConcatAssoc(a: string, b: string, c: string)
    ensures a + (b + c) == (a + b) + c
  {
  }

  /** Length of the maximal whitespace prefix of s. */
  function WsRunLen(s: string): (k: nat)
    ensures k <= |s| && AllWs(s[..k])
    ensures k < |s| ==> !IsWs(s[k])
  {
    if s == [] || !IsWs(s[0]) then 0
    else
      var k := 1 + WsRunLen(s[1..]);
      assert s[..k] == [s[0]] + s[1..][..k - 1];
      k
  }

  /** A whitespace run followed by a non-whitespace character (or by nothing) is the maximal one. */
  lemma {:induction false} WsRunLenOf(w: string, t: string)
    requires AllWs(w)
    requires t == [] || !IsWs(t[0])
    ensures WsRunLen(w + t) == |w|
    decreases |w|
  {
    if w == [] {
      assert w + t == t;
    } else {
      DropFromAppend(w, t, 1);
      WsRunLenOf(w[1..], t);
    }
  }
}
