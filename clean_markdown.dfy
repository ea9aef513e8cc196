/**
 * `cleanMarkdown` (script.js lines 139-145): the Markdown produced from the
 * pasted HTML goes through four passes, in order: blank-line collapse, trim,
 * list-marker normalisation and removal of the newlines left at the two ends.
 */
module Clean {
  import opened Text
  import opened BlankLines
  import opened Edges
  import opened ListMarkers

  function CleanMarkdown(markdown: string): string {
    StripEdgeNewlines(NormalizeListMarkers(Trim(CollapseBlankLines(markdown))))
  }

  /** Skipping spaces keeps a blank-run state: a space is whitespace free of '\n'. */
  lemma {:induction false} SkipSpacesNoBlankRun(x: string, n: nat, j: nat)
    requires NoBlankRunFrom(x, n)
    requires j <= |x| && forall i :: 0 <= i < j ==> x[i] == ' '
    ensures NoBlankRunFrom(x[j..], n)
    decreases j
  {
    if j > 0 {
      assert forall i :: 0 <= i < j - 1 ==> x[1..][i] == x[i + 1];
      SkipSpacesNoBlankRun(x[1..], n, j - 1);
      assert x[1..][j - 1..] == x[j..];
    }
  }

  /** The list-marker pass deletes only spaces behind a hyphen, which cannot
      join two whitespace runs, so it creates no blank run. */
  lemma {:induction false} NormalizeKeepsNoBlankRun(s: string, atLineStart: bool, n: nat)
    requires NoBlankRunFrom(s, n)
    ensures NoBlankRunFrom(NormalizeFrom(s, atLineStart), n)
    decreases |s|, 1
  {
    if s != [] {
      if MarkerMatchLen(s, atLineStart) > 0 {
        NormalizeKeepsNoBlankRunAtMatch(s, atLineStart, n);
      } else {
        NormalizeKeepsNoBlankRunAtCopy(s, atLineStart, n);
      }
    }
  }

  lemma {:induction false} NormalizeKeepsNoBlankRunAtMatch(s: string, atLineStart: bool, n: nat)
    requires NoBlankRunFrom(s, n) && MarkerMatchLen(s, atLineStart) > 0
    ensures NoBlankRunFrom(NormalizeFrom(s, atLineStart), n)
    decreases |s|, 0
  {
    var k := MarkerMatchLen(s, atLineStart);
    MarkerMatchLenSpec(s, atLineStart);
    assert forall i :: 0 <= i < k - 1 ==> s[1..][i] == s[i + 1];
    SkipSpacesNoBlankRun(s[1..], 0, k - 1);
    assert s[1..][k - 1..] == s[k..];
    var r := NormalizeFrom(s[k..], false);
    NormalizeKeepsNoBlankRun(s[k..], false, 0);
    assert ("- " + r)[1..] == [' '] + r;
    assert ([' '] + r)[1..] == r;
  }

  lemma {:induction false} NormalizeKeepsNoBlankRunAtCopy(s: string, atLineStart: bool, n: nat)
    requires NoBlankRunFrom(s, n) && s != [] && MarkerMatchLen(s, atLineStart) == 0
    ensures NoBlankRunFrom(NormalizeFrom(s, atLineStart), n)
    decreases |s|, 0
  {
    var r := NormalizeFrom(s[1..], IsLineTerminator(s[0]));
    NormalizeKeepsNoBlankRun(s[1..], IsLineTerminator(s[0]),
      if IsWs(s[0]) then n + NewlineCount(s[0]) else 0);
    assert ([s[0]] + r)[1..] == r;
  }

  /** Trimming cannot create a blank run: the result is a slice of the input. */
  lemma TrimKeepsNoBlankRun(s: string)
    requires NoBlankRun(s)
    ensures NoBlankRun(Trim(s))
  {
    StripSpec(s, IsWs);
    var d := |s| - |DropLeading(s, IsWs)|;
    NoBlankRunSlice(s, d, d + |Trim(s)|);
  }

  lemma NormalizeKeepsNoBlankRunAll(s: string)
    requires NoBlankRun(s)
    ensures NoBlankRun(NormalizeListMarkers(s))
  {
    NoBlankRunFromIff(s);
    NormalizeKeepsNoBlankRun(s, true, 0);
    NoBlankRunFromIff(NormalizeListMarkers(s));
  }

  /** The list-marker pass keeps the first character and the last one (which
      is not whitespace, so not a space either). */
  lemma NormalizeKeepsNoEdgeWs(s: string)
    requires NoEdgeWs(s)
    ensures NoEdgeWs(NormalizeListMarkers(s))
  {
    if s != [] {
      NormalizeKeepsEnds(s, true);
    }
  }

  lemma StripEdgeNewlinesNoop(s: string)
    requires NoEdgeWs(s)
    ensures StripEdgeNewlines(s) == s
  {
    StripEdgeNewlinesSpec(s);
  }

  /** What the first three passes leave behind: only whitespace removed, no
      whitespace at either end, no blank run, and so nothing for the fourth
      pass to do. */
  lemma ThreePasses(markdown: string)
    ensures var c := NormalizeListMarkers(Trim(CollapseBlankLines(markdown)));
      NonWs(c) == NonWs(markdown) && |c| <= |markdown|
      && NoEdgeWs(c) && NoBlankRun(c) && CleanMarkdown(markdown) == c
  {
    var a := CollapseBlankLines(markdown);
    var b := Trim(a);
    var c := NormalizeListMarkers(b);
    assert NonWs(c) == NonWs(markdown) && |c| <= |markdown| by {
      CollapseRemovesOnlyWs(markdown);
      TrimSpec(a);
      NormalizeRemovesOnlyWs(b, true);
    }
    assert NoBlankRun(c) by {
      CollapseLeavesNoBlankRun(markdown);
      TrimKeepsNoBlankRun(a);
      NormalizeKeepsNoBlankRunAll(b);
    }
    assert NoEdgeWs(c) by {
      TrimSpec(a);
      NormalizeKeepsNoEdgeWs(b);
    }
    StripEdgeNewlinesNoop(c);
  }

  /** Only whitespace is deleted, so the output is never longer. */
  lemma CleanRemovesOnlyWhitespace(markdown: string)
    ensures NonWs(CleanMarkdown(markdown)) == NonWs(markdown)
    ensures |CleanMarkdown(markdown)| <= |markdown|
  {
    ThreePasses(markdown);
  }

  /** The output is empty exactly when the input is whitespace only. */
  lemma CleanEmptyIffBlank(markdown: string)
    ensures CleanMarkdown(markdown) == [] <==> AllWs(markdown)
  {
    var r := CleanMarkdown(markdown);
    ThreePasses(markdown);
    AllWsIffNoNonWs(markdown);
    AllWsIffNoNonWs(r);
    if r != [] {
      assert !IsWs(r[0]);
    }
  }

  /** The output neither starts nor ends with whitespace. */
  lemma CleanNoEdgeWhitespace(markdown: string)
    ensures NoEdgeWs(CleanMarkdown(markdown))
  {
    ThreePasses(markdown);
  }

  /** No whitespace run of the output holds more than two '\n'. */
  lemma CleanNoBlankRun(markdown: string)
    ensures NoBlankRun(CleanMarkdown(markdown))
  {
    ThreePasses(markdown);
  }

  /** The fourth pass never changes anything: the trim already removed every
      edge newline, and the list-marker pass cannot bring one back. */
  lemma CleanLastPassRedundant(markdown: string)
    ensures CleanMarkdown(markdown) == NormalizeListMarkers(Trim(CollapseBlankLines(markdown)))
  {
    ThreePasses(markdown);
  }

  /** Every line of the output has, if it starts with "- ", exactly one space
      after the hyphen; and the output's lines are those of the trimmed text,
      each rewritten by NormalizeLine. */
  lemma CleanCanonicalLines(markdown: string)
    ensures var b := Trim(CollapseBlankLines(markdown));
      Lines(CleanMarkdown(markdown)) == NormalizeEach(Lines(b))
    ensures forall i :: 0 <= i < |Lines(CleanMarkdown(markdown))| ==>
      Canonical(Lines(CleanMarkdown(markdown))[i])
  {
    var b := Trim(CollapseBlankLines(markdown));
    ThreePasses(markdown);
    NormalizeByLines(b);
    LinesOfNormalized(b);
    NormalizeEachSpec(Lines(b));
    forall i | 0 <= i < |Lines(b)|
      ensures Canonical(NormalizeLine(Lines(b)[i]))
    {
      NormalizeLineSpec(Lines(b)[i]);
      CanonicalIffFixed(Lines(b)[i]);
    }
  }

  /** No whitespace at either end, no blank run, and only canonical list markers. */
  predicate IsClean(markdown: string) {
    NoEdgeWs(markdown) && NoBlankRun(markdown)
    && forall i :: 0 <= i < |Lines(markdown)| ==> Canonical(Lines(markdown)[i])
  }

  /** The texts cleanMarkdown leaves alone are exactly the clean ones. */
  lemma CleanFixedPoints(markdown: string)
    ensures CleanMarkdown(markdown) == markdown <==> IsClean(markdown)
  {
    if CleanMarkdown(markdown) == markdown {
      FixedPointIsClean(markdown);
    }
    if IsClean(markdown) {
      CleanTextIsFixed(markdown);
    }
  }

  /** A text cleanMarkdown leaves alone has the three properties of its outputs. */
  lemma FixedPointIsClean(markdown: string)
    requires CleanMarkdown(markdown) == markdown
    ensures IsClean(markdown)
  {
    CleanNoEdgeWhitespace(markdown);
    CleanNoBlankRun(markdown);
    CleanCanonicalLines(markdown);
  }

  /** Each pass leaves a text with the three properties unchanged. */
  lemma CleanTextIsFixed(markdown: string)
    requires IsClean(markdown)
    ensures CleanMarkdown(markdown) == markdown
  {
    CollapseFixesNoBlankRun(markdown);
    TrimSpec(markdown);
    NormalizeByLines(markdown);
    NormalizeLinesFixes(markdown);
    StripEdgeNewlinesNoop(markdown);
  }

  /** Cleaning twice is cleaning once. */
  lemma CleanIdempotent(markdown: string)
    ensures CleanMarkdown(CleanMarkdown(markdown)) == CleanMarkdown(markdown)
  {
    var r := CleanMarkdown(markdown);
    ThreePasses(markdown);
    CleanCanonicalLines(markdown);
    CleanFixedPoints(r);
  }
}
