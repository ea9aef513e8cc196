/**
 * `convertToMarkdown` (script.js lines 147-156) as a function of the editor's
 * HTML. The HTML-to-Markdown conversion of the Turndown library is a
 * parameter; what the handler then writes into the Markdown pane is the
 * cleaned result.
 */
module Convert {
  import opened Text
  import opened Optional
  import opened Edges
  import opened Clean

  /** None when the handler returns early on whitespace-only HTML. */
  function ConvertToMarkdown(html: string, turndown: string -> string): Option<string> {
    if Trim(html) == [] then None else Some(CleanMarkdown(turndown(html)))
  }

  /** The handler does nothing exactly for whitespace-only HTML; otherwise the
      Markdown it shows is the converter's output with only whitespace
      removed, is already clean, and has no whitespace at either end. */
  lemma ConvertSpec(html: string, turndown: string -> string)
    ensures ConvertToMarkdown(html, turndown).None? <==> AllWs(html)
    ensures var r := ConvertToMarkdown(html, turndown);
      r.Some? ==> (NonWs(r.value) == NonWs(turndown(html))
        && CleanMarkdown(r.value) == r.value && NoEdgeWs(r.value))
  {
    TrimSpec(html);
    CleanRemovesOnlyWhitespace(turndown(html));
    CleanIdempotent(turndown(html));
    CleanNoEdgeWhitespace(turndown(html));
  }
}
