# cleanMarkdown, the theme toggle and the editor shortcuts, in Dafny

This project models the logic of `script.js`, the single script of a browser
editor. The user pastes formatted text into a rich-text pane, and the script
converts its HTML to Markdown. The part that can be stated precisely is
`cleanMarkdown` (script.js:139-145). It runs four passes over the converter's
output:

1. `replace(/\n\s*\n\s*\n/g, '\n\n')` collapses every whitespace stretch that
   holds three or more newlines (module `BlankLines`).
2. `trim()` removes the whitespace at both ends (module `Edges`, `Trim`).
3. `replace(/^- +/gm, '- ')` leaves exactly one space after a list hyphen at
   the start of a line (module `ListMarkers`).
4. `replace(/^\n+|\n+$/g, '')` removes the newlines at both ends (module
   `Edges`, `StripEdgeNewlines`).

Module `Clean` composes the four passes and proves what the result looks
like:
- Only whitespace is ever deleted.
- The result is empty exactly for whitespace-only input.
- The result has no whitespace at either end and no run of three newlines.
- Every list marker in the result has a single space.
- The fourth pass never changes anything.
- The function is idempotent, and its fixed points are characterised.

Smaller modules cover three decisions taken inside event handlers, with their
DOM effects dropped:
- The choice in `toggleTheme` (module `Theme`).
- The `keydown` dispatch table (module `Shortcuts`).
- The early-return guard of `convertToMarkdown` (module `Convert`). The
  HTML-to-Markdown converter is a function parameter of this module.

Character classes follow ECMAScript:
- `\s` and `trim()` use the same set: WhiteSpace (TAB, VT, FF, U+FEFF and
  the Unicode category Zs) together with LineTerminator (LF, CR, U+2028,
  U+2029).
- Under the `m` flag, `^` matches at index 0 and just after any
  LineTerminator.

Both regex passes are written twice:
- As the engine's left-to-right global scan, which is what the source runs:
  `CollapseBlankLines` and `NormalizeFrom`.
- As an independent reference definition: run by run (`CollapseByRuns`) and
  line by line (`NormalizeLines`).

Equivalence lemmas connect each scan to its reference.

The pattern `- +` also matches a hyphen followed by a single space. That
match is replaced by itself, so only lines with two or more spaces after the
hyphen change.

## Model

| member | source | states |
|---|---|---|
| BlankLines.MatchLen | script.js:141 | the length of the blank-line match at a position, 0 when the pattern does not match there; no contract beyond a bound, specified by MatchLenIsMatch and MatchLenIsLongest |
| BlankLines.CollapseBlankLines | script.js:141 | the engine's global scan for the first pass; no contract of its own, specified by CollapseIsByRuns, CollapseRemovesOnlyWs, CollapseLeavesNoBlankRun and CollapseFixesNoBlankRun |
| BlankLines.MatchLenIsMatch | script.js:141 | where the blank-line pattern matches, the matched text starts and ends with '\n', is whitespace only, holds at least three '\n' and is at least three characters long |
| BlankLines.MatchLenIsLongest | script.js:141 | the match is greedy: every prefix in the pattern's language is no longer than the match found |
| BlankLines.CollapseRemovesOnlyWs | script.js:141 | the pass keeps the non-whitespace characters in order and never lengthens the text |
| BlankLines.CollapseRunSpec | script.js:141 | a maximal whitespace run with three or more '\n' is left with exactly two and is still whitespace only; a run with at most two '\n' is unchanged |
| BlankLines.CollapseIsByRuns | script.js:141 | the global scan equals collapsing each maximal whitespace run on its own |
| BlankLines.NoBlankRunFromIff | script.js:141 | the scanning form of "no stretch with three '\n'" is equivalent to the stretch-wise form |
| BlankLines.CollapseLeavesNoBlankRun | script.js:141 | after the pass no whitespace stretch holds more than two '\n' |
| BlankLines.CollapseFixesNoBlankRun | script.js:141 | on text without such a stretch the pass changes nothing |
| BlankLines.NoBlankRunSlice | script.js:141-142 | every slice of text without a blank run is also without one, which is used for the trimmed text |
| Edges.DropLeadingSpec | script.js:142 | dropping from the front removes exactly the longest prefix of matching characters |
| Edges.DropTrailingSpec | script.js:142 | dropping from the back removes exactly the longest suffix of matching characters |
| Edges.StripSpec | script.js:142 | stripping both ends leaves the middle slice, with stripped characters before and after it and neither of its ends strippable |
| Edges.StripFixes | script.js:142 | stripping changes the text exactly when one of its ends is strippable |
| Edges.StripKeepsOthers | script.js:142 | stripping whitespace-class characters keeps the non-whitespace text |
| Edges.Trim | script.js:142 | `trim()`; no contract of its own, specified by TrimSpec |
| Edges.TrimSpec | script.js:142 | trim leaves no whitespace at either end, keeps the non-whitespace text, never lengthens, yields "" exactly for whitespace-only text, and changes its input exactly when an end of it is whitespace |
| Edges.StripEdgeNewlines | script.js:144 | the final pass; no contract of its own, specified by StripEdgeNewlinesSpec |
| Edges.StripEdgeNewlinesSpec | script.js:144 | the final pass returns the middle slice with only '\n' before and after it, leaves no '\n' at either end, keeps the non-whitespace text, and changes the text exactly when it starts or ends with '\n' |
| ListMarkers.SpaceRunLen | script.js:143 | the length of the longest prefix of U+0020 spaces |
| ListMarkers.MarkerMatchLen | script.js:143 | the length of the `^- +` match at a position, 0 when there is none; no contract beyond a bound, specified by MarkerMatchLenSpec |
| ListMarkers.NormalizeFrom | script.js:143 | the engine's global multiline scan for the third pass; no contract of its own, specified by NormalizeByLines, NormalizeRemovesOnlyWs and NormalizeKeepsEnds |
| ListMarkers.NormalizeListMarkers | script.js:143 | the third pass, a scan that starts at a line start; no contract of its own, specified by NormalizeByLines, LinesOfNormalized, TerminatorsOfNormalized and NormalizeLinesIdempotent |
| ListMarkers.MarkerMatchLenSpec | script.js:143 | a match of the marker pattern is a hyphen at a line start followed by the longest run of spaces, at least one; there is no match exactly when no "- " opens the line |
| ListMarkers.NormalizeLineSpec | script.js:143 | a line opening with "- " keeps "- " followed by the rest of the line after its spaces, and the removed characters are all spaces; any other line, including "-" followed by a tab, is unchanged; no line terminator is introduced |
| ListMarkers.CanonicalIffFixed | script.js:143 | a line is left unchanged exactly when its marker, if it has one, is followed by one space only |
| ListMarkers.NormalizeLineIdempotent | script.js:143 | rewriting a line twice gives the same result as rewriting it once |
| ListMarkers.NormalizeByLines | script.js:143 | the multiline global replacement equals rewriting every line separately |
| ListMarkers.NormalizeEachSpec | script.js:143 | rewriting a list of lines keeps its length and rewrites each element |
| ListMarkers.LinesOfNormalized | script.js:143 | the lines of the output are the input's lines, each rewritten |
| ListMarkers.TerminatorsOfNormalized | script.js:143 | the output holds the same line terminators as the input, in the same order |
| ListMarkers.NormalizeLinesFixes | script.js:143 | text whose lines are all canonical is left unchanged |
| ListMarkers.NormalizeLinesIdempotent | script.js:143 | rewriting the text twice gives the same result as rewriting it once |
| ListMarkers.NormalizeRemovesOnlyWs | script.js:143 | the pass deletes only whitespace and never lengthens the text |
| ListMarkers.NormalizeKeepsEnds | script.js:143 | the pass keeps the first character, and keeps the last one when it is not a space |
| Clean.NormalizeKeepsNoBlankRun | script.js:141-143 | the list-marker pass cannot create a run of three '\n' |
| Clean.TrimKeepsNoBlankRun | script.js:141-142 | trimming cannot create a run of three '\n' |
| Clean.NormalizeKeepsNoEdgeWs | script.js:142-143 | after trimming, the list-marker pass leaves no whitespace at either end |
| Clean.ThreePasses | script.js:139-145 | after the first three passes: only whitespace removed, no edge whitespace, no blank run, and the fourth pass already has nothing to do |
| Clean.CleanMarkdown | script.js:139-145 | the four passes in order; no contract of its own, specified by ThreePasses, CleanRemovesOnlyWhitespace, CleanEmptyIffBlank, CleanNoEdgeWhitespace, CleanNoBlankRun, CleanCanonicalLines, CleanFixedPoints and CleanIdempotent |
| Clean.CleanRemovesOnlyWhitespace | script.js:139-145 | cleanMarkdown keeps the non-whitespace characters in order and never lengthens the text |
| Clean.CleanEmptyIffBlank | script.js:139-145 | the output is "" exactly when the input is whitespace only |
| Clean.CleanNoEdgeWhitespace | script.js:139-145 | the output neither starts nor ends with whitespace |
| Clean.CleanNoBlankRun | script.js:139-145 | no whitespace stretch of the output holds more than two '\n' |
| Clean.CleanLastPassRedundant | script.js:144 | the final newline strip never changes the text it receives |
| Clean.CleanCanonicalLines | script.js:139-145 | the output's lines are the trimmed text's lines, each rewritten, and each has at most one space after a leading hyphen |
| Clean.CleanFixedPoints | script.js:139-145 | cleanMarkdown leaves a text unchanged exactly when the text has no edge whitespace, no blank run and only canonical markers |
| Clean.CleanIdempotent | script.js:139-145 | cleaning twice gives the same result as cleaning once |
| Convert.ConvertToMarkdown | script.js:147-156 | the guard and the cleaned output, with the converter as a parameter; no contract of its own, specified by ConvertSpec |
| Convert.ConvertSpec | script.js:147-156 | the handler stops early exactly for whitespace-only HTML; otherwise the Markdown it shows is the converter's output with only whitespace removed, already clean, with no edge whitespace |
| Theme.ToggleTheme | script.js:57-71 | the new theme, icon and button text; no contract of its own, specified by ToggleThemeFlips, ToggleThemeButton and ToggleTwice |
| Theme.ToggleThemeFlips | script.js:57-58 | the new theme is "light" exactly when the old one was "dark", otherwise it is "dark", including when the attribute is unset; it always differs from the old one |
| Theme.ToggleThemeButton | script.js:65-71 | in the dark theme the button shows the sun and "Light"; in the light theme it shows the moon and "Dark" |
| Theme.ToggleTwice | script.js:57-58 | two toggles from "dark" or "light" return to it; from any other value they end in "light" |
| Shortcuts.HandleKeydown | script.js:199-224 | the keydown handler: whether the default is prevented and which actions run; no contract of its own, specified by AtMostOneAction, FormattingShortcuts, ConvertShortcut and FontSizeShortcuts |
| Shortcuts.ModifierActions | script.js:202-212 | the Ctrl-or-Meta switch; no contract of its own, specified by BlocksExclusive, FormattingShortcuts and ConvertShortcut |
| Shortcuts.FontSizeActions | script.js:215-224 | the Ctrl+Shift tests; no contract of its own, specified by BlocksExclusive and FontSizeShortcuts |
| Shortcuts.BlocksExclusive | script.js:202-224 | the switch and the Ctrl+Shift tests never both act, and each yields at most one action |
| Shortcuts.AtMostOneAction | script.js:199-224 | nothing happens unless the editor has focus; at most one action per event; the default is prevented exactly when an action runs |
| Shortcuts.FormattingShortcuts | script.js:202-206 | bold, italic and underline run exactly for Ctrl or Meta with b, i or u in either case, whatever Shift does |
| Shortcuts.ConvertShortcut | script.js:207-212 | conversion runs exactly for Ctrl with a key that lowercases to "enter"; Meta+Enter without Ctrl does nothing |
| Shortcuts.FontSizeShortcuts | script.js:215-224 | the font size grows exactly for Ctrl+Shift with '>' and shrinks exactly for Ctrl+Shift with '<' |
| Shortcuts.ToLower | script.js:203 | `toLowerCase` on ASCII letters; no contract of its own, specified by ToLowerSingle |
| Shortcuts.ToLowerSingle | script.js:203 | a one-character key lowercases to a letter exactly when it is that letter in lower or upper case |

## Left out

- Clipboard handling (script.js:10-52): it reads and writes the browser clipboard through asynchronous DOM APIs.
- The image modal and `insertAtCursor` (script.js:77-128): they build and insert DOM nodes and ranges.
- The Turndown and marked libraries: the HTML-to-Markdown converter is the function parameter `turndown` of `Convert.ConvertToMarkdown`, and rendering the preview is not modelled.
- `localStorage` and the start-up code (script.js:73, 240-254), which reads the saved theme when the page loads.
- Event wiring, `execCommand` formatting and the font-size helpers (script.js:159-197), and the convert-button and modal click listeners (script.js:227-237). `Shortcuts` names the action an event triggers but does not model what the action does to the document.
- Writing the new theme, icon and text into the DOM: `Theme.ToggleTheme` returns these values instead.
- Shortcuts.ToLower: it lowercases only ASCII letters, whereas `toLowerCase` covers all of Unicode. No other character lowercases to a single "b", "i" or "u" or to "enter", so the dispatch decisions are the same. ToLowerSingle is therefore a statement about this ASCII `ToLower`: for `toLowerCase` it fails for 'k', since U+212A KELVIN SIGN also lowercases to "k"; no shortcut uses 'k'.
- UTF-16: JavaScript strings are sequences of UTF-16 code units, while `string` here is a sequence of Unicode scalar values. The passes compare only characters from the Basic Multilingual Plane, so the results agree on well-formed UTF-16. A JavaScript string holding a lone surrogate has no `string` counterpart here and is not modelled.
