/**
 * The `keydown` handler (script.js lines 199-224), reduced to which editor
 * action an event triggers and whether its default is prevented.
 */
module Shortcuts {

  /** The parts of a `KeyboardEvent` the handler reads, and whether the
      rich-text editor is the focused element. */
  datatype KeyEvent = KeyEvent(editorFocused: bool, ctrlKey: bool, metaKey: bool, shiftKey: bool, key: string)

  datatype Action = Bold | Italic | Underline | Convert | IncreaseFontSize | DecreaseFontSize

  /** What the handler does: call `preventDefault`, then run these actions. */
  datatype Outcome = Outcome(preventDefault: bool, actions: seq<Action>)

  function ToLowerChar(c: char): char {
    if 'A' <= c <= 'Z' then (c as int + 32) as char else c
  }

  /** `String.prototype.toLowerCase`, on the ASCII letters. */
  function ToLower(s: string): string {
    if s == [] then [] else [ToLowerChar(s[0])] + ToLower(s[1..])
  }

  /** The `switch` on the lowercased key, entered when Ctrl or Meta is held. */
  function ModifierActions(e: KeyEvent): seq<Action> {
    if !(e.ctrlKey || e.metaKey) then []
    else
      var k := ToLower(e.key);
      if k == "b" then [Bold]
      else if k == "i" then [Italic]
      else if k == "u" then [Underline]
      else if k == "enter" && e.ctrlKey then [Convert]
      else []
  }

  /** The two font-size tests, entered when Ctrl and Shift are both held; they
      compare the key itself, not its lowercase form. */
  function FontSizeActions(e: KeyEvent): seq<Action> {
    if !(e.ctrlKey && e.shiftKey) then []
    else
      (if e.key == ">" then [IncreaseFontSize] else [])
      + (if e.key == "<" then [DecreaseFontSize] else [])
  }

  /** The whole handler: nothing unless the editor has focus, then the switch
      followed by the font-size tests. Every action is preceded by
      `preventDefault`. */
  function HandleKeydown(e: KeyEvent): Outcome {
    if !e.editorFocused then Outcome(false, [])
    else
      var actions := ModifierActions(e) + FontSizeActions(e);
      Outcome(actions != [], actions)
  }

  lemma {:induction false} ToLowerLength(s: string)
    ensures |ToLower(s)| == |s|
  {
    if s != [] {
      ToLowerLength(s[1..]);
    }
  }

  /** A one-character key lowercases to a letter exactly when it is that letter
      in either case. */
  lemma ToLowerSingle(s: string, c: char)
    requires 'a' <= c <= 'z'
    ensures ToLower(s) == [c] <==> s == [c] || s == [(c as int - 32) as char]
  {
    ToLowerLength(s);
    if |s| == 1 {
      assert s == [s[0]];
      assert ToLower(s) == [ToLowerChar(s[0])] + ToLower([]);
    }
  }

  /** The two blocks never both act: a key that passes a font-size test
      lowercases to itself, which no case of the switch matches. */
  lemma BlocksExclusive(e: KeyEvent)
    ensures e.editorFocused ==>
      HandleKeydown(e).actions == ModifierActions(e) + FontSizeActions(e)
    ensures FontSizeActions(e) == [] || ModifierActions(e) == []
    ensures var f := FontSizeActions(e);
      f == [] || f == [IncreaseFontSize] || f == [DecreaseFontSize]
    ensures var m := ModifierActions(e);
      m == [] || m == [Bold] || m == [Italic] || m == [Underline] || m == [Convert]
    ensures FontSizeActions(e) != [] ==> e.ctrlKey && e.shiftKey && (e.key == ">" || e.key == "<")
    ensures e.editorFocused ==>
      HandleKeydown(e).actions == (if FontSizeActions(e) == [] then ModifierActions(e) else FontSizeActions(e))
  {
    if e.ctrlKey && e.shiftKey {
      if e.key == ">" {
        assert e.key != "<" by { assert e.key[0] != "<"[0]; }
        assert FontSizeActions(e) == [IncreaseFontSize] + [];
        assert ToLower(e.key) == e.key;
      } else if e.key == "<" {
        assert FontSizeActions(e) == [] + [DecreaseFontSize];
        assert ToLower(e.key) == e.key;
      } else {
        assert FontSizeActions(e) == [] + [];
      }
    }
    if FontSizeActions(e) == [] {
      assert ModifierActions(e) + [] == ModifierActions(e);
    } else {
      assert [] + FontSizeActions(e) == FontSizeActions(e);
    }
  }

  /** Nothing happens unless the editor has focus; at most one action and
      at most one `preventDefault` per event; the default is prevented
      exactly when an action runs. */
  lemma AtMostOneAction(e: KeyEvent)
    ensures |HandleKeydown(e).actions| <= 1
    ensures HandleKeydown(e).preventDefault <==> HandleKeydown(e).actions != []
    ensures !e.editorFocused ==> HandleKeydown(e) == Outcome(false, [])
  {
    BlocksExclusive(e);
  }

  /** Ctrl+B or Meta+B, in either case and whatever Shift does, is bold; the
      same holds for I (italic) and U (underline). */
  lemma FormattingShortcuts(e: KeyEvent)
    ensures HandleKeydown(e).actions == [Bold] <==>
      e.editorFocused && (e.ctrlKey || e.metaKey) && (e.key == "b" || e.key == "B")
    ensures HandleKeydown(e).actions == [Italic] <==>
      e.editorFocused && (e.ctrlKey || e.metaKey) && (e.key == "i" || e.key == "I")
    ensures HandleKeydown(e).actions == [Underline] <==>
      e.editorFocused && (e.ctrlKey || e.metaKey) && (e.key == "u" || e.key == "U")
  {
    ToLowerSingle(e.key, 'b');
    ToLowerSingle(e.key, 'i');
    ToLowerSingle(e.key, 'u');
    BlocksExclusive(e);
  }

  /** Conversion needs Ctrl itself: Meta+Enter does nothing. */
  lemma ConvertShortcut(e: KeyEvent)
    ensures HandleKeydown(e).actions == [Convert] <==>
      e.editorFocused && e.ctrlKey && ToLower(e.key) == "enter"
    ensures e.metaKey && !e.ctrlKey && e.key == "Enter" ==> HandleKeydown(e) == Outcome(false, [])
  {
    BlocksExclusive(e);
  }

  /** The font size changes only with Ctrl and Shift both held, and only for
      the keys '>' and '<'. */
  lemma FontSizeShortcuts(e: KeyEvent)
    ensures HandleKeydown(e).actions == [IncreaseFontSize] <==>
      e.editorFocused && e.ctrlKey && e.shiftKey && e.key == ">"
    ensures HandleKeydown(e).actions == [DecreaseFontSize] <==>
      e.editorFocused && e.ctrlKey && e.shiftKey && e.key == "<"
  {
    BlocksExclusive(e);
    assert ">" != "<" by { assert ">"[0] != "<"[0]; }
  }
}
