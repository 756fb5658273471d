/**
 * The outline text box of src/components/TaskInput.tsx: Tab inserts four
 * spaces in place of the selection, and submitting hands the trimmed text to
 * the application's `handleTaskAdd` and clears the box, unless the text is
 * white space only.
 */
module TaskInput {
  import opened Types
  import opened JsString
  import opened TaskParser
  import App

  /** `input.substring(0, start) + '    ' + input.substring(end)`. */
  function TabSplice(input: string, start: int, end: int): string {
    Substring(input, 0, start) + "    " + Substring(input, end, |input|)
  }

  /**
   * For a selection inside the text, Tab replaces exactly the selected
   * characters by four spaces: what is before and after it is kept, and the
   * length changes by four minus the selection's length.
   */
  lemma TabSpliceFacts(input: string, start: int, end: int)
    requires 0 <= start <= end <= |input|
    ensures var r := TabSplice(input, start, end);
      && |r| == |input| - (end - start) + 4
      && r[..start] == input[..start]
      && r[start..start + 4] == "    "
      && r[start + 4..] == input[end..]
  {
  }

  /** At a caret with nothing selected, removing the four inserted spaces gives back the text. */
  lemma TabAtCaret(input: string, caret: int)
    requires 0 <= caret <= |input|
    ensures var r := TabSplice(input, caret, caret);
      r[..caret] + r[caret + 4..] == input
  {
    TabSpliceFacts(input, caret, caret);
    assert input[..caret] + input[caret..] == input;
  }

  // ---------------------------------------------------------------------------
  // The caret after Tab
  // ---------------------------------------------------------------------------

  /** What the delayed callback of `handleKeyDown` writes the caret through: the text area, or nothing. */
  datatype Handle = Detached | TextArea

  /**
   * A React synthetic event's `currentTarget` is reset to null once its
   * handler has returned, so a timeout callback that reads it finds nothing.
   */
  const CurrentTargetAfterDispatch: Handle := Detached

  /**
   * The callback `selectionStart = selectionEnd = start + 4` through `handle`:
   * through the text area it places the caret; through nothing the assignment
   * throws and no caret is placed.
   */
  function DeferredCaret(handle: Handle, start: int): (r: Option<int>)
    ensures r.Some? <==> handle == TextArea
    ensures r.Some? ==> r.value == start + 4
  {
    if handle == TextArea then Some(start + 4) else None
  }

  /** As written, the callback reads `e.currentTarget` after dispatch, so the caret is never placed. */
  lemma TabCaretLost(start: int)
    ensures DeferredCaret(CurrentTargetAfterDispatch, start).None?
  {
  }

  /**
   * With the text area captured before the timeout, the caret lands right
   * after the four inserted spaces, with the text before the selection ahead of them.
   */
  lemma TabCaretCaptured(input: string, start: int, end: int)
    requires 0 <= start <= end <= |input|
    ensures var c := DeferredCaret(TextArea, start);
      && c == Some(start + 4)
      && c.value <= |TabSplice(input, start, end)|
      && TabSplice(input, start, end)[..c.value] == input[..start] + "    "
  {
    TabSpliceFacts(input, start, end);
    var r := TabSplice(input, start, end);
    assert r[..start + 4] == r[..start] + r[start..start + 4];
  }

  /** The first line of trimmed text starts with a non-white character, so it has no indentation. */
  lemma FirstLineUnindented(s: string)
    requires s != [] && !IsWhite(s[0])
    ensures SplitLines(s)[0] != [] && SplitLines(s)[0][0] == s[0]
    ensures LeadingWhite(SplitLines(s)[0]) == 0
  {
    var i := IndexOfNewline(s);
    assert i > 0;
    if i < |s| {
      assert SplitLines(s)[0] == s[..i];
    }
  }

  /** The first unindented line heads the contents of the unindented lines. */
  lemma {:induction false} UnindentedHead(lines: seq<ParsedLine>)
    requires lines != [] && lines[0].indentation == 0
    ensures UnindentedContents(lines) != [] && UnindentedContents(lines)[0] == lines[0].content
    decreases |lines|
  {
    var n := |lines| - 1;
    if n > 0 {
      assert lines[..n][0] == lines[0];
      UnindentedHead(lines[..n]);
    }
  }

  /**
   * Because the submission is trimmed, its first line is always unindented:
   * unless cleaning its marker leaves it empty, it becomes the first new root.
   */
  lemma FirstLineIsFirstRoot(input: string, firstId: Id)
    requires Trim(input) != []
    requires CleanLine(SplitLines(Trim(input))[0]) != []
    ensures var added := ParseForest(Trim(input), firstId);
      added != [] && added[0].content == CleanLine(SplitLines(Trim(input))[0])
  {
    var s := Trim(input);
    var raw := SplitLines(s);
    FirstLineUnindented(s);
    var ps := ParseAll(raw);
    assert ps[0] == ParsedLine(CleanLine(raw[0]), 0);
    var lines := ParsedLines(s);
    assert lines == [ps[0]] + NonEmpty(ps[1..]);
    UnindentedHead(lines);
    ParseFacts(lines, firstId);
  }

  /** The component's `input` and `isExpanded` state. */
  class InputForm {
    var input: string
    var isExpanded: bool

    constructor ()
      ensures input == "" && !isExpanded
    {
      input := "";
      isExpanded := false;
    }

    /** `onChange` of the text box. */
    method Type(text: string)
      modifies this
      ensures input == text && isExpanded == old(isExpanded)
    {
      input := text;
    }

    /** `onFocus` of the collapsed box. */
    method Focus()
      modifies this
      ensures isExpanded && input == old(input)
    {
      isExpanded := true;
    }

    /**
     * `handleSubmit`: non-blank text is trimmed and handed to `onTaskAdd`,
     * returned here, and the box is emptied and collapsed; white-space-only
     * text hands nothing on and changes nothing.
     */
    method HandleSubmit() returns (added: Option<string>)
      modifies this
      ensures Trim(old(input)) != [] ==> added == Some(Trim(old(input))) && input == "" && !isExpanded
      ensures Trim(old(input)) == [] ==> added.None? && unchanged(this)
    {
      var trimmed := Trim(input);
      if trimmed != [] {
        added := Some(trimmed);
        input := "";
        isExpanded := false;
      } else {
        added := None;
      }
    }

    /**
     * `handleKeyDown` with the selection `[start, end)`: Tab splices in four
     * spaces and returns the caret the delayed callback sets, with the text
     * area captured before the timeout (`TabCaretCaptured`; as written the
     * callback reaches nothing, see `TabCaretLost`); any other key changes nothing.
     */
    method HandleKeyDown(key: string, start: int, end: int) returns (caret: Option<int>)
      modifies this
      ensures key == "Tab" ==> input == TabSplice(old(input), start, end) && caret == Some(start + 4)
      ensures key != "Tab" ==> input == old(input) && caret.None?
      ensures isExpanded == old(isExpanded)
    {
      if key == "Tab" {
        input := TabSplice(input, start, end);
        caret := DeferredCaret(TextArea, start);
      } else {
        caret := None;
      }
    }
  }

  /**
   * A submission with `onTaskAdd` bound to the application's `handleTaskAdd`:
   * the roots parsed from the trimmed text are appended, and blank text adds
   * nothing.
   */
  method Submit(form: InputForm, app: App.TaskApp)
    requires app.Valid()
    modifies form, app
    ensures app.Valid()
    ensures Trim(old(form.input)) != [] ==>
      && app.tasks == old(app.tasks) + ParseForest(Trim(old(form.input)), old(app.nextId))
      && app.nextId == old(app.nextId) + |ParsedLines(Trim(old(form.input)))|
      && app.projects == old(app.projects) && app.viewMode == old(app.viewMode)
      && form.input == "" && !form.isExpanded
    ensures Trim(old(form.input)) == [] ==> unchanged(app) && unchanged(form)
  {
    var added := form.HandleSubmit();
    if added.Some? {
      app.HandleTaskAdd(added.value);
    }
  }
}
