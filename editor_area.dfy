/** components/EditorArea.tsx: the two event handlers of the code editor. A handler
    returns the value it passes to `onChange`, or None when it does not call it. */
module EditorArea {
  import opened Types
  import JsString

  /** The four spaces a Tab inserts. */
  const Indent := "    "

  /** What a Tab does: the new editor text and the caret position written to both
      ends of the selection once the text is re-rendered. */
  datatype TabEdit = TabEdit(newValue: string, caret: nat)

  /** `handleChange`: an editable editor forwards the textarea's value unchanged; a
      read-only one never calls `onChange`. */
  function HandleChange(readOnly: bool, targetValue: string): (r: Option<string>)
    ensures r.Some? <==> !readOnly
    ensures r.Some? ==> r.value == targetValue
  {
    if !readOnly then Some(targetValue) else None
  }

  /** The Tab branch of `handleKeyDown`: the selection is replaced by four spaces,
      using `substring` (so out-of-range or reversed positions behave as in
      JavaScript), and the caret goes just after them. */
  function TabInsert(value: string, selectionStart: nat, selectionEnd: nat): (r: TabEdit)
    ensures r.caret == selectionStart + |Indent|
  {
    TabEdit(JsString.Substring(value, 0, selectionStart) + Indent + JsString.SubstringFrom(value, selectionEnd),
            selectionStart + 4)
  }

  /** `handleKeyDown`: only Tab in an editable editor changes the text. */
  function HandleKeyDown(readOnly: bool, key: string, value: string, selectionStart: nat, selectionEnd: nat)
    : (r: Option<TabEdit>)
    ensures r.Some? <==> !readOnly && key == "Tab"
    ensures r.Some? && selectionStart <= selectionEnd <= |value| ==>
              r.value.newValue == value[..selectionStart] + Indent + value[selectionEnd..] &&
              r.value.caret == selectionStart + 4
  {
    if readOnly then None
    else if key == "Tab" then Some(TabInsert(value, selectionStart, selectionEnd))
    else None
  }

  /** For a selection inside the text (as a textarea always reports it), a Tab keeps
      everything before the selection and everything after it, puts four spaces in
      between, grows the text by four minus the selection's length, and leaves the
      caret right after the spaces, inside the new text. */
  lemma TabSplice(value: string, selectionStart: nat, selectionEnd: nat)
    requires selectionStart <= selectionEnd <= |value|
    ensures var e := TabInsert(value, selectionStart, selectionEnd);
            |e.newValue| == |value| - (selectionEnd - selectionStart) + 4 &&
            e.newValue[..selectionStart] == value[..selectionStart] &&
            e.newValue[selectionStart..e.caret] == Indent &&
            e.newValue[e.caret..] == value[selectionEnd..] &&
            e.caret <= |e.newValue|
  {
    var e := TabInsert(value, selectionStart, selectionEnd);
    var before, after := value[..selectionStart], value[selectionEnd..];
    assert e.newValue == before + Indent + after;
    assert e.newValue[..selectionStart] == before;
    assert e.newValue[selectionStart..e.caret] == Indent;
    assert e.newValue[e.caret..] == after;
  }

  /** With nothing selected a Tab is undone by deleting the four characters before
      the caret: the text before the Tab comes back. */
  lemma TabUndo(value: string, caretBefore: nat)
    requires caretBefore <= |value|
    ensures var e := TabInsert(value, caretBefore, caretBefore);
            e.newValue[..caretBefore] + e.newValue[e.caret..] == value
  {
    TabSplice(value, caretBefore, caretBefore);
    assert value == value[..caretBefore] + value[caretBefore..];
  }
}
