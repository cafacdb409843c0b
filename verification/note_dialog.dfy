/**
  The add-note dialog (`AddNoteDialog`): two fields, an error message, a
  reset whenever the dialog opens, and a save that checks the title and then
  the content before handing the note to its caller.
 */
module NoteDialog {
  import opened Wrappers
  import opened JsString

  /** The form's state: the two fields and the message shown, if any. */
  datatype Dialog = Dialog(title: string, content: string, error: Option<string>)

  /** What a successful save hands to the caller. */
  datatype Note = Note(title: string, content: string)

  const TitleEmpty: string := "Title cannot be empty."
  const ContentEmpty: string := "Note content cannot be empty."

  /** A freshly reset form. */
  const Blank: Dialog := Dialog([], [], None)

  /** The effect on the `isOpen` flag: opening resets every field and clears
      the message; closing leaves the form as it is. */
  function OnOpenChange(d: Dialog, isOpen: bool): (d': Dialog)
    ensures isOpen ==> d' == Blank
    ensures !isOpen ==> d' == d
  {
    if isOpen then Blank else d
  }

  /** Typing into the fields changes only that field. */
  function EditTitle(d: Dialog, title: string): Dialog {
    d.(title := title)
  }

  function EditContent(d: Dialog, content: string): Dialog {
    d.(content := content)
  }

  /** `handleSave`: the new form state, and the note handed to the caller
      when the save goes through. A save never edits the fields; a refused
      save always shows a message, and one that goes through leaves the form,
      message included, as it was. */
  function HandleSave(d: Dialog): (r: (Dialog, Option<Note>))
    ensures r.0.title == d.title && r.0.content == d.content
    ensures r.1.None? ==> r.0.error.Some?
    ensures r.1.Some? ==> r.0 == d
  {
    if Trim(d.title) == [] then (d.(error := Some(TitleEmpty)), None)
    else if Trim(d.content) == [] then (d.(error := Some(ContentEmpty)), None)
    else (d, Some(Note(d.title, d.content)))
  }

  /** A field is blank when it holds nothing but white space. */
  predicate IsBlank(s: string) {
    AllSpace(s)
  }

  /** A save goes through exactly when neither field is blank, and then hands
      over both fields as typed, untrimmed, leaving the form unchanged. A
      refused save changes only the message: the title's when the title is
      blank, whatever the content, and the content's otherwise. */
  lemma SaveOutcome(d: Dialog)
    ensures var (d', saved) := HandleSave(d);
      && (saved.Some? <==> !IsBlank(d.title) && !IsBlank(d.content))
      && (saved.Some? ==> saved.value == Note(d.title, d.content) && d' == d)
      && (IsBlank(d.title) ==> d' == d.(error := Some(TitleEmpty)))
      && (!IsBlank(d.title) && IsBlank(d.content) ==> d' == d.(error := Some(ContentEmpty)))
  {
    TrimEmptyIffAllSpace(d.title);
    TrimEmptyIffAllSpace(d.content);
  }

  /** Saving right after the dialog opens is refused for the empty title. */
  lemma SaveAfterOpen(d: Dialog)
    ensures HandleSave(OnOpenChange(d, true)) == (Dialog([], [], Some(TitleEmpty)), None)
  {
    assert Trim([]) == [];
  }

  /** Nothing typed before the dialog opens survives the opening: a save after
      opening and typing a title and a content does exactly what it does on a
      fresh form, so a save that goes through shows no message, although
      without the reset a message from an earlier refused save would stay on
      screen (a save that goes through does not clear it). Closing changes
      nothing a save could see. */
  lemma OpenForgets(d: Dialog, title: string, content: string)
    ensures var typed := EditContent(EditTitle(OnOpenChange(d, true), title), content);
      && HandleSave(typed) == HandleSave(EditContent(EditTitle(Blank, title), content))
      && (HandleSave(typed).1.Some? ==> HandleSave(typed).0.error == None)
    ensures !IsBlank(title) && !IsBlank(content) ==>
      HandleSave(EditContent(EditTitle(d, title), content)).0.error == d.error
    ensures HandleSave(OnOpenChange(d, false)) == HandleSave(d)
  {
    SaveOutcome(EditContent(EditTitle(d, title), content));
  }

  /** Filling both fields with text that has a visible character lets the
      save through with exactly that text. */
  lemma SaveFilled(d: Dialog, title: string, content: string)
    requires !IsBlank(title) && !IsBlank(content)
    ensures HandleSave(EditContent(EditTitle(d, title), content)).1 == Some(Note(title, content))
  {
    SaveOutcome(EditContent(EditTitle(d, title), content));
  }
}
