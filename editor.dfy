/**
 * `AddNoteScreen`: the create/edit form. Its decisions are functions of the current field
 * values and of the note it was opened with; its event handlers are methods of a class that
 * holds the screen's mutable state. A handler reports the callbacks it invokes, in order,
 * and whether it navigates back.
 */
module Editor {
  import opened Options
  import opened Notes
  import Text

  /** The callbacks the screen is given by its caller. */
  datatype Callback =
    | NoteAdded(title: string, content: string)
    | NoteUpdated(note: Note, title: string, content: string)
    | NoteDeleted(note: Note)

  /** `isValidNote`: both fields hold a non-whitespace character. */
  function IsValidNote(title: string, content: string): (b: bool)
    ensures b <==> ((exists i :: 0 <= i < |title| && !Text.IsWhitespace(title[i])) &&
                    (exists j :: 0 <= j < |content| && !Text.IsWhitespace(content[j])))
  {
    !Text.IsBlank(title) && !Text.IsBlank(content)
  }

  /** `isEditMode`: the screen was given a note to edit. */
  function IsEditMode(existingNote: Option<Note>): (b: bool)
    ensures b <==> existingNote != None
  {
    existingNote.Some?
  }

  /** `characterCount`: `content.length`, in UTF-16 code units. */
  function CharacterCount(content: string): (n: nat)
    ensures |content| <= n <= 2 * |content|
  {
    Text.Utf16Length(content)
  }

  /** The statistics bar is shown exactly when there is content. */
  function ShowsStatistics(content: string): (b: bool)
    ensures b <==> CharacterCount(content) > 0
  {
    content != []
  }

  /** The delete action is offered only when editing and a delete handler was supplied. */
  function OffersDelete(existingNote: Option<Note>, hasDeleteHandler: bool): (b: bool)
    ensures b ==> IsEditMode(existingNote) && hasDeleteHandler
    ensures IsEditMode(existingNote) && hasDeleteHandler ==> b
  {
    IsEditMode(existingNote) && hasDeleteHandler
  }

  /** The save button's action: one callback, chosen by the mode, or nothing when the note is invalid. */
  function SaveCalls(existingNote: Option<Note>, title: string, content: string): (calls: seq<Callback>)
    ensures |calls| <= 1
    ensures calls == [] <==> !IsValidNote(title, content)
    ensures calls != [] && IsEditMode(existingNote) ==> calls == [NoteUpdated(existingNote.value, title, content)]
    ensures calls != [] && !IsEditMode(existingNote) ==> calls == [NoteAdded(title, content)]
  {
    if !IsValidNote(title, content) then []
    else if IsEditMode(existingNote) then [NoteUpdated(existingNote.value, title, content)]
    else [NoteAdded(title, content)]
  }

  class AddNoteScreen {
    const existingNote: Option<Note>
    const hasDeleteHandler: bool
    var title: string
    var content: string
    var showDeleteDialog: bool

    /** The fields start from the note being edited, or empty when creating. */
    constructor (existingNote: Option<Note>, hasDeleteHandler: bool)
      ensures this.existingNote == existingNote && this.hasDeleteHandler == hasDeleteHandler
      ensures title == (if existingNote.Some? then existingNote.value.title else "")
      ensures content == (if existingNote.Some? then existingNote.value.content else "")
      ensures !showDeleteDialog
    {
      this.existingNote := existingNote;
      this.hasDeleteHandler := hasDeleteHandler;
      title := if existingNote.Some? then existingNote.value.title else "";
      content := if existingNote.Some? then existingNote.value.content else "";
      showDeleteDialog := false;
    }

    method OnTitleChange(newTitle: string)
      modifies this
      ensures title == newTitle && content == old(content) && showDeleteDialog == old(showDeleteDialog)
    {
      title := newTitle;
    }

    method OnContentChange(newContent: string)
      modifies this
      ensures content == newContent && title == old(title) && showDeleteDialog == old(showDeleteDialog)
    {
      content := newContent;
    }

    /** The save button: exactly one callback and a navigation back for a valid note, nothing otherwise. */
    method OnSaveClick() returns (calls: seq<Callback>, navigateBack: bool)
      ensures calls == SaveCalls(existingNote, title, content)
      ensures navigateBack <==> IsValidNote(title, content)
    {
      calls := SaveCalls(existingNote, title, content);
      navigateBack := calls != [];
    }

    /** The delete button, present only when `OffersDelete`: it opens the confirmation dialog and nothing else. */
    method OnDeleteClick()
      requires OffersDelete(existingNote, hasDeleteHandler)
      modifies this
      ensures showDeleteDialog && title == old(title) && content == old(content)
    {
      showDeleteDialog := true;
    }

    /** The dialog is on screen. */
    predicate ShowsDeleteDialog(): (b: bool)
      reads this
      ensures b ==> IsEditMode(existingNote) && showDeleteDialog
      ensures showDeleteDialog && IsEditMode(existingNote) ==> b
    {
      showDeleteDialog && existingNote.Some?
    }

    /** Confirming: `onNoteDeleted?.invoke(existingNote)`, close the dialog, navigate back. */
    method OnConfirmDelete() returns (calls: seq<Callback>, navigateBack: bool)
      requires ShowsDeleteDialog()
      modifies this
      ensures !showDeleteDialog && title == old(title) && content == old(content)
      ensures calls == if hasDeleteHandler then [NoteDeleted(existingNote.value)] else []
      ensures navigateBack
    {
      calls := if hasDeleteHandler then [NoteDeleted(existingNote.value)] else [];
      showDeleteDialog := false;
      navigateBack := true;
    }

    /** Dismissing or cancelling closes the dialog without a callback. */
    method OnDismissDelete()
      modifies this
      ensures !showDeleteDialog && title == old(title) && content == old(content)
    {
      showDeleteDialog := false;
    }
  }

  /** A screen opened for editing, saved untouched, updates that very note with its own fields. */
  lemma UntouchedEditSavesSameFields(note: Note)
    requires IsValidNote(note.title, note.content)
    ensures SaveCalls(Some(note), note.title, note.content) == [NoteUpdated(note, note.title, note.content)]
  {
  }
}
