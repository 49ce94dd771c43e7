/**
 * `NotesListScreen`: the header label, the empty-list branch, the per-card deleting flag, and
 * the delete-confirmation state machine over `noteToDelete` and `deletingNoteId`.
 * `handleNoteDeletion` launches a job that, after a delay, calls `onDeleteNote` and then
 * clears `deletingNoteId`; each launched job is a pending entry until it resumes.
 */
module NotesList {
  import opened Options
  import opened Notes
  import Text

  /** The header's "N note(s)" label. */
  function CountLabel(count: nat): (shown: string)
    ensures |shown| > 5 && (shown[|shown| - 5..] == " note" || shown[|shown| - 5..] == "notes")
    ensures shown[|shown| - 1] == 's' <==> count != 1
  {
    Text.DecimalString(count) + " note" + (if count != 1 then "s" else "")
  }

  /** The label is the count in decimal, then " note" for exactly one note and " notes" otherwise. */
  lemma CountLabelReadsBack(count: nat)
    ensures var digits := Text.DecimalString(count);
      && CountLabel(count)[..|digits|] == digits
      && Text.ParseDecimal(digits) == count
      && CountLabel(count)[|digits|..] == (if count == 1 then " note" else " notes")
  {
    Text.DecimalRoundTrip(count);
  }

  lemma CountLabelExamples()
    ensures CountLabel(0) == "0 notes" && CountLabel(1) == "1 note" && CountLabel(2) == "2 notes"
  {
  }

  /** What the content area shows. */
  datatype Body = EmptyMessage | NoteList(notes: seq<Note>) | NoteGrid(notes: seq<Note>)

  function ContentBody(notes: seq<Note>, isGridView: bool): (b: Body)
    ensures b == EmptyMessage <==> notes == []
    ensures !b.EmptyMessage? ==> b.notes == notes && (b.NoteGrid? <==> isGridView)
  {
    if notes == [] then EmptyMessage
    else if isGridView then NoteGrid(notes)
    else NoteList(notes)
  }

  /** `isDeleting = note.id == deletingNoteId`. */
  function IsDeleting(note: Note, deletingNoteId: Option<string>): (b: bool)
    ensures b <==> deletingNoteId.Some? && deletingNoteId.value == note.id
  {
    deletingNoteId == Some(note.id)
  }

  class NotesListScreen {
    var noteToDelete: Option<Note>
    var deletingNoteId: Option<string>
    var isGridView: bool
    /** Deletion jobs launched and not yet resumed, oldest first. */
    var pending: seq<Note>

    /** A set `deletingNoteId` names the most recently confirmed note, whose job has not yet resumed. */
    ghost predicate Valid()
      reads this
    {
      deletingNoteId.Some? ==> pending != [] && deletingNoteId.value == pending[|pending| - 1].id
    }

    constructor ()
      ensures Valid()
      ensures noteToDelete == None && deletingNoteId == None && !isGridView && pending == []
    {
      noteToDelete, deletingNoteId, isGridView, pending := None, None, false, [];
    }

    /** A card's delete button only records the note as pending confirmation. */
    method OnDeleteClick(note: Note)
      requires Valid()
      modifies this
      ensures Valid()
      ensures noteToDelete == Some(note)
      ensures deletingNoteId == old(deletingNoteId) && pending == old(pending) && isGridView == old(isGridView)
    {
      noteToDelete := Some(note);
    }

    /** Dismissing the dialog forgets the note; nothing is deleted. */
    method OnDismiss()
      requires Valid()
      modifies this
      ensures Valid()
      ensures noteToDelete == None
      ensures deletingNoteId == old(deletingNoteId) && pending == old(pending) && isGridView == old(isGridView)
    {
      noteToDelete := None;
    }

    /** Confirming marks the note as deleting, closes the dialog and launches its deletion job. */
    method OnConfirm()
      requires Valid() && noteToDelete.Some?
      modifies this
      ensures Valid()
      ensures deletingNoteId == Some(old(noteToDelete).value.id) && noteToDelete == None
      ensures pending == old(pending) + [old(noteToDelete).value] && isGridView == old(isGridView)
    {
      var note := noteToDelete.value;
      deletingNoteId := Some(note.id);
      noteToDelete := None;
      pending := pending + [note];
    }

    /** The oldest job resumes: it calls `onDeleteNote` with its note, then clears `deletingNoteId`. */
    method ResumeDeletion() returns (deleted: Note)
      requires Valid() && pending != []
      modifies this
      ensures Valid()
      ensures deleted == old(pending[0]) && pending == old(pending[1..])
      ensures deletingNoteId == None
      ensures noteToDelete == old(noteToDelete) && isGridView == old(isGridView)
    {
      deleted := pending[0];
      pending := pending[1..];
      deletingNoteId := None;
    }

    method OnViewToggle()
      modifies this
      ensures isGridView == !old(isGridView)
      ensures noteToDelete == old(noteToDelete) && deletingNoteId == old(deletingNoteId) && pending == old(pending)
    {
      isGridView := !isGridView;
    }
  }

  /** While a card is flagged deleting, a launched deletion job for that very note has not resumed yet. */
  lemma DeletingNoteIsPending(screen: NotesListScreen)
    requires screen.Valid() && screen.deletingNoteId.Some?
    ensures exists i :: 0 <= i < |screen.pending| && screen.pending[i].id == screen.deletingNoteId.value
  {
    var last := |screen.pending| - 1;
    assert screen.pending[last].id == screen.deletingNoteId.value;
  }

  /** Tap delete, confirm, let the job resume: `onDeleteNote` is called once with that note and no card is left deleting. */
  method ConfirmedDeletion(screen: NotesListScreen, note: Note) returns (deleted: Note)
    requires screen.Valid() && screen.pending == []
    modifies screen
    ensures deleted == note
    ensures screen.Valid() && screen.pending == [] && screen.deletingNoteId == None && screen.noteToDelete == None
  {
    screen.OnDeleteClick(note);
    screen.OnConfirm();
    assert IsDeleting(note, screen.deletingNoteId);
    deleted := screen.ResumeDeletion();
  }
}
