/**
 * The live note store: the Room DAO over the `notes` table, the repository that stamps
 * new notes with an id and a time, and the view model the screens call. Each call is one
 * synchronous step; the clock and the UUID generator are parameters.
 */
module NoteStore {
  import opened Options
  import opened Notes
  import Listing

  /** `NoteDao`: the `notes` table, held as a map from primary key to row. */
  class NoteDao {
    var notes: Table

    ghost predicate Valid()
      reads this
    {
      Keyed(notes)
    }

    constructor ()
      ensures Valid() && notes == map[]
    {
      notes := map[];
    }

    /** `getAllNotes`: `SELECT * FROM notes ORDER BY timestamp DESC`, the current snapshot. */
    method GetAllNotes() returns (r: seq<Note>)
      requires Valid()
      ensures Listing.IsListing(r, notes, IdOf, TimestampOf)
    {
      r := Listing.ListNewestFirst(notes, IdOf, TimestampOf);
    }

    /** `insertNote` with REPLACE: a duplicate id overwrites, it never fails. */
    method InsertNote(note: Note)
      requires Valid()
      modifies this
      ensures Valid()
      ensures notes == Insert(old(notes), note)
    {
      notes := notes[note.id := note];
    }

    /** `deleteNote`: matched by primary key only. */
    method DeleteNote(note: Note)
      requires Valid()
      modifies this
      ensures Valid()
      ensures notes == Delete(old(notes), note)
    {
      notes := notes - {note.id};
    }

    /** `getNoteById`: null for an id with no row. */
    method GetNoteById(id: string) returns (r: Option<Note>)
      requires Valid()
      ensures r.Some? <==> id in notes
      ensures r.Some? ==> r.value == notes[id] && r.value.id == id
    {
      if id in notes {
        r := Some(notes[id]);
      } else {
        r := None;
      }
    }
  }

  /** `NotesRepository`: the only layer that builds a `Note` with its default id and timestamp. */
  class NotesRepository {
    const noteDao: NoteDao

    constructor (noteDao: NoteDao)
      ensures this.noteDao == noteDao
    {
      this.noteDao := noteDao;
    }

    /** `getAllNotes`: the DAO's listing, unchanged. */
    method GetAllNotes() returns (r: seq<Note>)
      requires noteDao.Valid()
      ensures Listing.IsListing(r, noteDao.notes, IdOf, TimestampOf)
    {
      r := noteDao.GetAllNotes();
    }

    /**
     * `addNote(title, content)`: stores `Note(title = title, content = content)`, whose id is
     * `freshId` (from `UUID.randomUUID`) and whose timestamp is `now` (from the clock).
     */
    method AddNote(title: string, content: string, freshId: string, now: int)
      requires noteDao.Valid()
      modifies noteDao
      ensures noteDao.Valid()
      ensures noteDao.notes == Insert(old(noteDao.notes), NewNote(title, content, freshId, now))
      ensures Lookup(noteDao.notes, freshId) == Some(Note(freshId, title, content, now))
      ensures freshId !in old(noteDao.notes) ==>
        |noteDao.notes| == old(|noteDao.notes|) + 1 &&
        forall id :: id in old(noteDao.notes) ==> Lookup(noteDao.notes, id) == Lookup(old(noteDao.notes), id)
    {
      var note := NewNote(title, content, freshId, now);
      noteDao.InsertNote(note);
    }

    /** `updateNote`: the same replace-insert, so the row for `note.id` becomes `note`, added if absent. */
    method UpdateNote(note: Note)
      requires noteDao.Valid()
      modifies noteDao
      ensures noteDao.Valid()
      ensures noteDao.notes == Insert(old(noteDao.notes), note)
    {
      noteDao.InsertNote(note);
    }

    /** `deleteNote`: the DAO delete, a no-op for an absent id. */
    method DeleteNote(note: Note)
      requires noteDao.Valid()
      modifies noteDao
      ensures noteDao.Valid()
      ensures noteDao.notes == Delete(old(noteDao.notes), note)
    {
      noteDao.DeleteNote(note);
    }

    /** The lookup `NotesViewModel.getNoteById` expects of the repository, answered by the DAO's `getNoteById`. */
    method GetNoteById(id: string) returns (r: Option<Note>)
      requires noteDao.Valid()
      ensures r == Lookup(noteDao.notes, id)
    {
      r := noteDao.GetNoteById(id);
    }
  }

  /** `NotesViewModel`: `notes` is the latest snapshot of the repository's listing. */
  class NotesViewModel {
    const repository: NotesRepository
    var notes: seq<Note>

    /** `stateIn(..., initialValue = emptyList())`: nothing is shown before the first snapshot. */
    constructor (repository: NotesRepository)
      ensures this.repository == repository
      ensures notes == []
    {
      this.repository := repository;
      notes := [];
    }

    /** One emission of `repository.getAllNotes()` reaching `notes`. */
    method Collect()
      requires repository.noteDao.Valid()
      modifies this
      ensures Listing.IsListing(notes, repository.noteDao.notes, IdOf, TimestampOf)
    {
      notes := repository.GetAllNotes();
    }

    /** `addNote`: title and content go to the repository unchanged. */
    method AddNote(title: string, content: string, freshId: string, now: int)
      requires repository.noteDao.Valid()
      modifies repository.noteDao
      ensures repository.noteDao.Valid()
      ensures repository.noteDao.notes == Insert(old(repository.noteDao.notes), NewNote(title, content, freshId, now))
    {
      repository.AddNote(title, content, freshId, now);
    }

    /**
     * `updateNote(note, newTitle, newContent)`: writes `note` re-stamped with the new fields and
     * the current time; afterwards exactly that row stands under `note.id` and every other row is as before.
     */
    method UpdateNote(note: Note, newTitle: string, newContent: string, now: int)
      requires repository.noteDao.Valid()
      modifies repository.noteDao
      ensures repository.noteDao.Valid()
      ensures repository.noteDao.notes == Insert(old(repository.noteDao.notes), Restamp(note, newTitle, newContent, now))
      ensures Lookup(repository.noteDao.notes, note.id) == Some(Note(note.id, newTitle, newContent, now))
      ensures forall id :: id != note.id ==> Lookup(repository.noteDao.notes, id) == Lookup(old(repository.noteDao.notes), id)
    {
      repository.UpdateNote(Restamp(note, newTitle, newContent, now));
    }

    /** `deleteNote`: the note goes to the repository unchanged. */
    method DeleteNote(note: Note)
      requires repository.noteDao.Valid()
      modifies repository.noteDao
      ensures repository.noteDao.Valid()
      ensures repository.noteDao.notes == Delete(old(repository.noteDao.notes), note)
    {
      repository.DeleteNote(note);
    }

    /** `getNoteById(id, onResult)`: the value handed to `onResult`. */
    method GetNoteById(id: string) returns (r: Option<Note>)
      requires repository.noteDao.Valid()
      ensures r.None? <==> id !in repository.noteDao.notes
      ensures r.Some? ==> r.value == repository.noteDao.notes[id]
    {
      r := repository.GetNoteById(id);
    }
  }

  /** The Groceries/Todo scenario run through the view model: the next snapshot holds the "Todo" note alone. */
  method GroceriesTodoScenario(g: string, td: string, t1: int, t2: int) returns (shown: seq<Note>)
    requires g != td
    ensures shown == [Note(td, "Todo", "Call Alice", t2)]
  {
    var dao := new NoteDao();
    var repository := new NotesRepository(dao);
    var viewModel := new NotesViewModel(repository);
    viewModel.AddNote("Groceries", "Milk, eggs", g, t1);
    viewModel.AddNote("Todo", "Call Alice", td, t2);
    viewModel.DeleteNote(NewNote("Groceries", "Milk, eggs", g, t1));
    viewModel.Collect();
    shown := viewModel.notes;
    GroceriesTodoTrace(g, td, t1, t2, shown);
  }
}
