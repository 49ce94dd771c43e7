/**
 * The second store variant: the Room DAO over `QuickNote`, its repository, the home view
 * model with its selected-note holder, and the logic of `NoteScreen`. Each call is one
 * synchronous step; the clock is a parameter.
 */
module QuickStore {
  import opened Options
  import opened QuickNotes
  import Listing

  /** `RoomStoreDao`: the `QuickNote` table. */
  class RoomStoreDao {
    var table: Table

    ghost predicate Valid()
      reads this
    {
      QuickNotes.Valid(table)
    }

    constructor ()
      ensures Valid() && table == EmptyTable
    {
      table := EmptyTable;
    }

    /** `upsertDataModel`: updates the stored row with the model's id, inserts otherwise. */
    method UpsertDataModel(dataModel: NotesModel)
      requires Valid()
      modifies this
      ensures Valid()
      ensures table == Upsert(old(table), dataModel)
    {
      if dataModel.id != Unassigned && dataModel.id in table.rows {
        table := UpdateExisting(table, dataModel);
      } else {
        table := InsertReplace(table, dataModel);
      }
    }

    /** `getAllNotesList`: `SELECT * FROM QuickNote ORDER BY updatedAt DESC`, the current snapshot. */
    method GetAllNotesList() returns (r: seq<NotesModel>)
      requires Valid()
      ensures Listing.IsListing(r, table.rows, IdOf, UpdatedAtOf)
    {
      r := Listing.ListNewestFirst(table.rows, IdOf, UpdatedAtOf);
    }

    /** `insertNote` with REPLACE: returns the row id of the written row. */
    method InsertNote(user: NotesModel) returns (rowId: int)
      requires Valid()
      modifies this
      ensures Valid()
      ensures rowId == RowIdFor(old(table), user)
      ensures table == InsertReplace(old(table), user)
      ensures user.id == Unassigned ==> rowId !in old(table).rows
    {
      rowId := if user.id == Unassigned then table.lastId + 1 else user.id;
      table := Put(table, rowId, user);
    }

    /** `updateNote`: changes only an existing row with the model's id. */
    method UpdateNote(user: NotesModel)
      requires Valid()
      modifies this
      ensures Valid()
      ensures table == UpdateExisting(old(table), user)
    {
      if user.id in table.rows {
        table := table.(rows := table.rows[user.id := user]);
      }
    }

    /** `deleteNote`: removes the row with the model's id and returns how many rows went. */
    method DeleteNote(user: NotesModel) returns (count: int)
      requires Valid()
      modifies this
      ensures Valid()
      ensures table == DeleteRow(old(table), user)
      ensures count == DeletedCount(old(table), user)
    {
      count := if user.id in table.rows then 1 else 0;
      table := table.(rows := table.rows - {user.id});
    }
  }

  /** `AppRepo`: pass-throughs to the DAO. */
  class AppRepo {
    const roomStoreDao: RoomStoreDao

    constructor (roomStoreDao: RoomStoreDao)
      ensures this.roomStoreDao == roomStoreDao
    {
      this.roomStoreDao := roomStoreDao;
    }

    /** `getAllNotes`: the DAO's listing unchanged, newest `updatedAt` first. */
    method GetAllNotes() returns (r: seq<NotesModel>)
      requires roomStoreDao.Valid()
      ensures Listing.IsListing(r, roomStoreDao.table.rows, IdOf, UpdatedAtOf)
    {
      r := roomStoreDao.GetAllNotesList();
    }

    /** `insertNote`: the model goes to replace-insert and its row id comes back unchanged. */
    method InsertNote(notesModel: NotesModel) returns (rowId: int)
      requires roomStoreDao.Valid()
      modifies roomStoreDao
      ensures roomStoreDao.Valid()
      ensures roomStoreDao.table == InsertReplace(old(roomStoreDao.table), notesModel)
      ensures rowId == RowIdFor(old(roomStoreDao.table), notesModel)
      ensures notesModel.id == Unassigned ==> |roomStoreDao.table.rows| == old(|roomStoreDao.table.rows|) + 1
      ensures notesModel.id in old(roomStoreDao.table.rows) ==> |roomStoreDao.table.rows| == old(|roomStoreDao.table.rows|)
    {
      rowId := roomStoreDao.InsertNote(notesModel);
    }

    /** The delete `HomeViewModel.deleteNote` expects of the repository, answered by the DAO's `deleteNote`. */
    method DeleteNote(notesModel: NotesModel) returns (count: int)
      requires roomStoreDao.Valid()
      modifies roomStoreDao
      ensures roomStoreDao.Valid()
      ensures roomStoreDao.table == DeleteRow(old(roomStoreDao.table), notesModel)
      ensures count == DeletedCount(old(roomStoreDao.table), notesModel)
    {
      count := roomStoreDao.DeleteNote(notesModel);
    }
  }

  /** `HomeViewModel`: the latest listing snapshot and the note chosen for editing. */
  class HomeViewModel {
    const appRepo: AppRepo
    var noteList: seq<NotesModel>
    var selectedNote: Option<NotesModel>

    constructor (appRepo: AppRepo)
      ensures this.appRepo == appRepo
      ensures noteList == [] && selectedNote == None
    {
      this.appRepo := appRepo;
      noteList := [];
      selectedNote := None;
    }

    /** One emission of `appRepo.getAllNotes()` collected into `noteList`. */
    method Collect()
      requires appRepo.roomStoreDao.Valid()
      modifies this
      ensures Listing.IsListing(noteList, appRepo.roomStoreDao.table.rows, IdOf, UpdatedAtOf)
      ensures selectedNote == old(selectedNote)
    {
      noteList := appRepo.GetAllNotes();
    }

    /** `addNote`: the model goes to `insertNote` unchanged; the returned row id is only logged. */
    method AddNote(notesModel: NotesModel)
      requires appRepo.roomStoreDao.Valid()
      modifies appRepo.roomStoreDao
      ensures appRepo.roomStoreDao.Valid()
      ensures appRepo.roomStoreDao.table == InsertReplace(old(appRepo.roomStoreDao.table), notesModel)
    {
      var _ := appRepo.InsertNote(notesModel);
    }

    /** `deleteNote`: the model goes to deletion unchanged; the count is only logged. */
    method DeleteNote(notesModel: NotesModel)
      requires appRepo.roomStoreDao.Valid()
      modifies appRepo.roomStoreDao
      ensures appRepo.roomStoreDao.Valid()
      ensures appRepo.roomStoreDao.table == DeleteRow(old(appRepo.roomStoreDao.table), notesModel)
    {
      var _ := appRepo.DeleteNote(notesModel);
    }

    method SetSelectedNote(notesModel: Option<NotesModel>)
      modifies this
      ensures selectedNote == notesModel && noteList == old(noteList)
    {
      selectedNote := notesModel;
    }

    method GetSelectedNote() returns (r: Option<NotesModel>)
      ensures r == selectedNote
    {
      r := selectedNote;
    }
  }

  /** `NoteScreen`: the two text fields and the save and delete actions of its header. */
  class NoteScreen {
    const homeViewModel: HomeViewModel
    var titleText: string
    var contentText: string

    /** `remember { mutableStateOf("") }` for both fields. */
    constructor (homeViewModel: HomeViewModel)
      ensures this.homeViewModel == homeViewModel
      ensures titleText == "" && contentText == ""
    {
      this.homeViewModel := homeViewModel;
      titleText, contentText := "", "";
    }

    /** The `LaunchedEffect`: prefill from the selected note, if any. */
    method LoadSelectedNote()
      modifies this
      ensures homeViewModel.selectedNote.Some? ==>
        titleText == homeViewModel.selectedNote.value.title && contentText == homeViewModel.selectedNote.value.content
      ensures homeViewModel.selectedNote.None? ==> titleText == old(titleText) && contentText == old(contentText)
    {
      var selected := homeViewModel.GetSelectedNote();
      if selected.Some? {
        titleText, contentText := selected.value.title, selected.value.content;
      }
    }

    method OnTitleChange(text: string)
      modifies this
      ensures titleText == text && contentText == old(contentText)
    {
      titleText := text;
    }

    method OnContentChange(text: string)
      modifies this
      ensures contentText == text && titleText == old(titleText)
    {
      contentText := text;
    }

    /** `onSavePress`: nothing when both fields are empty; otherwise write the model and go back. */
    method OnSavePress(now: int) returns (navigateBack: bool)
      requires homeViewModel.appRepo.roomStoreDao.Valid()
      modifies homeViewModel.appRepo.roomStoreDao
      ensures homeViewModel.appRepo.roomStoreDao.Valid()
      ensures navigateBack <==> titleText != [] || contentText != []
      ensures var saved := SaveModel(homeViewModel.selectedNote, titleText, contentText, now);
        homeViewModel.appRepo.roomStoreDao.table ==
          if saved.None? then old(homeViewModel.appRepo.roomStoreDao.table)
          else InsertReplace(old(homeViewModel.appRepo.roomStoreDao.table), saved.value)
    {
      if titleText == [] && contentText == [] {
        return false;
      }
      var temp := NewModel(titleText, contentText, now);
      var selected := homeViewModel.GetSelectedNote();
      if selected.Some? {
        temp := temp.(id := selected.value.id);
      }
      homeViewModel.AddNote(temp);
      navigateBack := true;
    }

    /** The delete icon is shown exactly when a note is selected. */
    predicate IsDeleteVisible(): (b: bool)
      reads homeViewModel
      ensures b <==> homeViewModel.selectedNote != None
    {
      homeViewModel.selectedNote.Some?
    }

    /** `onDelete`: deletes the selected note and goes back. */
    method OnDelete() returns (navigateBack: bool)
      requires IsDeleteVisible()
      requires homeViewModel.appRepo.roomStoreDao.Valid()
      modifies homeViewModel.appRepo.roomStoreDao
      ensures homeViewModel.appRepo.roomStoreDao.Valid()
      ensures homeViewModel.appRepo.roomStoreDao.table ==
        DeleteRow(old(homeViewModel.appRepo.roomStoreDao.table), homeViewModel.selectedNote.value)
      ensures navigateBack
    {
      var selected := homeViewModel.GetSelectedNote();
      homeViewModel.DeleteNote(selected.value);
      navigateBack := true;
    }
  }
}
