# Quick Notes: a verified model of the note store and its screen rules

Quick Notes is a small Android notes app. This project models what is left of it once the
Compose rendering, the coroutines and the dependency injection are taken away. Three parts remain:

- **The live note store.** The Room table `notes` is a map from a string `id` to a `Note`.
  `NoteDao` can insert-or-replace a note, delete by primary key, look up by id, and list
  every note newest `timestamp` first. `NotesRepository` gives a new note a fresh id and the
  current time. `NotesViewModel` re-stamps a note when it is edited and keeps the latest
  listing snapshot.
- **The screen rules.** `AddNoteScreen` decides whether a note can be saved, whether it is
  in create or edit mode, which callback a save calls, the word and character counts, and
  how the delete dialog behaves. `MainActivity` rebuilds the note to edit from the route
  arguments and owns the theme toggle. `NotesListScreen` has a delete-confirmation state
  machine (`noteToDelete`, `deletingNoteId`), a "N note(s)" label and an empty-list branch.
- **The second store variant.** The `QuickNote` table has auto-generated `Int` ids, where 0
  means "unassigned". `RoomStoreDao` offers upsert, replace-insert returning the row id,
  update-existing-only, and delete returning a row count. Its listing is newest `updatedAt`
  first. `AppRepo` passes calls through, `HomeViewModel` holds the selected note, and
  `NoteScreen` has its own save rule.

The Room annotations are modelled by their documented meaning:
- `OnConflictStrategy.REPLACE` overwrites the row with the same key.
- `@Delete` and `@Update` match rows by primary key.
- `@Upsert` updates a stored key and inserts anything else.
- `ORDER BY … DESC` gives every row once, in non-increasing stamp order. Rows with equal
  stamps may come in any order. `Listing.IsListing` says this, and the listing methods return
  one such order.

For an auto-generated key, Room binds an id of 0 as NULL. `AUTOINCREMENT` then gives the new
row an id one above the largest id the table has ever held. The model keeps that counter as
`Table.lastId`, so the freshness of a generated id is proved, not assumed.

Every call is one synchronous step. A Flow is modelled as its current snapshot: each view
model has a `Collect` step that copies one emission into its state. Things the app gets from
outside are parameters:
- the clock (`System.currentTimeMillis`) is a `now: int` parameter;
- the UUID generator is a `freshId: string` parameter;
- `Uri.encode` and `Uri.decode` are function parameters. The lemma about the edit route
  requires that decoding undoes encoding.

A screen handler returns the callbacks it calls, in order, and whether it navigates back.

Layout, one module per file:
- `options.dfy`: `Option`, for Kotlin's nullable types.
- `listing.dfy`: the newest-first listing shared by both tables.
- `notes.dfy` and `note_store.dfy`: the live store.
- `text.dfy`: whitespace, `split`, UTF-16 length and decimal rendering.
- `editor.dfy`, `navigation.dfy` and `notes_list.dfy`: the screens.
- `quick_notes.dfy` and `quick_store.dfy`: the second store.

Three modelling decisions follow the code as written:
- There is no storage-fault error path. Nothing in the code raises or handles one.
- An update re-stamps a note with whatever the clock returns, so the model takes `now` as
  given. It does not assume that the new timestamp is larger than the old one.
- The listing is in descending order. The ascending query belongs to the unused `NotesDao`.

## Model

| member | source | states |
|---|---|---|
| `Listing.ListNewestFirst` | app/src/main/java/com/example/quicknotes/db/NoteDao.kt:7-8 | the result lists every row of the table exactly once (same count, each row under its key, no id twice) in non-increasing stamp order |
| `Listing.InsertionPoint` | app/src/main/java/com/example/quicknotes/db/NoteDao.kt:7 | the position where a row joins a newest-first sequence: every row before it is strictly newer, every row after it is not newer |
| `Listing.InsertByStamp` | app/src/main/java/com/example/quicknotes/db/NoteDao.kt:7 | splicing a row in at its insertion point keeps the sequence newest first and adds exactly that row |
| `Listing.ListingsArePermutations` | app/src/main/java/com/example/quicknotes/db/NoteDao.kt:7 | any two results of the DESC query over the same table hold the same rows (they differ only in the order of ties) |
| `Listing.ListingUniqueForDistinctStamps` | app/src/main/java/com/example/quicknotes/db/NoteDao.kt:7 | when no two rows share a stamp, the DESC query has exactly one result |
| `Listing.DecreasingDetermined` | app/src/main/java/com/example/quicknotes/db/NoteDao.kt:7 | two strictly newest-first sequences with the same elements are equal |
| `Listing.SingletonListing` | app/src/main/java/com/example/quicknotes/db/NoteDao.kt:7-8 | the listing of a one-row table is that row |
| `Notes.NewNote` | app/src/main/java/com/example/quicknotes/db/Note.kt:13-18 | a note built from title and content takes the generated id and the clock's time; title and content are kept as given, empty strings included |
| `Notes.Restamp` | app/src/main/java/com/example/quicknotes/ui/NotesViewModel.kt:35-39 | the copy keeps the id and carries the new title, content and timestamp |
| `Notes.Lookup` | app/src/main/java/com/example/quicknotes/db/NoteDao.kt:16-17 | null exactly for an id with no row; otherwise the stored row, whose id is the one asked for |
| `Notes.Insert` | app/src/main/java/com/example/quicknotes/db/NoteDao.kt:10-11 | afterwards a lookup of the note's id gives exactly the note; every other id looks up as before; the table grows by one exactly when the id was new; the primary-key invariant is kept |
| `Notes.Delete` | app/src/main/java/com/example/quicknotes/db/NoteDao.kt:13-14 | afterwards the id looks up as null; other ids are unchanged; the table shrinks by one exactly when the id was stored, and is unchanged otherwise |
| `Notes.InsertOverwrites` | app/src/main/java/com/example/quicknotes/db/NoteDao.kt:10-11 | two replace-inserts with the same id leave only the second |
| `Notes.UpdateTwiceKeepsFields` | app/src/main/java/com/example/quicknotes/ui/NotesViewModel.kt:32-41 | updating twice with the same title and content is one update stamped with the second time |
| `Notes.GroceriesTodoTrace` | app/src/main/java/com/example/quicknotes/db/NotesRepository.kt:13-24 | after adding "Groceries" and "Todo" and deleting the first, every listing is exactly the "Todo" note |
| `NoteStore.NoteDao.constructor` | app/src/main/java/com/example/quicknotes/db/NoteDao.kt:5-6 | the table starts empty and keyed |
| `NoteStore.NoteDao.GetAllNotes` | app/src/main/java/com/example/quicknotes/db/NoteDao.kt:7-8 | the snapshot is a newest-first listing of the table |
| `NoteStore.NoteDao.InsertNote` | app/src/main/java/com/example/quicknotes/db/NoteDao.kt:10-11 | the table becomes `Insert` of the old table; the key invariant is kept |
| `NoteStore.NoteDao.DeleteNote` | app/src/main/java/com/example/quicknotes/db/NoteDao.kt:13-14 | the table becomes `Delete` of the old table |
| `NoteStore.NoteDao.GetNoteById` | app/src/main/java/com/example/quicknotes/db/NoteDao.kt:16-17 | null exactly when the id has no row; otherwise the stored note with that id |
| `NoteStore.NotesRepository.constructor` | app/src/main/java/com/example/quicknotes/db/NotesRepository.kt:8-10 | the repository wraps the given DAO |
| `NoteStore.NotesRepository.GetAllNotes` | app/src/main/java/com/example/quicknotes/db/NotesRepository.kt:11 | the DAO's listing, unchanged |
| `NoteStore.NotesRepository.AddNote` | app/src/main/java/com/example/quicknotes/db/NotesRepository.kt:13-16 | stores a note with the given title and content, the fresh id and the current time; with a fresh id the table grows by exactly one and every existing note is unchanged |
| `NoteStore.NotesRepository.UpdateNote` | app/src/main/java/com/example/quicknotes/db/NotesRepository.kt:18-20 | a replace-insert: the row for the note's id becomes the note, added if absent |
| `NoteStore.NotesRepository.DeleteNote` | app/src/main/java/com/example/quicknotes/db/NotesRepository.kt:22-24 | the DAO delete, so a no-op for an absent id |
| `NoteStore.NotesRepository.GetNoteById` | app/src/main/java/com/example/quicknotes/db/NoteDao.kt:16-17 | the lookup the view model expects of the repository, answered by the DAO |
| `NoteStore.NotesViewModel.constructor` | app/src/main/java/com/example/quicknotes/ui/NotesViewModel.kt:19-24 | `notes` is empty before the first snapshot |
| `NoteStore.NotesViewModel.Collect` | app/src/main/java/com/example/quicknotes/ui/NotesViewModel.kt:19-24 | after an emission, `notes` is a newest-first listing of the table |
| `NoteStore.NotesViewModel.AddNote` | app/src/main/java/com/example/quicknotes/ui/NotesViewModel.kt:26-30 | title and content reach the repository unchanged |
| `NoteStore.NotesViewModel.UpdateNote` | app/src/main/java/com/example/quicknotes/ui/NotesViewModel.kt:32-42 | afterwards the note's id holds exactly the note with the new title, content and time; every other id is unchanged |
| `NoteStore.NotesViewModel.DeleteNote` | app/src/main/java/com/example/quicknotes/ui/NotesViewModel.kt:44-48 | the note reaches the repository delete unchanged |
| `NoteStore.NotesViewModel.GetNoteById` | app/src/main/java/com/example/quicknotes/ui/NotesViewModel.kt:50-55 | the value handed to `onResult` is null exactly for an absent id, else the stored note |
| `NoteStore.GroceriesTodoScenario` | app/src/main/java/com/example/quicknotes/db/NotesRepository.kt:13-24 | the Groceries/Todo calls through a new view model leave a snapshot of exactly the "Todo" note |
| `Text.IsWhitespace` | app/src/main/java/com/example/quicknotes/ui/screens/AddNoteScreen.kt:85 | Kotlin's `Char.isWhitespace`, the test behind `isNotBlank`: every character it accepts lies in the Basic Multilingual Plane (at most U+3000) |
| `Text.IsRegexSpace` | app/src/main/java/com/example/quicknotes/ui/screens/AddNoteScreen.kt:92 | the JDK `\s` class used by the word split: every `\s` character is also whitespace for `isBlank` |
| `Text.IsBlank` | app/src/main/java/com/example/quicknotes/ui/screens/AddNoteScreen.kt:85 | `isBlank`: true exactly when every character is Kotlin whitespace (so also for the empty string) |
| `Text.FirstSpace` | app/src/main/java/com/example/quicknotes/ui/screens/AddNoteScreen.kt:92 | the start of the first `\s` match: no `\s` before it, a `\s` at it unless it is the end |
| `Text.SpaceRunEnd` | app/src/main/java/com/example/quicknotes/ui/screens/AddNoteScreen.kt:92 | the greedy end of a `\s+` match: all `\s` up to it, none at it |
| `Text.SplitOnSpaces` | app/src/main/java/com/example/quicknotes/ui/screens/AddNoteScreen.kt:92 | Kotlin's `split(Regex("\\s+"))` yields at least one piece, and no piece holds a `\s` |
| `Text.CountNonEmpty` | app/src/main/java/com/example/quicknotes/ui/screens/AddNoteScreen.kt:92 | `.count { it.isNotEmpty() }` counts at most every piece |
| `Text.WordCount` | app/src/main/java/com/example/quicknotes/ui/screens/AddNoteScreen.kt:92 | `wordCount` counts only pieces of the split, at most all of them (`WordCountIsRunCount` gives its meaning) |
| `Text.WordCountIsRunCount` | app/src/main/java/com/example/quicknotes/ui/screens/AddNoteScreen.kt:92 | the word count equals the number of maximal runs of characters outside the JDK `\s` class |
| `Text.NoWordsIffAllSpace` | app/src/main/java/com/example/quicknotes/ui/screens/AddNoteScreen.kt:92 | the word count is 0 exactly when the content is empty or made only of JDK `\s` characters |
| `Text.NoWordsIsBlank` | app/src/main/java/com/example/quicknotes/ui/screens/AddNoteScreen.kt:85-92 | content with no words is blank |
| `Text.NoBreakSpaceIsBlankWord` | app/src/main/java/com/example/quicknotes/ui/screens/AddNoteScreen.kt:85-92 | the converse fails for the JDK `\s` class: a lone no-break space is blank but counts as one word |
| `Text.Utf16Length` | app/src/main/java/com/example/quicknotes/ui/screens/AddNoteScreen.kt:91 | `content.length` counts UTF-16 units: between the number of characters and twice that |
| `Text.Utf16LengthOfBmp` | app/src/main/java/com/example/quicknotes/ui/screens/AddNoteScreen.kt:91 | for text in the Basic Multilingual Plane, the length is the number of characters |
| `Text.DigitChar` | app/src/main/java/com/example/quicknotes/ui/screens/NotesListScreen.kt:251 | a digit value becomes the character of that digit |
| `Text.DigitValue` | app/src/main/java/com/example/quicknotes/ui/screens/NotesListScreen.kt:251 | a digit character has a value below ten |
| `Text.DecimalString` | app/src/main/java/com/example/quicknotes/ui/screens/NotesListScreen.kt:251 | the rendered count is a non-empty string of digits with no leading zero |
| `Text.DecimalRoundTrip` | app/src/main/java/com/example/quicknotes/ui/screens/NotesListScreen.kt:251 | reading the rendered count back gives the count |
| `Editor.IsEditMode` | app/src/main/java/com/example/quicknotes/ui/screens/AddNoteScreen.kt:86 | the screen is in edit mode exactly when it was given a note |
| `Editor.IsValidNote` | app/src/main/java/com/example/quicknotes/ui/screens/AddNoteScreen.kt:85 | saving is possible exactly when title and content each contain a non-whitespace character |
| `Editor.CharacterCount` | app/src/main/java/com/example/quicknotes/ui/screens/AddNoteScreen.kt:91 | the character count is `content.length` in UTF-16 units |
| `Editor.ShowsStatistics` | app/src/main/java/com/example/quicknotes/ui/screens/AddNoteScreen.kt:205 | the statistics bar is shown exactly when the content is non-empty |
| `Editor.OffersDelete` | app/src/main/java/com/example/quicknotes/ui/screens/AddNoteScreen.kt:177 | the delete action is offered exactly when editing an existing note and a delete handler was supplied |
| `Editor.SaveCalls` | app/src/main/java/com/example/quicknotes/ui/screens/AddNoteScreen.kt:152-160 | an invalid note calls nothing; a valid one calls exactly one callback: `onNoteUpdated(existingNote, title, content)` in edit mode, `onNoteAdded(title, content)` otherwise |
| `Editor.UntouchedEditSavesSameFields` | app/src/main/java/com/example/quicknotes/ui/screens/AddNoteScreen.kt:83-86 | opening a valid note and saving it untouched updates that note with its own title and content |
| `Editor.AddNoteScreen.constructor` | app/src/main/java/com/example/quicknotes/ui/screens/AddNoteScreen.kt:82-84 | the fields start from the existing note's title and content, or empty when creating; no dialog is shown |
| `Editor.AddNoteScreen.OnTitleChange` | app/src/main/java/com/example/quicknotes/ui/screens/AddNoteScreen.kt:263 | only the title changes |
| `Editor.AddNoteScreen.OnContentChange` | app/src/main/java/com/example/quicknotes/ui/screens/AddNoteScreen.kt:312 | only the content changes |
| `Editor.AddNoteScreen.OnSaveClick` | app/src/main/java/com/example/quicknotes/ui/screens/AddNoteScreen.kt:152-161 | the save button does what `SaveCalls` says and navigates back exactly when the note is valid |
| `Editor.AddNoteScreen.OnDeleteClick` | app/src/main/java/com/example/quicknotes/ui/screens/AddNoteScreen.kt:177-180 | the delete button only opens the confirmation dialog |
| `Editor.AddNoteScreen.ShowsDeleteDialog` | app/src/main/java/com/example/quicknotes/ui/screens/AddNoteScreen.kt:345 | the dialog is on screen exactly when it was opened and the screen is in edit mode |
| `Editor.AddNoteScreen.OnConfirmDelete` | app/src/main/java/com/example/quicknotes/ui/screens/AddNoteScreen.kt:345-368 | confirming calls `onNoteDeleted(existingNote)` once, when there is a handler, closes the dialog and navigates back |
| `Editor.AddNoteScreen.OnDismissDelete` | app/src/main/java/com/example/quicknotes/ui/screens/AddNoteScreen.kt:376-378 | dismissing closes the dialog and calls nothing |
| `Navigation.AddRoute` | app/src/main/java/com/example/quicknotes/MainActivity.kt:101-122 | the add route gives no note argument: the three strings are null and the timestamp is -1 |
| `Navigation.EditRoute` | app/src/main/java/com/example/quicknotes/MainActivity.kt:88-94 | the edit route passes the clicked note's id and timestamp as they are, and its title and content encoded |
| `Navigation.ExistingNote` | app/src/main/java/com/example/quicknotes/MainActivity.kt:181-197 | a note is rebuilt exactly when id, title and content are present and the timestamp is not -1, and it carries the four (decoded) argument values |
| `Navigation.AddRouteCreates` | app/src/main/java/com/example/quicknotes/MainActivity.kt:86 | the add button always opens create mode |
| `Navigation.EditRouteRebuildsNote` | app/src/main/java/com/example/quicknotes/MainActivity.kt:88-94 | when decoding undoes encoding, the rebuilt note is the clicked note, unless its timestamp is -1, which opens create mode |
| `Navigation.ThemeState.constructor` | app/src/main/java/com/example/quicknotes/MainActivity.kt:62-63 | the theme starts as the system theme |
| `Navigation.ThemeState.OnThemeToggle` | app/src/main/java/com/example/quicknotes/MainActivity.kt:96 | the toggle flips `isDarkTheme` |
| `Navigation.ToggleTwice` | app/src/main/java/com/example/quicknotes/MainActivity.kt:96 | toggling twice restores the theme |
| `NotesList.CountLabel` | app/src/main/java/com/example/quicknotes/ui/screens/NotesListScreen.kt:251 | the label ends in " note" or "notes", and ends in 's' exactly when the count is not one |
| `NotesList.CountLabelReadsBack` | app/src/main/java/com/example/quicknotes/ui/screens/NotesListScreen.kt:251 | the label is the count in decimal, which reads back as the count, followed by " note" for exactly one note and " notes" for any other count |
| `NotesList.CountLabelExamples` | app/src/main/java/com/example/quicknotes/ui/screens/NotesListScreen.kt:251 | "0 notes", "1 note", "2 notes" |
| `NotesList.ContentBody` | app/src/main/java/com/example/quicknotes/ui/screens/NotesListScreen.kt:155-211 | the empty message is shown exactly for an empty list; otherwise the grid when `isGridView`, else the list, of the same notes |
| `NotesList.IsDeleting` | app/src/main/java/com/example/quicknotes/ui/screens/NotesListScreen.kt:452 | a card is flagged deleting exactly when its id equals `deletingNoteId` |
| `NotesList.NotesListScreen.constructor` | app/src/main/java/com/example/quicknotes/ui/screens/NotesListScreen.kt:106-108 | nothing pending, nothing deleting, list view |
| `NotesList.NotesListScreen.OnDeleteClick` | app/src/main/java/com/example/quicknotes/ui/screens/NotesListScreen.kt:122 | a card's delete only records the note as pending; nothing is deleted and nothing else changes |
| `NotesList.NotesListScreen.OnDismiss` | app/src/main/java/com/example/quicknotes/ui/screens/NotesListScreen.kt:132 | dismissing clears the pending note; no deletion is launched |
| `NotesList.NotesListScreen.OnConfirm` | app/src/main/java/com/example/quicknotes/ui/screens/NotesListScreen.kt:133-141 | confirming sets `deletingNoteId` to the note's id, clears the pending note and launches one deletion job for it |
| `NotesList.NotesListScreen.ResumeDeletion` | app/src/main/java/com/example/quicknotes/ui/screens/NotesListScreen.kt:822-831 | the oldest job calls `onDeleteNote` with its note, then clears `deletingNoteId` |
| `NotesList.NotesListScreen.OnViewToggle` | app/src/main/java/com/example/quicknotes/ui/screens/NotesListScreen.kt:116 | the view toggle flips `isGridView` and nothing else |
| `NotesList.DeletingNoteIsPending` | app/src/main/java/com/example/quicknotes/ui/screens/NotesListScreen.kt:133-141 | while a card is flagged deleting, a launched deletion job for that note has not resumed yet (the state invariant every handler keeps) |
| `NotesList.ConfirmedDeletion` | app/src/main/java/com/example/quicknotes/ui/screens/NotesListScreen.kt:129-141 | tap, confirm and resume: `onDeleteNote` is called once with the note, and afterwards no card is flagged deleting |
| `QuickNotes.NewModel` | app/src/main/java/com/example/quicknotes/db/NotesModel.kt:7-12 | a model built without an id has id 0 and carries the given title, content and time |
| `QuickNotes.EmptyTableValid` | app/src/main/java/com/example/quicknotes/db/NotesModel.kt:6-8 | the empty table meets the key invariant |
| `QuickNotes.RowIdFor` | app/src/main/java/com/example/quicknotes/db/NotesModel.kt:8 | the key of a written model is never 0: a new key not in the table for id 0, and the model's own id otherwise |
| `QuickNotes.InsertReplace` | app/src/main/java/com/example/quicknotes/db/RoomStoreDao.kt:21-22 | the model lands under its row id; other rows are unchanged; id 0 adds exactly one row; a stored id keeps the row count |
| `QuickNotes.UpdateExisting` | app/src/main/java/com/example/quicknotes/db/RoomStoreDao.kt:24-25 | only a stored row with the model's id changes, to the model; an absent id changes nothing |
| `QuickNotes.Upsert` | app/src/main/java/com/example/quicknotes/db/RoomStoreDao.kt:14-15 | a stored id is updated in place; id 0 adds one row under a fresh key and leaves every existing row unchanged; an absent id is inserted under that id |
| `QuickNotes.UpsertIsInsertReplace` | app/src/main/java/com/example/quicknotes/db/RoomStoreDao.kt:14-22 | upsert and replace-insert leave the same table |
| `QuickNotes.DeleteRow` | app/src/main/java/com/example/quicknotes/db/RoomStoreDao.kt:27-28 | exactly the row with the model's id goes; the rest are unchanged |
| `QuickNotes.DeletedCount` | app/src/main/java/com/example/quicknotes/db/RoomStoreDao.kt:27-28 | the returned count is 1 when the id was stored and 0 otherwise, and equals the number of rows removed |
| `QuickNotes.DeletedIdNotReused` | app/src/main/java/com/example/quicknotes/db/NotesModel.kt:8 | a deleted id is gone, and the next generated id is never that id |
| `QuickNotes.SaveModel` | app/src/main/java/com/example/quicknotes/ui/NoteScreen.kt:48-61 | nothing is saved when title and content are both empty; otherwise the model carries the fields, the current time, and the selected note's id or 0 |
| `QuickNotes.SaveWithoutSelectionAddsRow` | app/src/main/java/com/example/quicknotes/ui/NoteScreen.kt:51-61 | saving with no note selected adds exactly one row under a new id |
| `QuickNotes.SaveWithSelectionReplacesRow` | app/src/main/java/com/example/quicknotes/ui/NoteScreen.kt:57-61 | saving with a stored note selected replaces that row: the row count is unchanged, and the row holds the new fields under the same id |
| `QuickStore.RoomStoreDao.constructor` | app/src/main/java/com/example/quicknotes/db/RoomStoreDao.kt:12-13 | the table starts empty |
| `QuickStore.RoomStoreDao.UpsertDataModel` | app/src/main/java/com/example/quicknotes/db/RoomStoreDao.kt:14-15 | the table becomes `Upsert` of the old table |
| `QuickStore.RoomStoreDao.GetAllNotesList` | app/src/main/java/com/example/quicknotes/db/RoomStoreDao.kt:17-18 | the snapshot lists every row once, newest `updatedAt` first |
| `QuickStore.RoomStoreDao.InsertNote` | app/src/main/java/com/example/quicknotes/db/RoomStoreDao.kt:21-22 | returns the row id of the written row, a new one for id 0; the table becomes `InsertReplace` of the old table |
| `QuickStore.RoomStoreDao.UpdateNote` | app/src/main/java/com/example/quicknotes/db/RoomStoreDao.kt:24-25 | the table becomes `UpdateExisting` of the old table |
| `QuickStore.RoomStoreDao.DeleteNote` | app/src/main/java/com/example/quicknotes/db/RoomStoreDao.kt:27-28 | removes the row and returns the number removed |
| `QuickStore.AppRepo.constructor` | app/src/main/java/com/example/quicknotes/ui/AppRepo.kt:8 | the repository wraps the given DAO |
| `QuickStore.AppRepo.GetAllNotes` | app/src/main/java/com/example/quicknotes/ui/AppRepo.kt:10-12 | the DAO's listing, unchanged |
| `QuickStore.AppRepo.InsertNote` | app/src/main/java/com/example/quicknotes/ui/AppRepo.kt:14-16 | forwards to replace-insert and returns the DAO's row id; id 0 adds exactly one row, a stored id keeps the count, other rows are unchanged |
| `QuickStore.AppRepo.DeleteNote` | app/src/main/java/com/example/quicknotes/db/RoomStoreDao.kt:27-28 | the delete the view model expects of the repository, answered by the DAO |
| `QuickStore.HomeViewModel.constructor` | app/src/main/java/com/example/quicknotes/ui/viewmodel/HomeViewModel.kt:19-22 | `noteList` starts empty and `selectedNote` null |
| `QuickStore.HomeViewModel.Collect` | app/src/main/java/com/example/quicknotes/ui/viewmodel/HomeViewModel.kt:28-30 | each emission replaces `noteList` with a newest-first listing of the table |
| `QuickStore.HomeViewModel.AddNote` | app/src/main/java/com/example/quicknotes/ui/viewmodel/HomeViewModel.kt:32-34 | the model reaches `insertNote` unchanged |
| `QuickStore.HomeViewModel.DeleteNote` | app/src/main/java/com/example/quicknotes/ui/viewmodel/HomeViewModel.kt:36-38 | the model reaches deletion unchanged |
| `QuickStore.HomeViewModel.SetSelectedNote` | app/src/main/java/com/example/quicknotes/ui/viewmodel/HomeViewModel.kt:40-42 | the holder takes the given value, null included |
| `QuickStore.HomeViewModel.GetSelectedNote` | app/src/main/java/com/example/quicknotes/ui/viewmodel/HomeViewModel.kt:44 | returns exactly the value held |
| `QuickStore.NoteScreen.constructor` | app/src/main/java/com/example/quicknotes/ui/NoteScreen.kt:37-38 | both fields start empty |
| `QuickStore.NoteScreen.LoadSelectedNote` | app/src/main/java/com/example/quicknotes/ui/NoteScreen.kt:39-44 | the fields are prefilled from the selected note, and left as they are when none is selected |
| `QuickStore.NoteScreen.OnTitleChange` | app/src/main/java/com/example/quicknotes/ui/NoteScreen.kt:76 | only the title changes |
| `QuickStore.NoteScreen.OnContentChange` | app/src/main/java/com/example/quicknotes/ui/NoteScreen.kt:89 | only the content changes |
| `QuickStore.NoteScreen.OnSavePress` | app/src/main/java/com/example/quicknotes/ui/NoteScreen.kt:48-63 | with both fields empty, nothing is written and the screen stays; otherwise `SaveModel` is replace-inserted and the screen goes back |
| `QuickStore.NoteScreen.IsDeleteVisible` | app/src/main/java/com/example/quicknotes/ui/NoteScreen.kt:64 | the header's delete action is shown exactly when a note is selected |
| `QuickStore.NoteScreen.OnDelete` | app/src/main/java/com/example/quicknotes/ui/NoteScreen.kt:64-68 | deletes the selected note's row and goes back |

## Left out

- Compose rendering, layout, animation, theming, previews, focus requests and `ui/HomeScreen.kt`: they make no decisions.
- The text of the statistics bar ("N words • M characters"): rendering only. The two counts are modelled.
- Date formatting (`SimpleDateFormat`): locale-dependent library code.
- Coroutines, `Dispatchers`, Flow and StateFlow: each call is one synchronous step, and each Flow is the snapshot taken by `Collect`.
- The 300 ms `delay` before a list-screen deletion: not modelled. The launched jobs are a queue, and `ResumeDeletion` runs the oldest.
- The clock, the UUID generator and `Uri.encode`/`Uri.decode`: these are parameters.
- `EditRouteRebuildsNote`'s round trip: it is a precondition on `decode` and `encode`. It is not derived from Android URI code, which is not part of this model.
- The navigation library's own decoding of query arguments is not modelled. The route arguments reach `ExistingNote` exactly as `EditRoute` built them. If the library decodes query values before `getString` returns them, then `MainActivity.kt:182-184` decodes title and content a second time. A title containing `%41` would then come back as `A`. This follows from reading the code and was not executed.
- Navigation (`NavHost`, the back stack): a handler only reports that it navigates back.
- Integer widths: `Long` timestamps and `Int` ids are unbounded integers. An `Int` id past 2^31, and AUTOINCREMENT running out of ids, are not modelled.
- Characters: Dafny strings hold Unicode scalar values. An unpaired UTF-16 surrogate inside a Kotlin string cannot be represented.
- The whitespace table is fixed at the current Unicode standard. Older JVMs may classify a few characters differently.
- Text.IsRegexSpace: `\s` is the JDK class `[ \t\n\x0B\f\r]`. Android's ICU-backed regex engine documents `\s` as `[\t\n\f\r\p{Z}]`, so the two classes differ both ways: ICU adds the Unicode space separators (including U+00A0), and it leaves out U+000B, which the JDK class includes. The word-count lemmas therefore assume JDK `\s` semantics, and `NoBreakSpaceIsBlankWord` may not hold on a device.
- Storage faults: nothing in the code raises or handles them.
- The `Log.e` output of `HomeViewModel`.
- Dependency injection and database wiring (`di/`, `db/NotesDatabase.kt`, `db/AppDataBase.kt`).
- `db/NotesDao.kt` and `db/NotesDataBase.kt`: that database class does not extend `RoomDatabase`, so its ascending query is never used.
- `ui/CreateNote.kt`: it passes a `note =` argument that `NotesModel` has no field for.
- `common/SecurePreferences.kt` and `common/NavigationRoutes.kt`: unused.
- `NotesRepository.getNoteById` and `AppRepo.deleteNote`: the view models call them, but they are not defined. They are modelled by the DAO operation each one evidently stands for.
- `NoteScreen.OnDelete`: requires that a note is selected. The source's `!!` would throw otherwise, and the button is only shown when a note is selected.
