/**
 * The `NotesModel` record of the `QuickNote` table and the documented meaning of the writes
 * `RoomStoreDao` declares. The key is auto-generated: Room binds an id of 0 as NULL, and the
 * table's AUTOINCREMENT counter (`lastId`, at least every id ever stored) gives the new row
 * the id `lastId + 1`.
 */
module QuickNotes {
  import opened Options
  import Listing

  /** A row of `QuickNote`; `id` 0 means "not assigned yet". */
  datatype NotesModel = NotesModel(id: int, title: string, content: string, updatedAt: int)

  const Unassigned: int := 0

  function IdOf(m: NotesModel): int { m.id }

  function UpdatedAtOf(m: NotesModel): int { m.updatedAt }

  /** `NotesModel(title = ..., content = ..., updatedAt = ...)`: the id takes its default. */
  function NewModel(title: string, content: string, updatedAt: int): (m: NotesModel)
    ensures m.id == Unassigned && m.title == title && m.content == content && m.updatedAt == updatedAt
  {
    NotesModel(id := Unassigned, title := title, content := content, updatedAt := updatedAt)
  }

  /** The rows of `QuickNote` under their keys, and the table's AUTOINCREMENT counter. */
  datatype Table = Table(rows: map<int, NotesModel>, lastId: int)

  const EmptyTable: Table := Table(map[], 0)

  /** Every row sits under its own id, no row has id 0, and the counter is at least every stored id. */
  ghost predicate Valid(t: Table) {
    && t.lastId >= 0
    && Unassigned !in t.rows
    && Listing.KeyedBy(t.rows, IdOf)
    && forall k :: k in t.rows ==> k <= t.lastId
  }

  lemma EmptyTableValid()
    ensures Valid(EmptyTable)
  {
  }

  /** The key a written model gets: a fresh one for id 0, its own id otherwise. */
  function RowIdFor(t: Table, m: NotesModel): (id: int)
    requires Valid(t)
    ensures id != Unassigned
    ensures m.id == Unassigned ==> id !in t.rows
    ensures m.id != Unassigned ==> id == m.id
  {
    if m.id == Unassigned then t.lastId + 1 else m.id
  }

  /** Writes row `m` under key `id` and advances the counter past it. */
  function Put(t: Table, id: int, m: NotesModel): Table {
    Table(t.rows[id := m.(id := id)], if id > t.lastId then id else t.lastId)
  }

  /**
   * `insertNote` with REPLACE: a model with id 0 becomes a new row under a fresh id; a model
   * with an id overwrites that row, or is added under that id. Every other row is unchanged.
   */
  function InsertReplace(t: Table, m: NotesModel): (r: Table)
    requires Valid(t)
    ensures Valid(r)
    ensures var id := RowIdFor(t, m); id in r.rows && r.rows[id] == m.(id := id)
    ensures forall k :: k != RowIdFor(t, m) ==> (k in r.rows <==> k in t.rows) && (k in t.rows ==> r.rows[k] == t.rows[k])
    ensures m.id == Unassigned ==> |r.rows| == |t.rows| + 1
    ensures m.id != Unassigned ==> |r.rows| == if m.id in t.rows then |t.rows| else |t.rows| + 1
  {
    Put(t, RowIdFor(t, m), m)
  }

  /** `updateNote` (`@Update`): rewrites the row with the model's id; no such row, no change. */
  function UpdateExisting(t: Table, m: NotesModel): (r: Table)
    requires Valid(t)
    ensures Valid(r)
    ensures r.rows.Keys == t.rows.Keys && r.lastId == t.lastId
    ensures m.id in t.rows ==> r.rows[m.id] == m
    ensures forall k :: k in t.rows && k != m.id ==> r.rows[k] == t.rows[k]
    ensures m.id !in t.rows ==> r == t
  {
    if m.id in t.rows then Table(t.rows[m.id := m], t.lastId) else t
  }

  /** `upsertDataModel` (`@Upsert`): update when the id is stored, insert otherwise. */
  function Upsert(t: Table, m: NotesModel): (r: Table)
    requires Valid(t)
    ensures Valid(r)
    ensures m.id != Unassigned && m.id in t.rows ==> r.rows == t.rows[m.id := m] && r.lastId == t.lastId
    ensures m.id == Unassigned ==> |r.rows| == |t.rows| + 1 && RowIdFor(t, m) in r.rows && r.rows[RowIdFor(t, m)] == m.(id := RowIdFor(t, m))
    ensures m.id == Unassigned ==> forall k :: k in t.rows ==> k in r.rows && r.rows[k] == t.rows[k]
    ensures m.id != Unassigned && m.id !in t.rows ==> r.rows == t.rows[m.id := m]
  {
    if m.id != Unassigned && m.id in t.rows then UpdateExisting(t, m) else InsertReplace(t, m)
  }

  /** On this table, with no other constraint than the key, upsert and replace-insert leave the same rows. */
  lemma UpsertIsInsertReplace(t: Table, m: NotesModel)
    requires Valid(t)
    ensures Upsert(t, m) == InsertReplace(t, m)
  {
    if m.id != Unassigned && m.id in t.rows {
      assert m.(id := m.id) == m;
    }
  }

  /** `deleteNote` (`@Delete`): removes the row with the model's id. */
  function DeleteRow(t: Table, m: NotesModel): (r: Table)
    requires Valid(t)
    ensures Valid(r)
    ensures r.rows.Keys == t.rows.Keys - {m.id} && r.lastId == t.lastId
    ensures forall k :: k in r.rows ==> r.rows[k] == t.rows[k]
  {
    Table(t.rows - {m.id}, t.lastId)
  }

  /** The number of rows `deleteNote` reports removed. */
  function DeletedCount(t: Table, m: NotesModel): (n: int)
    requires Valid(t)
    ensures n == 0 || n == 1
    ensures n == 1 <==> m.id in t.rows
    ensures n == |t.rows| - |DeleteRow(t, m).rows|
  {
    var r := DeleteRow(t, m);
    assert |r.rows| == |r.rows.Keys| && |t.rows| == |t.rows.Keys|;
    if m.id in t.rows then 1 else 0
  }

  /** A deleted id can no longer be found, and a generated id is never one that was deleted. */
  lemma DeletedIdNotReused(t: Table, m: NotesModel, newModel: NotesModel)
    requires Valid(t) && m.id in t.rows && newModel.id == Unassigned
    ensures m.id !in DeleteRow(t, m).rows
    ensures RowIdFor(DeleteRow(t, m), newModel) != m.id
  {
  }

  /**
   * `NoteScreen`'s save rule: nothing when both fields are empty; otherwise a model stamped
   * `now`, carrying the selected note's id when there is one and 0 otherwise.
   */
  function SaveModel(selected: Option<NotesModel>, title: string, content: string, now: int): (r: Option<NotesModel>)
    ensures r.None? <==> title == [] && content == []
    ensures r.Some? ==> r.value.title == title && r.value.content == content && r.value.updatedAt == now
    ensures r.Some? ==> r.value.id == if selected.Some? then selected.value.id else Unassigned
  {
    if title == [] && content == [] then None
    else
      var temp := NewModel(title, content, now);
      Some(if selected.Some? then temp.(id := selected.value.id) else temp)
  }

  /** Saving with no note selected adds exactly one row. */
  lemma SaveWithoutSelectionAddsRow(t: Table, title: string, content: string, now: int)
    requires Valid(t) && (title != [] || content != [])
    ensures var m := SaveModel(None, title, content, now).value;
      |InsertReplace(t, m).rows| == |t.rows| + 1 && RowIdFor(t, m) !in t.rows
  {
  }

  /** Saving with a stored note selected replaces that row: same row count, new fields, same id. */
  lemma SaveWithSelectionReplacesRow(t: Table, selected: NotesModel, title: string, content: string, now: int)
    requires Valid(t) && selected.id in t.rows && (title != [] || content != [])
    ensures var m := SaveModel(Some(selected), title, content, now).value;
      && |InsertReplace(t, m).rows| == |t.rows|
      && InsertReplace(t, m).rows[selected.id] == NotesModel(selected.id, title, content, now)
  {
  }
}
