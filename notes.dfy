/**
 * The `Note` record of the `notes` table and the documented meaning of the writes and
 * lookups that `NoteDao` declares over it, as functions on the table's contents.
 */
module Notes {
  import opened Options
  import Listing

  /** A row of the `notes` table; `id` is the primary key, `timestamp` is in epoch milliseconds. */
  datatype Note = Note(id: string, title: string, content: string, timestamp: int)

  function IdOf(n: Note): string { n.id }

  function TimestampOf(n: Note): int { n.timestamp }

  /** The contents of the `notes` table: each row under its primary key. */
  type Table = map<string, Note>

  /** The primary-key invariant: every row is stored under its own id, so no id occurs twice. */
  ghost predicate Keyed(t: Table) {
    Listing.KeyedBy(t, IdOf)
  }

  /** `Note(title = title, content = content)`: the id and timestamp defaults supplied by the UUID generator and the clock. */
  function NewNote(title: string, content: string, freshId: string, now: int): (n: Note)
    ensures n.title == title && n.content == content
    ensures n.id == freshId && n.timestamp == now
  {
    Note(id := freshId, title := title, content := content, timestamp := now)
  }

  /** `note.copy(title = title, content = content, timestamp = now)`: only the id survives. */
  function Restamp(note: Note, title: string, content: string, now: int): (r: Note)
    ensures r.id == note.id
    ensures r.title == title && r.content == content && r.timestamp == now
  {
    note.(title := title, content := content, timestamp := now)
  }

  /** `getNoteById`: `SELECT * FROM notes WHERE id = :id`, null when no row matches. */
  function Lookup(t: Table, id: string): (r: Option<Note>)
    ensures r.Some? <==> id in t
    ensures r.Some? ==> r.value == t[id]
    ensures Keyed(t) && r.Some? ==> r.value.id == id
  {
    if id in t then Some(t[id]) else None
  }

  /** `insertNote` with `OnConflictStrategy.REPLACE`: adds the row, or overwrites the row with the same id. */
  function Insert(t: Table, n: Note): (r: Table)
    ensures Lookup(r, n.id) == Some(n)
    ensures forall id :: id != n.id ==> Lookup(r, id) == Lookup(t, id)
    ensures |r| == if n.id in t then |t| else |t| + 1
    ensures Keyed(t) ==> Keyed(r)
  {
    t[n.id := n]
  }

  /** `@Delete`: removes the row whose primary key is `n.id`; no row, no change. */
  function Delete(t: Table, n: Note): (r: Table)
    ensures Lookup(r, n.id) == None
    ensures forall id :: id != n.id ==> Lookup(r, id) == Lookup(t, id)
    ensures |r| == if n.id in t then |t| - 1 else |t|
    ensures n.id !in t ==> r == t
    ensures Keyed(t) ==> Keyed(r)
  {
    var r := t - {n.id};
    assert r.Keys == t.Keys - {n.id};
    r
  }

  /** Writing the same id twice keeps only the second write. */
  lemma InsertOverwrites(t: Table, a: Note, b: Note)
    requires a.id == b.id
    ensures Insert(Insert(t, a), b) == Insert(t, b)
  {
  }

  /** Updating twice with the same title and content: the row keeps those fields and carries the second time. */
  lemma UpdateTwiceKeepsFields(t: Table, note: Note, title: string, content: string, now1: int, now2: int)
    ensures var once := Restamp(note, title, content, now1);
      Insert(Insert(t, once), Restamp(once, title, content, now2)) == Insert(t, Restamp(note, title, content, now2))
  {
  }

  /**
   * Add "Groceries", add "Todo", delete the first note: every listing of the table is
   * the "Todo" note alone. The two ids come from the UUID generator and differ.
   */
  lemma {:induction false} GroceriesTodoTrace(g: string, td: string, t1: int, t2: int, r: seq<Note>)
    requires g != td
    requires var groceries := NewNote("Groceries", "Milk, eggs", g, t1);
      var todo := NewNote("Todo", "Call Alice", td, t2);
      Listing.IsListing(r, Delete(Insert(Insert(map[], groceries), todo), groceries), IdOf, TimestampOf)
    ensures r == [Note(td, "Todo", "Call Alice", t2)]
  {
    var groceries := NewNote("Groceries", "Milk, eggs", g, t1);
    var todo := NewNote("Todo", "Call Alice", td, t2);
    var final := Delete(Insert(Insert(map[], groceries), todo), groceries);
    assert final == map[td := todo];
    Listing.SingletonListing(r, td, todo, IdOf, TimestampOf);
  }
}
