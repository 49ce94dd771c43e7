/**
 * `MainContent` of `MainActivity`: the route from the list screen to the editor and the
 * rebuilding of the note to edit from the route's arguments, plus the theme toggle.
 * `Uri.encode` and `Uri.decode` are parameters.
 */
module Navigation {
  import opened Options
  import opened Notes

  /** The default of the `timestamp` argument, meaning "no note". */
  const NoTimestamp: int := -1

  /** The arguments of the route `add_note?noteId={noteId}&title={title}&content={content}&timestamp={timestamp}`. */
  datatype RouteArgs = RouteArgs(noteId: Option<string>, title: Option<string>, content: Option<string>, timestamp: int)

  /** `navigate("add_note")` from the add button: no argument given, so each takes its default. */
  function AddRoute(): (args: RouteArgs)
    ensures args.noteId.None? && args.title.None? && args.content.None?
    ensures args.timestamp == NoTimestamp
  {
    RouteArgs(None, None, None, NoTimestamp)
  }

  /** `onEditNote`: the clicked note's id and timestamp as they are, title and content encoded. */
  function EditRoute(note: Note, encode: string -> string): (args: RouteArgs)
    ensures args.noteId == Some(note.id) && args.timestamp == note.timestamp
    ensures args.title == Some(encode(note.title)) && args.content == Some(encode(note.content))
  {
    RouteArgs(Some(note.id), Some(encode(note.title)), Some(encode(note.content)), note.timestamp)
  }

  /** `existingNote`: a note only when all three strings are present and the timestamp is not -1. */
  function ExistingNote(args: RouteArgs, decode: string -> string): (r: Option<Note>)
    ensures r.Some? <==> args.noteId.Some? && args.title.Some? && args.content.Some? && args.timestamp != NoTimestamp
    ensures r.Some? ==> r.value.id == args.noteId.value && r.value.timestamp == args.timestamp
    ensures r.Some? ==> r.value.title == decode(args.title.value) && r.value.content == decode(args.content.value)
  {
    if args.noteId.Some? && args.title.Some? && args.content.Some? && args.timestamp != NoTimestamp then
      Some(Note(args.noteId.value, decode(args.title.value), decode(args.content.value), args.timestamp))
    else
      None
  }

  /** The add button always opens the editor in create mode. */
  lemma AddRouteCreates(decode: string -> string)
    ensures ExistingNote(AddRoute(), decode).None?
  {
  }

  /**
   * When decoding undoes encoding, the editor opened from a card edits exactly the clicked
   * note, except a note stamped -1, which opens in create mode.
   */
  lemma EditRouteRebuildsNote(note: Note, encode: string -> string, decode: string -> string)
    requires forall s :: decode(encode(s)) == s
    ensures ExistingNote(EditRoute(note, encode), decode) == if note.timestamp == NoTimestamp then None else Some(note)
  {
  }

  /** `isDarkTheme`, flipped by the list screen's theme button. */
  class ThemeState {
    var isDarkTheme: bool

    /** `remember { mutableStateOf(isSystemInDarkTheme()) }`. */
    constructor (systemInDarkTheme: bool)
      ensures isDarkTheme == systemInDarkTheme
    {
      isDarkTheme := systemInDarkTheme;
    }

    method OnThemeToggle()
      modifies this
      ensures isDarkTheme == !old(isDarkTheme)
    {
      isDarkTheme := !isDarkTheme;
    }
  }

  /** Toggling twice restores the theme. */
  method ToggleTwice(theme: ThemeState)
    modifies theme
    ensures theme.isDarkTheme == old(theme.isDarkTheme)
  {
    theme.OnThemeToggle();
    theme.OnThemeToggle();
  }
}
