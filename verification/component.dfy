/** The view state of the notes page and the handlers that change it, each a pure transition.
    Replies of the notes service, the answer to the confirmation prompt and the clock reading
    for a new draft's `createdAt` are parameters of the transitions. */
module Component {
  import opened Wrappers
  import opened Seqs
  import opened Text
  import opened Notes

  /** Where `filteredNotes` points: at the very array `notes` points to (after a search with an
      empty query), or at an array of its own. */
  datatype View = SharesNotes | Own(items: seq<Note>)

  /** The component's fields. `nextHandle` is the identity the next object created gets. */
  datatype State = State(
    notes: seq<Note>,
    pinnedNotes: seq<Note>,
    editingNote: Option<Note>,
    newNote: Note,
    isCreatingNote: bool,
    searchQuery: string,
    filtered: View,
    nextHandle: Handle)

  /** The contents of `filteredNotes`. */
  function FilteredNotes(s: State): seq<Note> {
    match s.filtered
    case SharesNotes => s.notes
    case Own(items) => items
  }

  /** The component as constructed: empty lists, an empty draft, no edit in progress. */
  function Init(createdAt: string): (s: State)
    ensures s.notes == [] && s.pinnedNotes == [] && FilteredNotes(s) == []
    ensures s.editingNote.None? && !s.isCreatingNote && s.searchQuery == ""
    ensures s.newNote.fields == EmptyDraft(createdAt) && s.newNote.handle < s.nextHandle
  {
    State([], [], None, Note(0, EmptyDraft(createdAt)), false, "", Own([]), 1)
  }

  /** `this.notes = l`: `notes` now points at another array, so a `filteredNotes` that shared
      the old array keeps the old contents. */
  function ReplaceNotes(s: State, l: seq<Note>): (r: State)
    ensures r.notes == l
    ensures r.filtered.Own?
    ensures FilteredNotes(r) == FilteredNotes(s)
    ensures r == s.(notes := l, filtered := r.filtered)
  {
    var view := if s.filtered == SharesNotes then Own(s.notes) else s.filtered;
    s.(notes := l, filtered := view)
  }

  /** `loadNotes`: on success the fetched notes, as fresh objects, replace `notes` and no note
      stays pinned; on failure nothing changes. */
  function LoadNotes(s: State, reply: Reply<seq<Fields>>): (r: State)
    ensures reply.Failure? ==> r == s
    ensures reply.Success? ==> FieldsOf(r.notes) == reply.value && r.pinnedNotes == []
    ensures reply.Success? ==> forall n :: n in r.notes ==> s.nextHandle <= n.handle < r.nextHandle
    ensures reply.Success? ==> UniqueRefs(r.notes)
    ensures reply.Success? ==> r.filtered.Own?
    ensures FilteredNotes(r) == FilteredNotes(s)
    ensures r == s.(notes := r.notes, pinnedNotes := r.pinnedNotes, filtered := r.filtered,
                    nextHandle := r.nextHandle)
  {
    match reply
    case Failure => s
    case Success(records) =>
      ReplaceNotes(s, Stamp(records, s.nextHandle)).(
        pinnedNotes := [], nextHandle := s.nextHandle + |records|)
  }

  /** The text searched in a note's content: an absent or empty content counts as "". */
  function ContentText(f: Fields): (t: string)
    ensures t == "" <==> f.content.None? || f.content == Some("")
    ensures f.content.Some? ==> t == f.content.value
  {
    match f.content
    case Some(c) => c
    case None => ""
  }

  /** The search test of `onSearch` for an already lower-cased term. */
  predicate Matches(n: Note, term: string)
    ensures Matches(n, term) <==>
      (exists i :: OccursAt(Lower(n.fields.title), term, i))
      || (exists i :: OccursAt(Lower(ContentText(n.fields)), term, i))
  {
    Contains(Lower(n.fields.title), term) || Contains(Lower(ContentText(n.fields)), term)
  }

  /** The intended meaning of a match, stated on positions: the lower-cased query occurs
      somewhere in the lower-cased title or in the lower-cased content. */
  ghost predicate FoundIn(n: Note, query: string) {
    (exists i :: OccursAt(Lower(n.fields.title), Lower(query), i))
    || (exists i :: OccursAt(Lower(ContentText(n.fields)), Lower(query), i))
  }

  /** The notes the filter of `onSearch` keeps for `query`: exactly those in which the query is
      found, in order and with their multiplicity. */
  function SearchResults(notes: seq<Note>, query: string): (r: seq<Note>)
    ensures forall n :: n in r <==> n in notes && FoundIn(n, query)
    ensures forall n :: multiset(r)[n] == if FoundIn(n, query) then multiset(notes)[n] else 0
    ensures IsSubsequence(r, notes)
  {
    var keep := (n: Note) => Matches(n, Lower(query));
    FilterCounts(notes, keep);
    FilterMembers(notes, keep);
    FilterOrdered(notes, keep);
    Filter(notes, keep)
  }

  /** `onSearch`: with a non-empty query `filteredNotes` becomes the notes that match it, in
      order and with their multiplicity; with an empty one it becomes `notes` itself. */
  function OnSearch(s: State): (r: State)
    ensures s.searchQuery == "" ==> r.filtered == SharesNotes && FilteredNotes(r) == s.notes
    ensures s.searchQuery != "" ==>
      forall n :: n in FilteredNotes(r) <==> n in s.notes && FoundIn(n, s.searchQuery)
    ensures s.searchQuery != "" ==>
      forall n :: multiset(FilteredNotes(r))[n] == if FoundIn(n, s.searchQuery) then multiset(s.notes)[n] else 0
    ensures IsSubsequence(FilteredNotes(r), s.notes)
    ensures r == s.(filtered := r.filtered)
  {
    if s.searchQuery != "" then
      s.(filtered := Own(SearchResults(s.notes, s.searchQuery)))
    else
      SubsequenceReflexive(s.notes);
      s.(filtered := SharesNotes)
  }

  /** `addNote`: creation starts with a fresh, empty draft stamped `createdAt`. */
  function AddNote(s: State, createdAt: string): (r: State)
    ensures r.isCreatingNote
    ensures r.newNote.fields == EmptyDraft(createdAt)
    ensures s.nextHandle <= r.newNote.handle < r.nextHandle
    ensures r == s.(isCreatingNote := true, newNote := r.newNote, nextHandle := r.nextHandle)
  {
    s.(isCreatingNote := true, newNote := Note(s.nextHandle, EmptyDraft(createdAt)),
       nextHandle := s.nextHandle + 1)
  }

  /** `cancelNote`: creation ends; the draft and everything else stay. */
  function CancelNote(s: State): (r: State)
    ensures !r.isCreatingNote
    ensures r.(isCreatingNote := s.isCreatingNote) == s
  {
    s.(isCreatingNote := false)
  }

  /** `onPin`: a pinned note goes to the end of `notes` and leaves `pinnedNotes`; any other note
      goes to the end of `pinnedNotes` and leaves `notes`. Every other element stays, in order. */
  function OnPin(s: State, note: Note): (r: State)
    ensures HasRef(s.pinnedNotes, note.handle) ==>
      r.notes == s.notes + [note] && r.pinnedNotes == Without(s.pinnedNotes, note.handle)
    ensures !HasRef(s.pinnedNotes, note.handle) ==>
      r.pinnedNotes == s.pinnedNotes + [note] && r.notes == Without(s.notes, note.handle)
    ensures HasRef(r.pinnedNotes, note.handle) != HasRef(s.pinnedNotes, note.handle)
    ensures r.filtered.Own? && FilteredNotes(r) == FilteredNotes(s)
    ensures r == s.(notes := r.notes, pinnedNotes := r.pinnedNotes, filtered := r.filtered)
  {
    var h := note.handle;
    if HasRef(s.pinnedNotes, h) then
      var r := ReplaceNotes(s, s.notes + [note]).(pinnedNotes := Without(s.pinnedNotes, h));
      assert note in r.notes;
      r
    else
      var r := ReplaceNotes(s, Without(s.notes, h)).(pinnedNotes := s.pinnedNotes + [note]);
      assert note in r.pinnedNotes;
      r
  }

  /** `onEdit`: the edit draft becomes a fresh copy of the note's properties. */
  function OnEdit(s: State, note: Note): (r: State)
    ensures r.editingNote.Some? && r.editingNote.value.fields == note.fields
    ensures s.nextHandle <= r.editingNote.value.handle < r.nextHandle
    ensures r == s.(editingNote := r.editingNote, nextHandle := r.nextHandle)
  {
    s.(editingNote := Some(Note(s.nextHandle, note.fields)), nextHandle := s.nextHandle + 1)
  }

  /** `saveNote`: on success the created note, as a fresh object, is pushed onto `pinnedNotes`
      when the draft object is pinned and onto `notes` otherwise; then a fresh empty draft
      replaces the old one and creation ends. On failure nothing changes. */
  function SaveNote(s: State, reply: Reply<Fields>, createdAt: string): (r: State)
    ensures reply.Failure? ==> r == s
    ensures reply.Success? ==>
      var created := Note(s.nextHandle, reply.value);
      && (HasRef(s.pinnedNotes, s.newNote.handle) ==>
            r.pinnedNotes == s.pinnedNotes + [created] && r.notes == s.notes)
      && (!HasRef(s.pinnedNotes, s.newNote.handle) ==>
            r.notes == s.notes + [created] && r.pinnedNotes == s.pinnedNotes)
      && !r.isCreatingNote
      && r.newNote.fields == EmptyDraft(createdAt)
      && s.nextHandle <= r.newNote.handle < r.nextHandle
      && r.newNote.handle != created.handle
    ensures s.filtered == SharesNotes ==> FilteredNotes(r) == r.notes
    ensures r == s.(notes := r.notes, pinnedNotes := r.pinnedNotes, newNote := r.newNote,
                    isCreatingNote := r.isCreatingNote, nextHandle := r.nextHandle)
  {
    match reply
    case Failure => s
    case Success(fields) =>
      var created := Note(s.nextHandle, fields);
      var pushed :=
        if HasRef(s.pinnedNotes, s.newNote.handle) then s.(pinnedNotes := s.pinnedNotes + [created])
        else s.(notes := s.notes + [created]);
      pushed.(newNote := Note(s.nextHandle + 1, EmptyDraft(createdAt)), isCreatingNote := false,
              nextHandle := s.nextHandle + 2)
  }

  /** `saveEditNote`: with an edit in progress, the first note of `notes` whose identifier equals
      the draft's is replaced by a fresh object carrying the merge of its properties with the
      draft's; no other position changes. The edit always ends. Without an edit nothing changes. */
  function SaveEditNote(s: State): (r: State)
    ensures s.editingNote.None? ==> r == s
    ensures r.editingNote.None?
    ensures |r.notes| == |s.notes|
    ensures s.editingNote.Some? ==>
      var draft := s.editingNote.value.fields;
      forall k ::
        (&& 0 <= k < |s.notes|
         && s.notes[k].fields.id == draft.id
         && (forall j :: 0 <= j < k ==> s.notes[j].fields.id != draft.id)) ==>
        && r.notes[k].fields == Merge(s.notes[k].fields, draft)
        && s.nextHandle <= r.notes[k].handle < r.nextHandle
        && forall j :: 0 <= j < |s.notes| && j != k ==> r.notes[j] == s.notes[j]
    ensures s.editingNote.Some?
         && (forall j :: 0 <= j < |s.notes| ==> s.notes[j].fields.id != s.editingNote.value.fields.id)
         ==> r.notes == s.notes
    ensures s.editingNote.Some?
         && (exists j :: 0 <= j < |s.notes| && s.notes[j].fields.id == s.editingNote.value.fields.id)
         ==> r.filtered.Own?
    ensures FilteredNotes(r) == FilteredNotes(s)
    ensures r == s.(notes := r.notes, editingNote := r.editingNote, filtered := r.filtered,
                    nextHandle := r.nextHandle)
  {
    match s.editingNote
    case None => s
    case Some(draft) =>
      var k := FindById(s.notes, draft.fields.id);
      var saved :=
        if k == -1 then s
        else
          var merged := Note(s.nextHandle, Merge(s.notes[k].fields, draft.fields));
          ReplaceNotes(s, ReplaceAt(s.notes, k, merged)).(nextHandle := s.nextHandle + 1);
      saved.(editingNote := None)
  }

  /** `onDelete`: once confirmed, for a note with an identifier whose deletion the service
      acknowledges, the note object leaves both lists and all other elements stay, in order.
      A refused confirmation, a missing identifier or a failed request change nothing. */
  function OnDelete(s: State, note: Note, confirmed: bool, reply: Reply<()>): (r: State)
    ensures !confirmed || note.fields.id.None? || reply.Failure? ==> r == s
    ensures confirmed && note.fields.id.Some? && reply.Success? ==>
      && r.notes == Without(s.notes, note.handle)
      && r.pinnedNotes == Without(s.pinnedNotes, note.handle)
      && r.filtered.Own?
    ensures FilteredNotes(r) == FilteredNotes(s)
    ensures r == s.(notes := r.notes, pinnedNotes := r.pinnedNotes, filtered := r.filtered)
  {
    if !confirmed then s
    else if note.fields.id.None? then s
    else
      match reply
      case Failure => s
      case Success(_) =>
        ReplaceNotes(s, Without(s.notes, note.handle)).(pinnedNotes := Without(s.pinnedNotes, note.handle))
  }
}
