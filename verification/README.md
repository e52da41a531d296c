# Notes page view state, modelled in Dafny

This project models `AppComponent` of the Notes front end. The component holds two in-memory
lists of notes: `notes`, the normal notes, and `pinnedNotes`. It also holds a search query,
the view `filteredNotes` derived from that query, a creation draft `newNote` with its
`isCreatingNote` flag, and an optional edit draft `editingNote`. Each handler is modelled as a
pure transition on an immutable `State`:

- `loadNotes` becomes `Component.LoadNotes`.
- `onSearch` becomes `Component.OnSearch`.
- `addNote` and `cancelNote` become `Component.AddNote` and `Component.CancelNote`.
- `onPin` becomes `Component.OnPin`.
- `onEdit` becomes `Component.OnEdit`.
- `saveNote` becomes `Component.SaveNote`.
- `saveEditNote` becomes `Component.SaveEditNote`.
- `onDelete` becomes `Component.OnDelete`.

Modelling choices:

- **Object identity.** The code compares notes with `includes` and `!==`, so it matches by
  object identity. Each `Note` therefore carries a `handle`, kept apart from its properties
  (`Fields`: optional `id`, `title`, optional `content`, `createdAt`). The state counts
  handles in `nextHandle`. Every object the component creates gets a fresh handle: a spread
  copy `{ ...note }`, a merge `{ ...a, ...b }` or a new draft. The notes the service delivers
  are not created by the component; the model takes them to be new objects as well, so they
  get fresh handles too (see "Left out").
- **The aliased view.** With an empty query, `onSearch` makes `filteredNotes` point at the
  same array as `notes`. `View.SharesNotes` records that. Assigning `this.notes` a new array
  (load, pin, edit, delete) leaves the view with the old contents (`ReplaceNotes`). The
  in-place `push` of `saveNote` is seen through a shared view. So after a pin, an edit or a
  deletion made while the view was shared, `filteredNotes` keeps showing the old notes until
  the next search.
- **Outside inputs.** The notes service's replies are `Reply<T>` parameters: `Success(value)`
  or `Failure`. The answer to the confirmation prompt is a `bool`. The clock reading for
  `createdAt` is a `string` parameter.
- **Template bindings.** The HTML template writes `searchQuery` and the two drafts through
  two-way bindings. In `Session.Step` these writes are events, so runs can be stated.

The main results:

- Search is an order-preserving filter that keeps exactly the notes in which the lower-cased
  query occurs in the lower-cased title or content.
- Pinning moves one note between the lists and conserves the notes across both lists.
- Pinning then unpinning restores `pinnedNotes`.
- Saving an edit changes at most the first entry with the draft's `id`, and never an `id`.
- Deletion removes exactly the given object from both lists.
- Every allowed run (one in which `onPin` is only passed an existing object that is neither
  draft, `Session.Allowed`) keeps the two lists free of shared or repeated objects and keeps
  both drafts out of the lists.
- In every allowed run, `saveNote` pushes onto `notes`. Its branch for a pinned draft is never
  taken, because the draft object is never in a list.

## Model

| member | source | states |
|---|---|---|
| Seqs.FilterCounts | src/app/app.component.ts:48-54 | `Array.prototype.filter` keeps every passing element exactly as often as the input has it and no failing element at all |
| Seqs.FilterMembers | src/app/app.component.ts:48-54 | an element is in the filtered array exactly when it is in the input and passes the test |
| Seqs.FilterOrdered | src/app/app.component.ts:48-54 | the filtered array is a subsequence of the input: the kept elements stay in their order |
| Text.LowerChar | src/app/app.component.ts:45 | an upper-case ASCII letter becomes the lower-case letter at the same place in the alphabet; every other character is unchanged; the result is never an upper-case letter |
| Text.Lower | src/app/app.component.ts:45-50 | lower-casing keeps the length, turns each upper-case ASCII letter into its own lower-case letter, keeps every other character in place, and leaves no upper-case letter |
| Text.LowerIdempotent | src/app/app.component.ts:45-50 | lower-casing an already lower-cased string changes nothing |
| Text.LowerIgnoresCase | src/app/app.component.ts:45-53 | two strings that differ only in the case of ASCII letters lower-case to the same string, so the search cannot tell them apart |
| Text.Contains | src/app/app.component.ts:53 | `includes` holds exactly when the needle occurs at some position of the string |
| Notes.HasRef | src/app/app.component.ts:76 | `includes` on a list of objects (also at line 109) holds exactly when some position holds the object with that identity |
| Notes.Without | src/app/app.component.ts:81 | removing an object by identity leaves no element with its handle, keeps all other elements with their multiplicity and in order |
| Notes.UniqueWithout | src/app/app.component.ts:90 | removing an object from a list that holds no object twice keeps it so |
| Notes.Merge | src/app/app.component.ts:132 | the spread `{ ...base, ...draft }`: `title` and `createdAt` come from the draft; `id` and `content` come from the draft when it has them and from the base otherwise |
| Notes.MergeLaws | src/app/app.component.ts:132 | the spread merge: the draft's title wins, merging a note into itself or the same draft twice changes nothing, a complete draft replaces the base, and a matched `id` is kept |
| Notes.FindById | src/app/app.component.ts:127 | `findIndex` gives the first position whose `id` equals the draft's, or -1 exactly when there is none |
| Notes.ReplaceAt | src/app/app.component.ts:130-134 | the slice-spread-slice rebuild has the same length, holds the new object at the given position and every other element where it was |
| Notes.Stamp | src/app/app.component.ts:31-33 | the fetched notes keep their properties in order and become distinct fresh objects |
| Component.Init | src/app/app.component.ts:11-24 | the constructed component has empty `notes`, `pinnedNotes` and `filteredNotes`, no edit, creation off, an empty query, and an empty draft stamped with the given time that is an existing object |
| Component.ReplaceNotes | src/app/app.component.ts:57 | reassigning `notes` leaves the contents of `filteredNotes` as they were and ends any sharing of the array, so later in-place changes of `notes` are not seen by the view |
| Component.LoadNotes | src/app/app.component.ts:30-39 | on success `notes` holds the fetched notes as fresh, distinct objects, `pinnedNotes` is empty and the view no longer shares `notes`; on failure nothing changes |
| Component.ContentText | src/app/app.component.ts:50 | the searched content is the note's content when it has one, and is empty exactly when the content is absent or empty |
| Component.Matches | src/app/app.component.ts:49-53 | the filter test holds exactly when the term occurs at some position of the lower-cased title or of the lower-cased content |
| Component.SearchResults | src/app/app.component.ts:48-54 | the filter keeps a note exactly when the lower-cased query occurs in its lower-cased title or content, with `notes`' multiplicity and order |
| Component.OnSearch | src/app/app.component.ts:42-59 | an empty query makes `filteredNotes` exactly `notes`; otherwise a note is in it iff the lower-cased query occurs in its lower-cased title or content, with `notes`' multiplicity and order |
| Component.AddNote | src/app/app.component.ts:63-66 | creation starts with a fresh, empty draft stamped with the given time; nothing else changes |
| Component.CancelNote | src/app/app.component.ts:68-70 | creation ends and nothing else changes, the draft included |
| Component.OnPin | src/app/app.component.ts:73-95 | a pinned note is appended to `notes` and removed from `pinnedNotes`, any other is appended to `pinnedNotes` and removed from `notes`; the pinned status flips and the view no longer shares `notes` |
| Component.OnEdit | src/app/app.component.ts:101-104 | the edit draft becomes a fresh copy of the note's properties; nothing else changes |
| Component.SaveNote | src/app/app.component.ts:106-122 | on success the created note is appended to `pinnedNotes` if the draft object is pinned, else to `notes` (also seen by a view sharing `notes`), the draft is reset and creation ends; on failure nothing changes |
| Component.SaveEditNote | src/app/app.component.ts:124-139 | without a draft nothing changes; otherwise only the first entry with the draft's `id` becomes a fresh merge of itself and the draft (and the view stops sharing `notes`), no match leaves `notes` unchanged, the length is kept, and the draft is cleared |
| Component.OnDelete | src/app/app.component.ts:142-165 | a refused prompt, a missing `id` or a failed request change nothing; otherwise the object leaves both lists, all else stays in order, and the view no longer shares `notes` |
| Laws.PinKeepsOthers | src/app/app.component.ts:76-91 | whatever note is passed, pin or unpin never changes how often any other note occurs across both lists |
| Laws.PinConserves | src/app/app.component.ts:76-91 | for a note in one of the lists, pin or unpin keeps the combined multiset of both lists |
| Laws.PinKeepsUnique | src/app/app.component.ts:76-91 | whatever note is passed, pin or unpin never puts a note in both lists or twice in one |
| Laws.PinUnpin | src/app/app.component.ts:79-90 | pinning then unpinning a note held once in `notes` restores `pinnedNotes` exactly and `notes` as a multiset, with the note moved to the end |
| Laws.DeleteIdempotent | src/app/app.component.ts:152-153 | a confirmed, acknowledged deletion done twice equals it done once |
| Laws.SaveEditKeepsIds | src/app/app.component.ts:127-134 | saving an edit never changes the `id` at any position of `notes` |
| Laws.SearchExample | src/app/app.component.ts:42-59 | with one note titled "Shopping" with content "milk", the queries "milk" and "MILK" find it and "bread" finds nothing |
| Session.InitValid | src/app/app.component.ts:11-24 | the component as constructed satisfies the invariant |
| Session.LoadKeepsValid | src/app/app.component.ts:30-39 | loading keeps the invariant |
| Session.AddKeepsValid | src/app/app.component.ts:63-66 | starting creation keeps the invariant: the new draft is an object in neither list |
| Session.PinKeepsValid | src/app/app.component.ts:73-95 | pinning an existing note that is neither the creation draft nor the edit draft keeps the invariant |
| Session.EditKeepsValid | src/app/app.component.ts:101-104 | starting an edit keeps the invariant: the copy is an object in neither list and not the creation draft |
| Session.SaveKeepsValid | src/app/app.component.ts:106-122 | creating a note keeps the invariant |
| Session.SaveEditKeepsValid | src/app/app.component.ts:124-139 | saving an edit keeps the invariant |
| Session.DeleteKeepsValid | src/app/app.component.ts:142-165 | deleting keeps the invariant |
| Session.StepKeepsValid | src/app/app.component.ts:30-165 | each allowed event, handler call or binding write, keeps the invariant |
| Session.RunKeepsValid | src/app/app.component.ts:30-165 | every run of allowed events keeps the invariant: objects exist, no note is in both lists or twice in one, and neither draft is in a list |
| Session.CreatedNoteNeverPinned | src/app/app.component.ts:109-113 | in every state reached from construction, a successful `saveNote` appends to `notes` and leaves `pinnedNotes` unchanged |

## Left out

- The Angular decorator, dependency injection and the `title` field are framework plumbing.
  `ngOnInit` only calls `loadNotes`, which is modelled.
- The HTML template is not part of this model. The fields it writes through bindings are
  plain events in `Session.Step`.
- `NoteService` is not part of this model. Each request's outcome is a parameter. The
  arguments the component sends (the draft, the `id`) are not recorded.
- Overlapping requests and callback ordering are not modelled. Each callback runs as soon as
  its handler does.
- `console.log` and `console.error` output is left out. It has no effect on the state.
- The prompt text of `confirm` is left out; only its answer is modelled.
- Text.Lower: maps only the ASCII letters A-Z, not the full Unicode `toLowerCase`. Strings are
  sequences of characters, not UTF-16 code units.
- Notes.MergeLaws: an absent property (`None`) falls back to the base note. A property that
  is present but explicitly `undefined` is not modelled.
- The type of `id` is taken to be an integer, because the note model file is not part of
  this model. Only equality on it is used.
- Session.CreatedNoteNeverPinned: holds for runs in which `onPin` is never passed the
  creation draft itself. What the template passes to `onPin` is not visible.
- Session.RunKeepsValid: holds only for runs in which `onPin` is never passed the edit draft
  either. If it were, the pinned entry and the draft would be one object, and typing into the
  draft would change the pinned entry too; the model keeps the two as separate records.
- NoteService replies are taken to be new objects, distinct from each other and from every
  object the component holds. `Notes.Stamp`, `LoadNotes` and `SaveNote` give them fresh
  handles, and the invariant of `Session.Valid` rests on that.
