/** Runs of the component: the handlers and the template's two-way bindings as events, and the
    invariant every run keeps. */
module Session {
  import opened Wrappers
  import opened Seqs
  import opened Notes
  import opened Component
  import opened Laws

  /** What can happen to the component: a handler call, with the service reply, prompt answer
      or clock reading it consumes, or the template writing a bound field. */
  datatype Event =
    | Load(notesReply: Reply<seq<Fields>>)
    | TypeQuery(query: string)
    | Search
    | Add(createdAt: string)
    | TypeDraft(draft: Fields)
    | Cancel
    | Pin(pinned: Note)
    | Edit(edited: Note)
    | TypeEdit(edit: Fields)
    | Save(createdReply: Reply<Fields>, nextCreatedAt: string)
    | SaveEdit
    | Delete(deleted: Note, confirmed: bool, deleteReply: Reply<()>)

  function Step(s: State, e: Event): State {
    match e
    case Load(reply) => LoadNotes(s, reply)
    case TypeQuery(q) => s.(searchQuery := q)
    case Search => OnSearch(s)
    case Add(createdAt) => AddNote(s, createdAt)
    case TypeDraft(f) => s.(newNote := s.newNote.(fields := f))
    case Cancel => CancelNote(s)
    case Pin(note) => OnPin(s, note)
    case Edit(note) => OnEdit(s, note)
    case TypeEdit(f) =>
      if s.editingNote.Some? then s.(editingNote := Some(s.editingNote.value.(fields := f))) else s
    case Save(reply, createdAt) => SaveNote(s, reply, createdAt)
    case SaveEdit => SaveEditNote(s)
    case Delete(note, confirmed, reply) => OnDelete(s, note, confirmed, reply)
  }

  /** The note passed to `onPin` is an object that exists and is neither the creation draft nor
      the edit draft. */
  predicate Allowed(s: State, e: Event) {
    e.Pin? ==>
      && e.pinned.handle < s.nextHandle
      && e.pinned.handle != s.newNote.handle
      && (s.editingNote.Some? ==> e.pinned.handle != s.editingNote.value.handle)
  }

  function Run(s: State, events: seq<Event>): State
    decreases |events|
  {
    if |events| == 0 then s else Run(Step(s, events[0]), events[1..])
  }

  predicate AllowedRun(s: State, events: seq<Event>)
    decreases |events|
  {
    |events| == 0 || (Allowed(s, events[0]) && AllowedRun(Step(s, events[0]), events[1..]))
  }

  /** The object with handle `h` exists and is in neither list. */
  ghost predicate Outside(s: State, h: Handle) {
    h < s.nextHandle && !HasRef(s.notes + s.pinnedNotes, h)
  }

  /** Every object in the lists and the drafts exists, no note is in both lists or twice in one,
      and neither draft is in a list or is the other draft. */
  ghost predicate Valid(s: State) {
    && (forall n :: n in s.notes + s.pinnedNotes ==> n.handle < s.nextHandle)
    && UniqueRefs(s.notes + s.pinnedNotes)
    && Outside(s, s.newNote.handle)
    && (s.editingNote.Some? ==>
          Outside(s, s.editingNote.value.handle) && s.editingNote.value.handle != s.newNote.handle)
  }

  lemma InitValid(createdAt: string)
    ensures Valid(Init(createdAt))
  {
  }

  lemma LoadKeepsValid(s: State, reply: Reply<seq<Fields>>)
    requires Valid(s)
    ensures Valid(LoadNotes(s, reply))
  {
  }

  lemma PinKeepsValid(s: State, note: Note)
    requires Valid(s)
    requires note.handle < s.nextHandle && note.handle != s.newNote.handle
    requires s.editingNote.Some? ==> note.handle != s.editingNote.value.handle
    ensures Valid(OnPin(s, note))
  {
    var r := OnPin(s, note);
    PinKeepsUnique(s, note);
    var draft := if s.editingNote.Some? then s.editingNote.value.handle else s.newNote.handle;
    forall n | n in r.notes + r.pinnedNotes
      ensures n.handle < r.nextHandle && n.handle != r.newNote.handle && n.handle != draft
    {
      assert n in s.notes + s.pinnedNotes || n == note;
    }
  }

  lemma SaveKeepsValid(s: State, reply: Reply<Fields>, createdAt: string)
    requires Valid(s)
    ensures Valid(SaveNote(s, reply, createdAt))
  {
    var r := SaveNote(s, reply, createdAt);
    if reply.Success? {
      var created := Note(s.nextHandle, reply.value);
      var both := s.notes + s.pinnedNotes;
      assert !HasRef(both, created.handle);
      UniqueConcat(both, [created]);
      UniqueConcat(s.notes, s.pinnedNotes);
      assert !HasRef(s.pinnedNotes, s.newNote.handle) by {
        forall n | n in s.pinnedNotes ensures n.handle != s.newNote.handle {
          assert n in both;
        }
      }
      assert r.notes + r.pinnedNotes == s.notes + [created] + s.pinnedNotes;
      UniqueConcat(s.notes, [created]);
      UniqueConcat(s.notes + [created], s.pinnedNotes);
    }
  }

  /** Putting a new object in place of one position of a list keeps it free of repeated objects. */
  lemma ReplaceAtKeepsUnique(l: seq<Note>, rest: seq<Note>, k: nat, x: Note)
    requires k < |l|
    requires UniqueRefs(l + rest) && !HasRef(l + rest, x.handle)
    ensures UniqueRefs(ReplaceAt(l, k, x) + rest)
  {
    var before := l + rest;
    var after := ReplaceAt(l, k, x) + rest;
    assert |after| == |before|;
    assert forall i :: 0 <= i < |after| && i != k ==> after[i] == before[i];
    forall i, j | 0 <= i < j < |after| ensures after[i].handle != after[j].handle {
      if i == k {
        assert before[j] in before;
      } else if j == k {
        assert before[i] in before;
      }
    }
  }

  lemma SaveEditKeepsValid(s: State)
    requires Valid(s)
    ensures Valid(SaveEditNote(s))
  {
    var r := SaveEditNote(s);
    if s.editingNote.Some? {
      var k := FindById(s.notes, s.editingNote.value.fields.id);
      if k != -1 {
        var merged := r.notes[k];
        var both := s.notes + s.pinnedNotes;
        assert merged.handle == s.nextHandle;
        assert r.notes == ReplaceAt(s.notes, k, merged);
        ReplaceAtKeepsUnique(s.notes, s.pinnedNotes, k, merged);
        forall n | n in r.notes + r.pinnedNotes ensures n.handle < r.nextHandle && n.handle != r.newNote.handle {
          assert n in both || n == merged;
        }
      }
    }
  }

  lemma DeleteKeepsValid(s: State, note: Note, confirmed: bool, reply: Reply<()>)
    requires Valid(s)
    ensures Valid(OnDelete(s, note, confirmed, reply))
  {
    var r := OnDelete(s, note, confirmed, reply);
    if confirmed && note.fields.id.Some? && reply.Success? {
      var h := note.handle;
      FilterConcat(s.notes, s.pinnedNotes, (n: Note) => n.handle != h);
      assert r.notes + r.pinnedNotes == Without(s.notes + s.pinnedNotes, h);
      UniqueWithout(s.notes + s.pinnedNotes, h);
    }
  }

  /** An event that changes neither list, neither draft nor the handle counter keeps the
      invariant: typing a query, searching and cancelling creation. */
  lemma SameObjectsKeepValid(s: State, r: State)
    requires Valid(s)
    requires r.notes == s.notes && r.pinnedNotes == s.pinnedNotes && r.nextHandle == s.nextHandle
    requires r.newNote == s.newNote && r.editingNote == s.editingNote
    ensures Valid(r)
  {
  }

  /** Starting creation takes a fresh object as the draft. */
  lemma AddKeepsValid(s: State, createdAt: string)
    requires Valid(s)
    ensures Valid(AddNote(s, createdAt))
  {
  }

  /** Starting an edit takes a fresh copy as the edit draft. */
  lemma EditKeepsValid(s: State, note: Note)
    requires Valid(s)
    ensures Valid(OnEdit(s, note))
  {
  }

  /** Typing into the creation draft changes its properties, not its identity. */
  lemma TypeDraftKeepsValid(s: State, f: Fields)
    requires Valid(s)
    ensures Valid(Step(s, TypeDraft(f)))
  {
  }

  /** Typing into the edit draft changes its properties, not its identity. */
  lemma TypeEditKeepsValid(s: State, f: Fields)
    requires Valid(s)
    ensures Valid(Step(s, TypeEdit(f)))
  {
  }

  /** The `Pin` event is the `onPin` handler. */
  lemma PinIsStep(s: State, note: Note)
    ensures Step(s, Pin(note)) == OnPin(s, note)
  {
  }

  /** Each kind of event keeps the invariant as a step of a run. The lemmas below lift the
      handler lemmas to `Step`, one event each, so that no single proof has to look at every
      branch of `Step` together with the invariant. */
  lemma LoadStep(s: State, reply: Reply<seq<Fields>>)
    requires Valid(s)
    ensures Valid(Step(s, Load(reply)))
  {
    LoadKeepsValid(s, reply);
  }

  lemma TypeQueryStep(s: State, q: string)
    requires Valid(s)
    ensures Valid(Step(s, TypeQuery(q)))
  {
    SameObjectsKeepValid(s, s.(searchQuery := q));
  }

  lemma SearchStep(s: State)
    requires Valid(s)
    ensures Valid(Step(s, Search))
  {
    SameObjectsKeepValid(s, OnSearch(s));
  }

  lemma AddStep(s: State, createdAt: string)
    requires Valid(s)
    ensures Valid(Step(s, Add(createdAt)))
  {
    AddKeepsValid(s, createdAt);
  }

  lemma CancelStep(s: State)
    requires Valid(s)
    ensures Valid(Step(s, Cancel))
  {
    SameObjectsKeepValid(s, CancelNote(s));
  }

  lemma PinStep(s: State, note: Note)
    requires Valid(s) && Allowed(s, Pin(note))
    ensures Valid(Step(s, Pin(note)))
  {
    PinIsStep(s, note);
    PinKeepsValid(s, note);
  }

  lemma EditStep(s: State, note: Note)
    requires Valid(s)
    ensures Valid(Step(s, Edit(note)))
  {
    EditKeepsValid(s, note);
  }

  lemma SaveStep(s: State, reply: Reply<Fields>, createdAt: string)
    requires Valid(s)
    ensures Valid(Step(s, Save(reply, createdAt)))
  {
    SaveKeepsValid(s, reply, createdAt);
  }

  lemma SaveEditStep(s: State)
    requires Valid(s)
    ensures Valid(Step(s, SaveEdit))
  {
    SaveEditKeepsValid(s);
  }

  lemma DeleteStep(s: State, note: Note, confirmed: bool, reply: Reply<()>)
    requires Valid(s)
    ensures Valid(Step(s, Delete(note, confirmed, reply)))
  {
    DeleteKeepsValid(s, note, confirmed, reply);
  }

  /** Every allowed event keeps the invariant. */
  lemma StepKeepsValid(s: State, e: Event)
    requires Valid(s) && Allowed(s, e)
    ensures Valid(Step(s, e))
  {
    match e
    case Load(reply) => LoadStep(s, reply);
    case TypeQuery(q) => TypeQueryStep(s, q);
    case Search => SearchStep(s);
    case Add(createdAt) => AddStep(s, createdAt);
    case TypeDraft(f) => TypeDraftKeepsValid(s, f);
    case Cancel => CancelStep(s);
    case Pin(note) => PinStep(s, note);
    case Edit(note) => EditStep(s, note);
    case TypeEdit(f) => TypeEditKeepsValid(s, f);
    case Save(reply, createdAt) => SaveStep(s, reply, createdAt);
    case SaveEdit => SaveEditStep(s);
    case Delete(note, confirmed, reply) => DeleteStep(s, note, confirmed, reply);
  }

  /** Every allowed run keeps the invariant. */
  lemma {:induction false} RunKeepsValid(s: State, events: seq<Event>)
    requires Valid(s) && AllowedRun(s, events)
    ensures Valid(Run(s, events))
    decreases |events|
  {
    if |events| > 0 {
      StepKeepsValid(s, events[0]);
      RunKeepsValid(Step(s, events[0]), events[1..]);
    }
  }

  /** In every state an allowed run reaches, the draft is not pinned, so a created note always
      goes to the end of `notes`: the branch of `saveNote` that pushes onto `pinnedNotes` is
      never taken. */
  lemma CreatedNoteNeverPinned(createdAt: string, events: seq<Event>, created: Fields, nextCreatedAt: string)
    requires AllowedRun(Init(createdAt), events)
    ensures var s := Run(Init(createdAt), events);
      && SaveNote(s, Success(created), nextCreatedAt).pinnedNotes == s.pinnedNotes
      && SaveNote(s, Success(created), nextCreatedAt).notes == s.notes + [Note(s.nextHandle, created)]
  {
    InitValid(createdAt);
    RunKeepsValid(Init(createdAt), events);
    var s := Run(Init(createdAt), events);
    assert !HasRef(s.pinnedNotes, s.newNote.handle) by {
      forall n | n in s.pinnedNotes ensures n.handle != s.newNote.handle {
        assert n in s.notes + s.pinnedNotes;
      }
    }
  }
}
