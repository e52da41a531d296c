/** Properties that relate several calls of the handlers. */
module Laws {
  import opened Wrappers
  import opened Seqs
  import opened Text
  import opened Notes
  import opened Component

  /** Taking a note out of a list that holds it once leaves exactly the other elements. */
  lemma TakeOut(l: seq<Note>, note: Note)
    requires UniqueRefs(l) && note in l
    ensures multiset(Without(l, note.handle)) + multiset{note} == multiset(l)
  {
    UniqueOnce(l, note);
    var w := multiset(Without(l, note.handle));
    forall n ensures (w + multiset{note})[n] == multiset(l)[n] {
      if n.handle == note.handle && n != note {
        assert n !in l;
      }
    }
    assert w + multiset{note} == multiset(l);
  }

  /** Pinning or unpinning never changes how often any other note occurs across both lists. */
  lemma PinKeepsOthers(s: State, note: Note)
    ensures forall n: Note :: n.handle != note.handle ==>
      multiset(OnPin(s, note).notes + OnPin(s, note).pinnedNotes)[n] == multiset(s.notes + s.pinnedNotes)[n]
  {
  }

  /** Pinning or unpinning a note that sits in one of the lists moves it to the other list:
      across both lists, no note is gained, lost or duplicated. */
  lemma PinConserves(s: State, note: Note)
    requires UniqueRefs(s.notes + s.pinnedNotes)
    requires note in s.notes + s.pinnedNotes
    ensures multiset(OnPin(s, note).notes + OnPin(s, note).pinnedNotes) == multiset(s.notes + s.pinnedNotes)
  {
    var r := OnPin(s, note);
    var h := note.handle;
    UniqueConcat(s.notes, s.pinnedNotes);
    if HasRef(s.pinnedNotes, h) {
      var m :| m in s.pinnedNotes && m.handle == h;
      forall n | n in s.notes ensures n.handle != h {
        assert !HasRef(s.pinnedNotes, n.handle);
        assert m in s.pinnedNotes;
      }
      TakeOut(s.pinnedNotes, note);
      assert r.notes == s.notes + [note];
      assert r.pinnedNotes == Without(s.pinnedNotes, h);
    } else {
      assert note in s.notes;
      TakeOut(s.notes, note);
      assert r.notes == Without(s.notes, h);
      assert r.pinnedNotes == s.pinnedNotes + [note];
    }
    assert multiset(r.notes + r.pinnedNotes) == multiset(r.notes) + multiset(r.pinnedNotes);
  }

  /** Pinning, on the two lists: an object not pinned leaves `notes` and joins `pinnedNotes`. */
  lemma PinListsUnique(notes: seq<Note>, pinned: seq<Note>, note: Note)
    requires UniqueRefs(notes + pinned) && !HasRef(pinned, note.handle)
    ensures UniqueRefs(Without(notes, note.handle) + (pinned + [note]))
  {
    var h := note.handle;
    var kept := Without(notes, h);
    UniqueConcat(notes, pinned);
    UniqueWithout(notes, h);
    assert Disjoint(pinned, [note]) by {
      forall n | n in pinned ensures !HasRef([note], n.handle) {
        assert n.handle != h;
      }
    }
    UniqueConcat(pinned, [note]);
    assert Disjoint(kept, pinned + [note]) by {
      forall n | n in kept ensures !HasRef(pinned + [note], n.handle) {
        assert n in notes && n.handle != h;
        assert !HasRef(pinned, n.handle);
      }
    }
    UniqueConcat(kept, pinned + [note]);
  }

  /** Unpinning, on the two lists: a pinned object leaves `pinnedNotes` and joins `notes`. */
  lemma UnpinListsUnique(notes: seq<Note>, pinned: seq<Note>, note: Note)
    requires UniqueRefs(notes + pinned) && HasRef(pinned, note.handle)
    ensures UniqueRefs((notes + [note]) + Without(pinned, note.handle))
  {
    var h := note.handle;
    var kept := Without(pinned, h);
    UniqueConcat(notes, pinned);
    UniqueWithout(pinned, h);
    var m :| m in pinned && m.handle == h;
    assert Disjoint(notes, [note]) by {
      forall n | n in notes ensures !HasRef([note], n.handle) {
        assert !HasRef(pinned, n.handle);
        assert n.handle != m.handle;
      }
    }
    UniqueConcat(notes, [note]);
    assert Disjoint(notes + [note], kept) by {
      forall n | n in notes + [note] ensures !HasRef(kept, n.handle) {
        if n in notes {
          assert !HasRef(pinned, n.handle);
        }
      }
    }
    UniqueConcat(notes + [note], kept);
  }

  /** Pinning or unpinning keeps both lists together free of repeated objects, whatever note
      is passed: no note is ever in both lists or twice in one. */
  lemma PinKeepsUnique(s: State, note: Note)
    requires UniqueRefs(s.notes + s.pinnedNotes)
    ensures UniqueRefs(OnPin(s, note).notes + OnPin(s, note).pinnedNotes)
  {
    if HasRef(s.pinnedNotes, note.handle) {
      UnpinListsUnique(s.notes, s.pinnedNotes, note);
    } else {
      PinListsUnique(s.notes, s.pinnedNotes, note);
    }
  }

  /** Removing an object that a list does not hold after appending it gives the list back. */
  lemma WithoutAppended(l: seq<Note>, note: Note)
    requires !HasRef(l, note.handle)
    ensures Without(l + [note], note.handle) == l
  {
    var p := (n: Note) => n.handle != note.handle;
    FilterConcat(l, [note], p);
    FilterKeepsAll(l, p);
    assert Filter([note], p) == [];
  }

  /** Moving the only copy of a note to the end of a list keeps the same elements. */
  lemma MoveToEnd(l: seq<Note>, note: Note)
    requires forall n :: n in l && n.handle == note.handle ==> n == note
    requires multiset(l)[note] == 1
    ensures multiset(Without(l, note.handle) + [note]) == multiset(l)
  {
  }

  /** Pinning a note that occurs once in `notes` and is not pinned, then unpinning it, restores
      `pinnedNotes` exactly and `notes` up to order: the note is now at the end. */
  lemma PinUnpin(s: State, note: Note)
    requires forall n :: n in s.notes && n.handle == note.handle ==> n == note
    requires multiset(s.notes)[note] == 1
    requires !HasRef(s.pinnedNotes, note.handle)
    ensures OnPin(OnPin(s, note), note).pinnedNotes == s.pinnedNotes
    ensures OnPin(OnPin(s, note), note).notes == Without(s.notes, note.handle) + [note]
    ensures multiset(OnPin(OnPin(s, note), note).notes) == multiset(s.notes)
  {
    var t := OnPin(s, note);
    assert t.pinnedNotes == s.pinnedNotes + [note] && t.notes == Without(s.notes, note.handle);
    assert HasRef(t.pinnedNotes, note.handle) by {
      assert note in t.pinnedNotes;
    }
    var u := OnPin(t, note);
    assert u.notes == t.notes + [note] && u.pinnedNotes == Without(t.pinnedNotes, note.handle);
    WithoutAppended(s.pinnedNotes, note);
    MoveToEnd(s.notes, note);
  }

  /** A confirmed, acknowledged deletion repeated is the deletion done once. */
  lemma DeleteIdempotent(s: State, note: Note, reply: Reply<()>)
    ensures OnDelete(OnDelete(s, note, true, reply), note, true, reply) == OnDelete(s, note, true, reply)
  {
    var r := OnDelete(s, note, true, reply);
    if note.fields.id.Some? && reply.Success? {
      var h := note.handle;
      FilterKeepsAll(r.notes, (n: Note) => n.handle != h);
      FilterKeepsAll(r.pinnedNotes, (n: Note) => n.handle != h);
    }
  }

  /** Saving an edit never changes an identifier: each position of `notes` keeps its `id`. */
  lemma SaveEditKeepsIds(s: State)
    ensures forall j :: 0 <= j < |s.notes| ==> SaveEditNote(s).notes[j].fields.id == s.notes[j].fields.id
  {
  }

  /** The note of the search example matches the lower-cased query "milk" but not "bread". */
  lemma ShoppingMatches(n: Note)
    requires n.fields.title == "Shopping" && n.fields.content == Some("milk")
    ensures Matches(n, "milk") && !Matches(n, "bread")
  {
    assert Lower("milk") == "milk";
    assert OccursAt(Lower(ContentText(n.fields)), "milk", 0);
    assert Lower("Shopping") == "shopping";
    forall i | 0 <= i <= 3 ensures !OccursAt("shopping", "bread", i) {
      assert "shopping"[i..i + 5][0] == "shopping"[i];
    }
  }

  /** A query found in the example note keeps it. */
  lemma ExampleFound(n: Note, query: string)
    requires n.fields.title == "Shopping" && n.fields.content == Some("milk")
    requires Lower(query) == "milk"
    ensures SearchResults([n], query) == [n]
  {
    ShoppingMatches(n);
    assert Matches(n, Lower(query));
    var r := SearchResults([n], query);
    assert multiset(r) == multiset([n]);
    assert |r| == |multiset(r)| == 1;
    assert r[0] in multiset(r);
  }

  /** A query not found in the example note drops it. */
  lemma ExampleMissed(n: Note)
    requires n.fields.title == "Shopping" && n.fields.content == Some("milk")
    ensures SearchResults([n], "bread") == []
  {
    ShoppingMatches(n);
    assert Lower("bread") == "bread";
    assert !Matches(n, Lower("bread"));
    var r := SearchResults([n], "bread");
    assert multiset(r) == multiset{};
    assert |r| == |multiset(r)| == 0;
  }

  /** The search example: a single note titled "Shopping" with content "milk" is found by
      "milk" (and by "MILK"), and nothing is found by "bread". */
  lemma SearchExample(s: State, n: Note)
    requires n.fields.title == "Shopping" && n.fields.content == Some("milk")
    requires s.notes == [n]
    ensures FilteredNotes(OnSearch(s.(searchQuery := "milk"))) == [n]
    ensures FilteredNotes(OnSearch(s.(searchQuery := "MILK"))) == [n]
    ensures FilteredNotes(OnSearch(s.(searchQuery := "bread"))) == []
  {
    assert Lower("milk") == "milk";
    ExampleFound(n, "milk");
    assert Lower("MILK") == "milk";
    ExampleFound(n, "MILK");
    ExampleMissed(n);
  }
}
