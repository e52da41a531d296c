/** Notes as the component holds them: a record of properties behind an object identity. */
module Notes {
  import opened Wrappers
  import opened Seqs

  /** Object identity: two notes are the same object (`===`) exactly when their handles agree. */
  type Handle = nat

  /** The identifier the notes service assigns to a stored note. */
  type Id = int

  /** The properties of a note object. `None` means the property is absent. */
  datatype Fields = Fields(id: Option<Id>, title: string, content: Option<string>, createdAt: string)

  /** A note object: its identity and its properties. */
  datatype Note = Note(handle: Handle, fields: Fields)

  /** The properties of an empty draft, `{ title: '', content: '', createdAt }`. */
  function EmptyDraft(createdAt: string): Fields {
    Fields(None, "", Some(""), createdAt)
  }

  /** `l.includes(note)` for a note with handle `h`: some element is that very object. */
  predicate HasRef(l: seq<Note>, h: Handle)
    ensures HasRef(l, h) <==> exists i :: 0 <= i < |l| && l[i].handle == h
  {
    exists n :: n in l && n.handle == h
  }

  /** `l.filter(n => n !== note)` for a note with handle `h`. */
  function Without(l: seq<Note>, h: Handle): (r: seq<Note>)
    ensures !HasRef(r, h)
    ensures forall n :: n in r <==> n in l && n.handle != h
    ensures forall n :: multiset(r)[n] == if n.handle == h then 0 else multiset(l)[n]
    ensures IsSubsequence(r, l)
  {
    FilterCounts(l, (n: Note) => n.handle != h);
    FilterMembers(l, (n: Note) => n.handle != h);
    FilterOrdered(l, (n: Note) => n.handle != h);
    Filter(l, (n: Note) => n.handle != h)
  }

  /** No object occurs twice in `l`. */
  predicate UniqueRefs(l: seq<Note>) {
    forall i, j :: 0 <= i < j < |l| ==> l[i].handle != l[j].handle
  }

  /** No object of `a` occurs in `b`. */
  predicate Disjoint(a: seq<Note>, b: seq<Note>) {
    forall n :: n in a ==> !HasRef(b, n.handle)
  }

  /** A concatenation holds no object twice exactly when neither part does and they share none. */
  lemma UniqueConcat(a: seq<Note>, b: seq<Note>)
    ensures UniqueRefs(a + b) <==> UniqueRefs(a) && UniqueRefs(b) && Disjoint(a, b)
  {
    var ab := a + b;
    if UniqueRefs(ab) {
      assert UniqueRefs(a) by {
        forall i, j | 0 <= i < j < |a| ensures a[i].handle != a[j].handle {
          assert ab[i] == a[i] && ab[j] == a[j];
        }
      }
      assert UniqueRefs(b) by {
        forall i, j | 0 <= i < j < |b| ensures b[i].handle != b[j].handle {
          assert ab[|a| + i] == b[i] && ab[|a| + j] == b[j];
        }
      }
      forall n | n in a ensures !HasRef(b, n.handle) {
        var i :| 0 <= i < |a| && a[i] == n;
        forall m | m in b ensures m.handle != n.handle {
          var j :| 0 <= j < |b| && b[j] == m;
          assert ab[i] == n && ab[|a| + j] == m;
        }
      }
    }
    if UniqueRefs(a) && UniqueRefs(b) && Disjoint(a, b) {
      forall i, j | 0 <= i < j < |ab| ensures ab[i].handle != ab[j].handle {
        if j < |a| {
          assert ab[i] == a[i] && ab[j] == a[j];
        } else if i >= |a| {
          assert ab[i] == b[i - |a|] && ab[j] == b[j - |a|];
        } else {
          assert ab[i] == a[i] && ab[j] == b[j - |a|];
          assert a[i] in a && b[j - |a|] in b;
        }
      }
    }
  }

  /** Putting an object in front of a list that does not hold it keeps the list free of repeated objects. */
  lemma UniqueCons(x: Note, l: seq<Note>)
    requires UniqueRefs(l)
    requires forall m :: m in l ==> m.handle != x.handle
    ensures UniqueRefs([x] + l)
  {
  }

  /** The tail of a list free of repeated objects is free of them too. */
  lemma UniqueTail(l: seq<Note>)
    requires |l| > 0 && UniqueRefs(l)
    ensures UniqueRefs(l[1..])
  {
    var tail := l[1..];
    forall i, j | 0 <= i < j < |tail| ensures tail[i].handle != tail[j].handle {
      assert tail[i] == l[i + 1] && tail[j] == l[j + 1];
    }
  }

  /** A subsequence of a list free of repeated objects is free of them too. */
  lemma {:induction false} UniqueSubsequence(a: seq<Note>, b: seq<Note>)
    requires IsSubsequence(a, b) && UniqueRefs(b)
    ensures UniqueRefs(a)
    decreases |b|
  {
    if |a| > 0 {
      UniqueTail(b);
      if a[0] == b[0] && IsSubsequence(a[1..], b[1..]) {
        UniqueSubsequence(a[1..], b[1..]);
        SubsequenceMembers(a[1..], b[1..]);
        forall m | m in a[1..] ensures m.handle != a[0].handle {
          var j :| 0 <= j < |b| - 1 && b[1..][j] == m;
          assert b[j + 1] == m;
        }
        UniqueCons(a[0], a[1..]);
        assert a == [a[0]] + a[1..];
      } else {
        UniqueSubsequence(a, b[1..]);
      }
    }
  }

  /** Removing an object from a list keeps it free of repeated objects. */
  lemma UniqueWithout(l: seq<Note>, h: Handle)
    requires UniqueRefs(l)
    ensures UniqueRefs(Without(l, h))
  {
    UniqueSubsequence(Without(l, h), l);
  }

  /** In a list free of repeated objects, a member occurs once, and no other value there shares its handle. */
  lemma UniqueOnce(l: seq<Note>, n: Note)
    requires UniqueRefs(l) && n in l
    ensures multiset(l)[n] == 1
    ensures forall m :: m in l && m.handle == n.handle ==> m == n
  {
    var k :| 0 <= k < |l| && l[k] == n;
    assert l == l[..k] + [n] + l[k + 1..];
    forall j | 0 <= j < |l| && l[j].handle == n.handle ensures j == k {
    }
    assert n !in l[..k] by {
      forall j | 0 <= j < k ensures l[..k][j] != n {
        assert l[..k][j] == l[j];
      }
    }
    assert n !in l[k + 1..] by {
      var tail := l[k + 1..];
      forall j | 0 <= j < |tail| ensures tail[j] != n {
        assert tail[j] == l[k + 1 + j];
      }
    }
    assert multiset(l) == multiset(l[..k]) + multiset{n} + multiset(l[k + 1..]);
  }

  /** A property of `{ ...base, ...top }`: `top`'s if it has one, otherwise `base`'s. */
  function Override<T>(base: Option<T>, top: Option<T>): Option<T> {
    if top.Some? then top else base
  }

  /** `{ ...base, ...top }` for two notes' properties: each property `top` has wins, an absent
      one is taken from `base`. */
  function Merge(base: Fields, top: Fields): (m: Fields)
    ensures m.title == top.title && m.createdAt == top.createdAt
    ensures top.id.Some? ==> m.id == top.id
    ensures top.id.None? ==> m.id == base.id
    ensures top.content.Some? ==> m.content == top.content
    ensures top.content.None? ==> m.content == base.content
  {
    Fields(Override(base.id, top.id), top.title, Override(base.content, top.content), top.createdAt)
  }

  /** The laws of the merge: merging a copy into its original changes nothing, merging the same
      draft twice is merging it once, a draft with every property replaces the base outright,
      and an entry matched by its identifier keeps that identifier. */
  lemma MergeLaws(base: Fields, top: Fields)
    ensures Merge(base, base) == base
    ensures Merge(Merge(base, top), top) == Merge(base, top)
    ensures top.id.Some? && top.content.Some? ==> Merge(base, top) == top
    ensures base.id == top.id ==> Merge(base, top).id == base.id
    ensures Merge(base, top).title == top.title
  {
  }

  /** `l.findIndex(n => n.id === id)`: the first position whose note has identifier `id`, or -1. */
  function FindById(l: seq<Note>, id: Option<Id>): (k: int)
    ensures -1 <= k < |l|
    ensures 0 <= k ==> l[k].fields.id == id
    ensures forall j :: 0 <= j < |l| && (k == -1 || j < k) ==> l[j].fields.id != id
    decreases |l|
  {
    if |l| == 0 then -1
    else if l[0].fields.id == id then 0
    else
      var k := FindById(l[1..], id);
      if k == -1 then -1 else k + 1
  }

  /** `[...l.slice(0, k), x, ...l.slice(k + 1)]`: `l` with position `k` holding `x`. */
  function ReplaceAt(l: seq<Note>, k: nat, x: Note): (r: seq<Note>)
    requires k < |l|
    ensures |r| == |l| && r[k] == x
    ensures forall j :: 0 <= j < |l| && j != k ==> r[j] == l[j]
  {
    l[..k] + [x] + l[k + 1..]
  }

  /** The properties of each note of `l`, in order. */
  function FieldsOf(l: seq<Note>): (r: seq<Fields>)
    ensures |r| == |l|
  {
    seq(|l|, i requires 0 <= i < |l| => l[i].fields)
  }

  /** The notes built from `records`, as fresh objects with consecutive handles from `first`. */
  function Stamp(records: seq<Fields>, first: Handle): (r: seq<Note>)
    ensures FieldsOf(r) == records
    ensures forall n :: n in r ==> first <= n.handle < first + |records|
    ensures UniqueRefs(r)
  {
    seq(|records|, i requires 0 <= i < |records| => Note(first + i, records[i]))
  }
}
