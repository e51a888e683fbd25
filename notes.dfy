/** The in-memory note collection store of InstantNotes.
    A `Notes` object holds the ordered list of notes that every screen reads;
    it can append a note, retitle the first note with a given id, drop every
    note with a given id, and guess the id of the next note from the last one. */
module InstantNotes {

  /** Swift's `Int` on the 64-bit platforms the app runs on. */
  const INT64_MIN: int := -0x8000_0000_0000_0000
  const INT64_MAX: int := 0x7FFF_FFFF_FFFF_FFFF
  type Int64 = x: int | INT64_MIN <= x <= INT64_MAX

  /** The id that the editor gives a note that has not been saved yet. */
  const UNSAVED_ID: Int64 := -1

  datatype Option<T> = None | Some(value: T)

  /** Why no next id can be given. */
  datatype IdError = EmptyCollection | IdOverflow

  datatype Result<T> = Ok(value: T) | Err(error: IdError)

  /** One note: an identifier and its text. Identity is by `id` alone. */
  datatype Note = Note(id: Int64, title: string)

  // ---------------------------------------------------------------------------
  // Specification of the collection operations, on values
  // ---------------------------------------------------------------------------

  /** Some element of `s` carries the id `id`. */
  predicate HasId(s: seq<Note>, id: int) {
    exists j :: 0 <= j < |s| && s[j].id == id
  }

  /** `i` is the position of the first element of `s` whose id is `id`. */
  predicate IsFirstMatch(s: seq<Note>, id: int, i: int) {
    0 <= i < |s| && s[i].id == id && forall j :: 0 <= j < i ==> s[j].id != id
  }

  /** There is at most one first match. */
  lemma FirstMatchUnique(s: seq<Note>, id: int, i: int, k: int)
    requires IsFirstMatch(s, id, i) && IsFirstMatch(s, id, k)
    ensures i == k
  {
  }

  /** The position of the first element with the given id, as Swift's
      `index(where:)` returns it: `None` exactly when no element has that id. */
  function FirstIndexOf(s: seq<Note>, id: int): (r: Option<nat>)
    ensures r.Some? ==> IsFirstMatch(s, id, r.value)
    ensures r.None? <==> !HasId(s, id)
  {
    if |s| == 0 then None
    else if s[0].id == id then Some(0)
    else
      match FirstIndexOf(s[1..], id)
      case None =>
        assert forall j :: 1 <= j < |s| ==> s[j].id == s[1..][j - 1].id;
        None
      case Some(k) =>
        assert s[k + 1] == s[1..][k];
        assert forall j :: 1 <= j < k + 1 ==> s[j] == s[1..][j - 1];
        Some(k + 1)
  }

  /** The collection after `updateNote(n)`: the first element whose id is
      `n.id` gets the title `n.title` and keeps its place; every other element,
      later duplicates of that id included, stays as it was; without a match
      nothing changes. */
  function Updated(s: seq<Note>, n: Note): (r: seq<Note>)
    ensures |r| == |s|
    ensures forall j :: 0 <= j < |s| ==> r[j].id == s[j].id
    ensures !HasId(s, n.id) ==> r == s
    ensures forall i :: IsFirstMatch(s, n.id, i) ==>
              r[i] == n && forall j :: 0 <= j < |s| && j != i ==> r[j] == s[j]
  {
    match FirstIndexOf(s, n.id)
    case None => s
    case Some(i) =>
      forall k | IsFirstMatch(s, n.id, k) ensures k == i {
        FirstMatchUnique(s, n.id, i, k);
      }
      s[i := s[i].(title := n.title)]
  }

  /** The collection after `removeNote(n)` with `n.id == id`: the elements
      whose id differs from `id`, in their original order. */
  function Without(s: seq<Note>, id: int): (r: seq<Note>)
    ensures |r| <= |s|
    ensures forall x :: x in r <==> x in s && x.id != id
  {
    if |s| == 0 then []
    else if s[0].id == id then Without(s[1..], id)
    else [s[0]] + Without(s[1..], id)
  }

  /** The id `generateNextNoteId` hands out: one more than the last id. It
      differs from the last element's id, and from nothing else in general. */
  function NextId(s: seq<Note>): (r: Int64)
    requires |s| > 0 && s[|s| - 1].id < INT64_MAX
    ensures r > s[|s| - 1].id
  {
    s[|s| - 1].id + 1
  }

  /** The next id with its two failures made explicit instead of crashing:
      an empty collection has no last note, and a last id of `Int.max` has
      no successor. Otherwise it is the id `NextId` gives. */
  function TryNextId(s: seq<Note>): (r: Result<Int64>)
    ensures r == Err(EmptyCollection) <==> |s| == 0
    ensures r == Err(IdOverflow) <==> |s| > 0 && s[|s| - 1].id == INT64_MAX
    ensures r.Ok? ==> |s| > 0 && s[|s| - 1].id < INT64_MAX && r.value == NextId(s)
  {
    if |s| == 0 then Err(EmptyCollection)
    else if s[|s| - 1].id == INT64_MAX then Err(IdOverflow)
    else Ok(NextId(s))
  }

  // ---------------------------------------------------------------------------
  // Properties of the operations
  // ---------------------------------------------------------------------------

  /** After appending a note its id is present (NotesClassTests.testAddingNotes). */
  lemma AddedIsPresent(s: seq<Note>, n: Note)
    ensures HasId(s + [n], n.id)
    ensures !HasId(s, n.id) ==> FirstIndexOf(s + [n], n.id) == Some(|s|)
  {
    assert (s + [n])[|s|] == n;
    if !HasId(s, n.id) {
      assert IsFirstMatch(s + [n], n.id, |s|) by {
        forall j | 0 <= j < |s| ensures (s + [n])[j].id != n.id {
          assert (s + [n])[j] == s[j];
        }
      }
      FirstMatchUnique(s + [n], n.id, |s|, FirstIndexOf(s + [n], n.id).value);
    }
  }

  /** When the id is present, updating puts the very note passed in into the
      collection (NotesClassTests.testUpdateNote looks for its title). */
  lemma UpdatedContainsNote(s: seq<Note>, n: Note)
    requires HasId(s, n.id)
    ensures n in Updated(s, n)
  {
  }

  /** Updating with the same note twice is the same as updating once. */
  lemma UpdatedIdempotent(s: seq<Note>, n: Note)
    ensures Updated(Updated(s, n), n) == Updated(s, n)
  {
  }

  /** After removing, no element carries the removed id
      (NotesClassTests.testRemoveNote). */
  lemma WithoutHasNoId(s: seq<Note>, id: int)
    ensures !HasId(Without(s, id), id)
  {
  }

  /** Removal distributes over concatenation: together with its effect on a
      single element this fixes the result, order included. */
  lemma {:induction false} WithoutConcat(a: seq<Note>, b: seq<Note>, id: int)
    ensures Without(a + b, id) == Without(a, id) + Without(b, id)
  {
    if |a| == 0 {
      assert a + b == b;
    } else {
      assert (a + b)[0] == a[0];
      assert (a + b)[1..] == a[1..] + b;
      WithoutConcat(a[1..], b, id);
    }
  }

  /** Removal of one element alone keeps it exactly when its id differs. */
  lemma WithoutSingle(x: Note, id: int)
    ensures Without([x], id) == if x.id == id then [] else [x]
  {
  }

  /** Removal keeps every note with another id as often as it occurred, and
      none with the removed id. */
  lemma {:induction false} WithoutMultiplicity(s: seq<Note>, id: int, x: Note)
    ensures multiset(Without(s, id))[x] == if x.id == id then 0 else multiset(s)[x]
  {
    if |s| > 0 {
      WithoutMultiplicity(s[1..], id, x);
      assert s == [s[0]] + s[1..];
      assert multiset(s) == multiset([s[0]]) + multiset(s[1..]);
    }
  }

  /** Removing an id that no element has leaves the collection as it was. */
  lemma {:induction false} WithoutAbsent(s: seq<Note>, id: int)
    requires !HasId(s, id)
    ensures Without(s, id) == s
  {
    if |s| > 0 {
      assert s[0].id != id;
      assert !HasId(s[1..], id) by {
        forall j | 0 <= j < |s| - 1 ensures s[1..][j].id != id {
          assert s[1..][j] == s[j + 1];
        }
      }
      WithoutAbsent(s[1..], id);
      assert s == [s[0]] + s[1..];
    }
  }

  /** Removing twice is removing once. */
  lemma WithoutIdempotent(s: seq<Note>, id: int)
    ensures Without(Without(s, id), id) == Without(s, id)
  {
  }

  // ---------------------------------------------------------------------------
  // Conditions on ids, and which operations keep them
  // ---------------------------------------------------------------------------

  /** No two notes share an id: what callers are meant to keep, since the store
      never checks it. */
  predicate UniqueIds(s: seq<Note>) {
    forall i, j :: 0 <= i < j < |s| ==> s[i].id != s[j].id
  }

  /** Ids grow along the collection: the condition under which the id that
      `generateNextNoteId` guesses from the last note is held by no note. */
  predicate IncreasingIds(s: seq<Note>) {
    forall i, j :: 0 <= i < j < |s| ==> s[i].id < s[j].id
  }

  /** Appending keeps ids unique exactly when the new id is not already there. */
  lemma AppendUnique(s: seq<Note>, n: Note)
    ensures UniqueIds(s + [n]) <==> UniqueIds(s) && !HasId(s, n.id)
  {
    var t := s + [n];
    assert forall j :: 0 <= j < |s| ==> t[j] == s[j];
    assert t[|s|] == n;
    if UniqueIds(t) {
      forall j | 0 <= j < |s| ensures s[j].id != n.id {
        assert t[j].id != t[|s|].id;
      }
    }
  }

  /** Updating changes no id, so it keeps both conventions. */
  lemma UpdatedKeepsConventions(s: seq<Note>, n: Note)
    ensures UniqueIds(s) ==> UniqueIds(Updated(s, n))
    ensures IncreasingIds(s) ==> IncreasingIds(Updated(s, n))
  {
  }

  /** A collection with unique ids splits into a head whose id no later
      note has and a tail with unique ids; and back. */
  lemma UniqueCons(x: Note, t: seq<Note>)
    ensures UniqueIds([x] + t) <==> UniqueIds(t) && forall y | y in t :: y.id != x.id
  {
    var s := [x] + t;
    assert forall k :: 0 <= k < |t| ==> s[k + 1] == t[k];
    if UniqueIds(s) {
      forall y | y in t ensures y.id != x.id {
        var k :| 0 <= k < |t| && t[k] == y;
        assert s[0].id != s[k + 1].id;
      }
    }
  }

  /** A collection with increasing ids splits into a head below every later
      id and a tail with increasing ids; and back. */
  lemma IncreasingCons(x: Note, t: seq<Note>)
    ensures IncreasingIds([x] + t) <==> IncreasingIds(t) && forall y | y in t :: y.id > x.id
  {
    var s := [x] + t;
    assert forall k :: 0 <= k < |t| ==> s[k + 1] == t[k];
    if IncreasingIds(s) {
      forall y | y in t ensures y.id > x.id {
        var k :| 0 <= k < |t| && t[k] == y;
        assert s[0].id < s[k + 1].id;
      }
    }
  }

  /** Removing keeps ids unique. */
  lemma {:induction false} WithoutKeepsUnique(s: seq<Note>, id: int)
    requires UniqueIds(s)
    ensures UniqueIds(Without(s, id))
  {
    if |s| > 0 {
      var tail := s[1..];
      assert s == [s[0]] + tail;
      UniqueCons(s[0], tail);
      WithoutKeepsUnique(tail, id);
      if s[0].id != id {
        UniqueCons(s[0], Without(tail, id));
      }
    }
  }

  /** Removing keeps ids increasing. */
  lemma {:induction false} WithoutKeepsIncreasing(s: seq<Note>, id: int)
    requires IncreasingIds(s)
    ensures IncreasingIds(Without(s, id))
  {
    if |s| > 0 {
      var tail := s[1..];
      assert s == [s[0]] + tail;
      IncreasingCons(s[0], tail);
      WithoutKeepsIncreasing(tail, id);
      if s[0].id != id {
        IncreasingCons(s[0], Without(tail, id));
      }
    }
  }

  /** With unique ids, no note before or after position `i` shares its id. */
  lemma OthersLackId(s: seq<Note>, i: int)
    requires UniqueIds(s) && 0 <= i < |s|
    ensures !HasId(s[..i], s[i].id) && !HasId(s[i + 1..], s[i].id)
  {
  }

  /** Removing the id of a note that occurs once deletes exactly that note. */
  lemma RemoveSoleDeletesOne(s: seq<Note>, i: int)
    requires 0 <= i < |s|
    requires !HasId(s[..i], s[i].id) && !HasId(s[i + 1..], s[i].id)
    ensures Without(s, s[i].id) == s[..i] + s[i + 1..]
  {
    var id := s[i].id;
    var before, after := s[..i], s[i + 1..];
    WithoutAbsent(before, id);
    WithoutAbsent(after, id);
    var rest := [s[i]] + after;
    WithoutConcat([s[i]], after, id);
    WithoutSingle(s[i], id);
    assert Without(rest, id) == after;
    WithoutConcat(before, rest, id);
    assert s == before + rest;
  }

  /** With unique ids, removing the id of any note deletes exactly that note. */
  lemma RemoveUniqueDeletesOne(s: seq<Note>, i: int)
    requires UniqueIds(s) && 0 <= i < |s|
    ensures Without(s, s[i].id) == s[..i] + s[i + 1..]
  {
    OthersLackId(s, i);
    RemoveSoleDeletesOne(s, i);
  }

  /** The next id is fresh when ids grow along the collection, and appending a
      note with it keeps them growing. */
  lemma NextIdFreshWhenIncreasing(s: seq<Note>, title: string)
    requires |s| > 0 && s[|s| - 1].id < INT64_MAX && IncreasingIds(s)
    ensures !HasId(s, NextId(s))
    ensures IncreasingIds(s + [Note(NextId(s), title)])
  {
  }

  /** In general the next id can collide: with ids 2 then 1 it is 2 again. */
  lemma NextIdMayCollide()
    ensures var s := [Note(2, "A"), Note(1, "B")]; NextId(s) == 2 && HasId(s, NextId(s))
  {
    var s := [Note(2, "A"), Note(1, "B")];
    assert s[0].id == 2;
  }

  /** Whenever the total next id gives an id, it is above the last id, and
      under increasing ids no note holds it; on an empty collection it
      reports the empty collection rather than an id. */
  lemma TryNextIdSound(s: seq<Note>)
    ensures |s| == 0 ==> TryNextId(s) == Err(EmptyCollection)
    ensures TryNextId(s).Ok? ==> TryNextId(s).value > s[|s| - 1].id
    ensures TryNextId(s).Ok? && IncreasingIds(s) ==> !HasId(s, TryNextId(s).value)
  {
    if TryNextId(s).Ok? && IncreasingIds(s) {
      NextIdFreshWhenIncreasing(s, "");
    }
  }

  // ---------------------------------------------------------------------------
  // The store
  // ---------------------------------------------------------------------------

  /** Linear search for the first element with the given id: the run of
      Swift's `index(where: {$0.id == id})`. */
  method IndexOfId(s: seq<Note>, id: int) returns (row: Option<nat>)
    ensures row.Some? ==> IsFirstMatch(s, id, row.value)
    ensures row.None? <==> !HasId(s, id)
    ensures row == FirstIndexOf(s, id)
  {
    var i := 0;
    while i < |s|
      invariant 0 <= i <= |s|
      invariant forall j :: 0 <= j < i ==> s[j].id != id
    {
      if s[i].id == id {
        row := Some(i);
        FirstMatchUnique(s, id, i, FirstIndexOf(s, id).value);
        return;
      }
      i := i + 1;
    }
    row := None;
  }

  /** The process-wide note collection (the app's `Notes.sharedInstance`). */
  class Notes {
    var collection: seq<Note>

    constructor ()
      ensures collection == []
    {
      collection := [];
    }

    /** Appends the note, with no check that its id is new. */
    method AddNote(note: Note)
      modifies this
      ensures collection == old(collection) + [note]
      ensures HasId(collection, note.id)
    {
      collection := collection + [note];
      AddedIsPresent(old(collection), note);
    }

    /** Retitles the first note with the id of `note`; does nothing when no
        note has that id. */
    method UpdateNote(note: Note)
      modifies this
      ensures collection == Updated(old(collection), note)
      ensures HasId(old(collection), note.id) ==> note in collection
      ensures !HasId(old(collection), note.id) ==> collection == old(collection)
    {
      var row := IndexOfId(collection, note.id);
      if row.Some? {
        collection := collection[row.value := collection[row.value].(title := note.title)];
      }
      if HasId(old(collection), note.id) {
        UpdatedContainsNote(old(collection), note);
      }
    }

    /** Drops every note with the id of `note`. */
    method RemoveNote(note: Note)
      modifies this
      ensures collection == Without(old(collection), note.id)
      ensures !HasId(collection, note.id)
    {
      collection := Without(collection, note.id);
      WithoutHasNoId(old(collection), note.id);
    }

    /** The last note's id plus one. Swift unwraps `last` by force and checks
        `+ 1` for overflow, so an empty collection or a last id of `Int.max`
        stops the app; both are required here. The collection is not changed. */
    method GenerateNextNoteId() returns (id: Int64)
      requires |collection| > 0 && collection[|collection| - 1].id < INT64_MAX
      ensures id == NextId(collection)
      ensures id != collection[|collection| - 1].id
    {
      id := collection[|collection| - 1].id + 1;
    }

    /** `generateNextNoteId` without the crash: an empty collection or a
        last id of `Int.max` give an error. The collection is not changed. */
    method TryGenerateNextNoteId() returns (r: Result<Int64>)
      ensures r.Err? <==> |collection| == 0 || collection[|collection| - 1].id == INT64_MAX
      ensures r.Err? ==> r.error == (if |collection| == 0 then EmptyCollection else IdOverflow)
      ensures r.Ok? ==> r.value == collection[|collection| - 1].id + 1
      ensures r == TryNextId(collection)
    {
      if |collection| == 0 {
        r := Err(EmptyCollection);
      } else if collection[|collection| - 1].id == INT64_MAX {
        r := Err(IdOverflow);
      } else {
        var id := GenerateNextNoteId();
        r := Ok(id);
      }
    }
  }

  /** Saving a new note from the editor once the server call succeeded: a
      note still carrying the unsaved id receives the next id and is
      appended. When no next id can be given the store is left as it was
      and the error is returned. */
  method CreateNote(store: Notes, draft: Note) returns (r: Result<Note>)
    requires draft.id == UNSAVED_ID
    modifies store
    ensures r.Err? ==> TryNextId(old(store.collection)) == Err(r.error)
    ensures r.Err? ==> store.collection == old(store.collection)
    ensures r.Ok? ==> TryNextId(old(store.collection)).Ok?
    ensures r.Ok? ==> r.value == Note(TryNextId(old(store.collection)).value, draft.title)
    ensures r.Ok? ==> store.collection == old(store.collection) + [r.value]
    ensures IncreasingIds(old(store.collection)) ==> IncreasingIds(store.collection)
  {
    var newId := store.TryGenerateNextNoteId();
    match newId
    case Err(e) =>
      r := Err(e);
    case Ok(id) =>
      var saved := draft.(id := id);
      if IncreasingIds(store.collection) {
        NextIdFreshWhenIncreasing(store.collection, draft.title);
      }
      store.AddNote(saved);
      r := Ok(saved);
  }

  // ---------------------------------------------------------------------------
  // Worked examples
  // ---------------------------------------------------------------------------

  /** A new store, add A(1), add B(2), retitle 1: the first note is edited
      in place and the second is untouched. */
  method ScenarioAddAddUpdate() returns (store: Notes)
    ensures store.collection == [Note(1, "A-edited"), Note(2, "B")]
  {
    store := new Notes();
    store.AddNote(Note(1, "A"));
    store.AddNote(Note(2, "B"));
    assert store.collection == [Note(1, "A"), Note(2, "B")];
    assert IsFirstMatch(store.collection, 1, 0);
    store.UpdateNote(Note(1, "A-edited"));
  }

  /** A store holding [A(1), B(2)]: removing A(1) leaves [B(2)]. */
  method ScenarioRemove() returns (store: Notes)
    ensures store.collection == [Note(2, "B")]
  {
    store := new Notes();
    store.AddNote(Note(1, "A"));
    store.AddNote(Note(2, "B"));
    assert store.collection == [Note(1, "A"), Note(2, "B")];
    store.RemoveNote(Note(1, "A"));
  }

  /** The store's own operations empty it again: add a note, then delete it,
      as the list screen does with the last remaining note. From here the
      precondition of `GenerateNextNoteId` fails, which is where the Swift
      code crashes when the next new note is saved; the total version
      reports the empty collection. */
  method ScenarioRemoveLastNote() returns (store: Notes)
    ensures store.collection == []
    ensures TryNextId(store.collection) == Err(EmptyCollection)
  {
    store := new Notes();
    store.AddNote(Note(1, "A"));
    assert store.collection == [Note(1, "A")];
    store.RemoveNote(Note(1, "A"));
  }

  /** The next id follows the last note, not the largest id. */
  lemma ExampleNextId()
    ensures NextId([Note(1, "A")]) == 2
    ensures NextId([Note(1, "A"), Note(5, "B")]) == 6
    ensures NextId([Note(5, "A"), Note(1, "B")]) == 2
  {
  }
}
