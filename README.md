# InstantNotes note collection store, in Dafny

InstantNotes is a small iOS note-taking app. Every screen reads its notes from
one process-wide object, `Notes.sharedInstance`. Its field `collection` is an
ordered list of notes, and each note is an integer `id` plus a `title`. The
store has four operations:

- `addNote` appends a note;
- `updateNote` retitles the first note with a matching id;
- `removeNote` filters out every note with a matching id;
- `generateNextNoteId` guesses a new id as the last note's id plus one.

`notes.dfy` holds one module, `InstantNotes`, with these parts:

- the `Note` datatype, with ids of Swift's 64-bit `Int`;
- a specification of each operation on sequence values: `FirstIndexOf`,
  `Updated`, `Without` and `NextId`;
- the class `Notes`, whose `collection: seq<Note>` field is changed by
  `modifies this` methods proved against that specification. The
  singleton `sharedInstance` is this one object;
- lemmas about the specification. They cover the test-suite's expectations,
  removal order and multiplicity, idempotence, and no-ops on absent ids.
  They also cover two conditions on ids. Unique ids is what callers are
  meant to keep, though the store never checks it. Increasing ids is the
  condition under which the last-id guess is fresh; no caller keeps it, since
  the list fetched from the server is stored in the server's order;
- a total version of next-id generation, `TryNextId`, which reports an
  empty collection or an overflowing id as an error. The save-a-new-note
  flow `CreateNote` uses it (see "## Findings");
- scenario methods that drive one `Notes` object through its operations,
  as the unit tests do.

## Model

| member | source | states |
|---|---|---|
| InstantNotes.Notes.constructor | InstantNotes/Class/Notes.swift:18 | the store starts with an empty collection |
| InstantNotes.Notes.AddNote | InstantNotes/Class/Notes.swift:20-22 | the new collection is the old one with the note appended at the end (no uniqueness check), and the note's id is then present |
| InstantNotes.AddedIsPresent | InstantNotesTests/NotesClassTests.swift:15-21 | after appending, the note's id is present; if it was absent before, the first match is the new last position |
| InstantNotes.AppendUnique | InstantNotes/Class/Notes.swift:20-22 | appending keeps ids unique if and only if they were unique and the new id was absent |
| InstantNotes.FirstIndexOf | InstantNotes/Class/Notes.swift:25 | `index(where:)` gives a position holding the id with no earlier one holding it, and gives none exactly when no element has the id |
| InstantNotes.IndexOfId | InstantNotes/Class/Notes.swift:25 | the linear search returns the first position with the id, or none exactly when the id is absent |
| InstantNotes.Updated | InstantNotes/Class/Notes.swift:24-28 | length and every id are unchanged; the first element with the id becomes the passed note and every other element (later duplicates included) is unchanged; with no match the collection is unchanged |
| InstantNotes.Notes.UpdateNote | InstantNotes/Class/Notes.swift:24-28 | the new collection is the specified update of the old one; when the id was present the passed note is in it; otherwise nothing changes |
| InstantNotes.UpdatedContainsNote | InstantNotesTests/NotesClassTests.swift:23-32 | when the id is present, the updated collection contains the note with its new title |
| InstantNotes.UpdatedIdempotent | InstantNotes/Class/Notes.swift:24-28 | updating twice with the same note equals updating once |
| InstantNotes.UpdatedKeepsConventions | InstantNotes/Class/Notes.swift:26 | only a title changes, so unique ids stay unique and increasing ids stay increasing |
| InstantNotes.Without | InstantNotes/Class/Notes.swift:31 | a note is in the result exactly when it was in the collection with a different id; the result is no longer |
| InstantNotes.Notes.RemoveNote | InstantNotes/Class/Notes.swift:30-32 | the new collection is the specified filter of the old one, and no element has the removed id; the postcondition depends on `note.id` alone, so the passed note's title plays no role |
| InstantNotes.WithoutHasNoId | InstantNotesTests/NotesClassTests.swift:34-42 | after removal no element carries the removed id |
| InstantNotes.WithoutConcat | InstantNotes/Class/Notes.swift:31 | removal distributes over concatenation, so relative order is kept |
| InstantNotes.WithoutSingle | InstantNotes/Class/Notes.swift:31 | on one element, removal keeps it exactly when its id differs |
| InstantNotes.WithoutMultiplicity | InstantNotes/Class/Notes.swift:31 | every note with another id keeps its number of occurrences, and notes with the removed id occur zero times |
| InstantNotes.WithoutAbsent | InstantNotes/Class/Notes.swift:31 | removing an absent id leaves the collection exactly as it was |
| InstantNotes.WithoutIdempotent | InstantNotes/Class/Notes.swift:31 | removing twice equals removing once |
| InstantNotes.WithoutKeepsUnique | InstantNotes/Class/Notes.swift:31 | removal keeps ids unique |
| InstantNotes.WithoutKeepsIncreasing | InstantNotes/Class/Notes.swift:31 | removal keeps ids increasing |
| InstantNotes.RemoveSoleDeletesOne | InstantNotes/Class/Notes.swift:31 | when no other element shares a note's id, removing that id deletes exactly that one note at its position |
| InstantNotes.RemoveUniqueDeletesOne | InstantNotes/Class/Notes.swift:31 | with unique ids, removing any note's id deletes exactly that note |
| InstantNotes.NextId | InstantNotes/Class/Notes.swift:37-39 | defined only on a non-empty collection whose last id can be incremented; the result exceeds the last id |
| InstantNotes.Notes.GenerateNextNoteId | InstantNotes/Class/Notes.swift:37-39 | requires a non-empty collection and no overflow; returns the last id plus one, which differs from the last id; the collection is not changed |
| InstantNotes.NextIdFreshWhenIncreasing | InstantNotes/Class/Notes.swift:34-39 | when ids increase along the collection, the next id is held by no element, and appending a note with it keeps ids increasing |
| InstantNotes.NextIdMayCollide | InstantNotes/Class/Notes.swift:34-39 | in general the next id can collide: for ids 2 then 1 it is 2, which is already present |
| InstantNotes.ExampleNextId | InstantNotesTests/NotesClassTests.swift:44-49 | the next id follows the last note, not the largest one: [1] gives 2, [1, 5] gives 6, [5, 1] gives 2 |
| InstantNotes.TryNextId | InstantNotes/Class/Notes.swift:37-39 | an error exactly when the collection is empty (empty-collection error) or the last id is `Int.max` (overflow error); otherwise the id `NextId` gives |
| InstantNotes.TryNextIdSound | InstantNotes/Class/Notes.swift:34-39 | on an empty collection the result is the empty-collection error; any id given is above the last id, and under increasing ids no note holds it |
| InstantNotes.Notes.TryGenerateNextNoteId | InstantNotes/Class/Notes.swift:37-39 | an error exactly when the collection is empty or the last id is `Int.max`, saying which; otherwise the last id plus one; the collection is not changed |
| InstantNotes.CreateNote | InstantNotes/NoteEditorController.swift:151-180 | a draft with the unsaved id -1 gets the next id and is appended; when no next id exists the error is returned and the store is unchanged; increasing ids stay increasing |
| InstantNotes.ScenarioAddAddUpdate | InstantNotesTests/NotesClassTests.swift:23-32 | a new store, adding A(1) and B(2), then retitling 1, holds [A-edited(1), B(2)] |
| InstantNotes.ScenarioRemove | InstantNotesTests/NotesClassTests.swift:34-42 | a store holding [A(1), B(2)] holds [B(2)] after removing A(1) |
| InstantNotes.ScenarioRemoveLastNote | InstantNotes/HomeViewController.swift:240-247 | adding a note to a new store and removing it leaves the empty collection, where next-id generation has no value |

## Left out

- The declaration of the `Note` struct is not modelled; `Note` is taken from its uses: a 64-bit integer `id` and a mutable `title`.
- The singleton mechanism (`static let sharedInstance`) is not modelled. There is one `Notes` object, and the methods' reads of `Notes.sharedInstance.collection` are reads of its own field.
- The callers' wholesale replacement of the collection after a fetch (`Notes.sharedInstance.collection = data`, HomeViewController.swift:40) is a plain field assignment by a caller, not a store operation.
- Main-thread dispatch, the network calls of `APIManager`, connectivity checks, and all UIKit screens are not modelled. They are I/O and UI around the store. `CreateNote` keeps only the store steps of saving a new note, as if the server call succeeded.
- InstantNotes.Notes.GenerateNextNoteId: the two ways the Swift code traps are preconditions, not modelled crashes. An empty collection traps in the forced unwrap of `last`. A last id of `Int.max` traps in the overflow-checked `+ 1`. The app's callers do not meet the first precondition: the list screen stores whatever list the server returns, which can be empty (HomeViewController.swift:40), and it deletes the last remaining note (HomeViewController.swift:247); saving a new note afterwards reaches the forced unwrap. See "## Findings".
- InstantNotes.CreateNote: follows the corrected, total next-id generation. Where the Swift code crashes, it returns the error and leaves the store unchanged.
- Swift `String` is modelled as `seq<char>`. Unicode grapheme semantics play no part in the store.

## Findings

| source | as written | input that shows it | evidently intended | confidence | as-written member | corrected member |
|---|---|---|---|---|---|---|
| InstantNotes/Class/Notes.swift:37-39 | `generateNextNoteId` force-unwraps `collection.last`, so it crashes on an empty collection. Saving a new note calls it (NoteEditorController.swift:124-125, APIManager.swift:80), and the app reaches an empty collection by fetching an empty list (HomeViewController.swift:40) or by deleting the last note (HomeViewController.swift:247) | a new store; add Note(1, "A"); remove Note(1, "A"); then save a new note | a defined "collection empty" result instead of a crash | not executed | InstantNotes.ScenarioRemoveLastNote | InstantNotes.Notes.TryGenerateNextNoteId |
