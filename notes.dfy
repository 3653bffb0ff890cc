/** The note records and the pure list transformations the components run
    over the stored collection: dropping the notes with an id for delete,
    rewriting the notes with an id for edit, and looking up the first note
    with an id for the edit form's prefill. */
module Notes {
  import opened Wrappers

  datatype Note = Note(id: string, title: string, content: string)

  /** The ids occurring in a collection. */
  function Ids(notes: seq<Note>): set<string> {
    set k | 0 <= k < |notes| :: notes[k].id
  }

  /** No two notes share an id: what a collision-free id generator gives. */
  predicate UniqueIds(notes: seq<Note>) {
    forall i, j :: 0 <= i < j < |notes| ==> notes[i].id != notes[j].id
  }

  /** Every note has a non-empty id. */
  predicate IdsNonEmpty(notes: seq<Note>) {
    forall k :: 0 <= k < |notes| ==> notes[k].id != []
  }

  /** The invariant of a stored collection built only by the three flows. */
  predicate WellFormed(notes: seq<Note>) {
    UniqueIds(notes) && IdsNonEmpty(notes)
  }

  /** How many notes carry the given id. */
  function CountId(notes: seq<Note>, id: string): (n: nat)
    ensures n <= |notes|
    ensures n == 0 <==> id !in Ids(notes)
  {
    if notes == [] then 0
    else
      assert Ids(notes) == {notes[0].id} + Ids(notes[1..]) by { IdsCons(notes); }
      (if notes[0].id == id then 1 else 0) + CountId(notes[1..], id)
  }

  // ---------------------------------------------------------------------
  // Delete: keep the notes whose id differs
  // ---------------------------------------------------------------------

  /** The collection without the notes whose id is `id`, the others kept in
      their order. */
  function DeleteById(notes: seq<Note>, id: string): (r: seq<Note>)
    ensures |r| <= |notes|
    ensures forall n :: n in r <==> n in notes && n.id != id
    ensures Ids(r) == Ids(notes) - {id}
    ensures r == notes <==> id !in Ids(notes)
  {
    if notes == [] then []
    else
      var rest := DeleteById(notes[1..], id);
      IdsCons(notes);
      if notes[0].id == id then
        assert notes[0] in notes && notes[0] !in rest;
        rest
      else
        var r := [notes[0]] + rest;
        IdsCons(r);
        assert r == notes <==> rest == notes[1..];
        r
  }

  /** Deleting distributes over concatenation: the notes that survive keep
      their relative order. */
  lemma {:induction false} DeleteConcat(a: seq<Note>, b: seq<Note>, id: string)
    ensures DeleteById(a + b, id) == DeleteById(a, id) + DeleteById(b, id)
  {
    if a == [] {
      assert a + b == b;
    } else {
      assert (a + b)[1..] == a[1..] + b;
      DeleteConcat(a[1..], b, id);
    }
  }

  /** Delete shortens the collection by exactly the number of notes that
      carry the id. */
  lemma {:induction false} DeleteCount(notes: seq<Note>, id: string)
    ensures |DeleteById(notes, id)| == |notes| - CountId(notes, id)
  {
    if notes != [] {
      DeleteCount(notes[1..], id);
    }
  }

  /** With unique ids, deleting the id of the note at `k` removes exactly that
      note and leaves every other note where it was relative to the rest. */
  lemma DeleteUnique(notes: seq<Note>, k: nat)
    requires UniqueIds(notes)
    requires k < |notes|
    ensures DeleteById(notes, notes[k].id) == notes[..k] + notes[k + 1..]
  {
    SplitAt(notes, k);
    UniqueOutside(notes, k, 0, k);
    UniqueOutside(notes, k, k + 1, |notes|);
    DeleteBetween(notes[..k], notes[k], notes[k + 1..]);
  }

  /** Deleting the id of a note that is the only one carrying it. */
  lemma DeleteBetween(a: seq<Note>, n: Note, b: seq<Note>)
    requires n.id !in Ids(a) && n.id !in Ids(b)
    ensures DeleteById(a + ([n] + b), n.id) == a + b
  {
    DeleteConcat(a, [n] + b, n.id);
    DeleteConcat([n], b, n.id);
    assert DeleteById([n], n.id) == [];
    assert [] + b == b;
  }

  /** With unique ids, the id of the note at `k` occurs in no slice that
      leaves out position `k`. */
  lemma UniqueOutside(notes: seq<Note>, k: nat, lo: nat, hi: nat)
    requires UniqueIds(notes)
    requires k < |notes| && lo <= hi <= |notes| && !(lo <= k < hi)
    ensures notes[k].id !in Ids(notes[lo..hi])
  {
  }

  /** Delete keeps the stored-collection invariant. */
  lemma {:induction false} DeleteWellFormed(notes: seq<Note>, id: string)
    requires WellFormed(notes)
    ensures WellFormed(DeleteById(notes, id))
  {
    if notes != [] {
      UniqueCons(notes);
      DeleteWellFormed(notes[1..], id);
      var rest := DeleteById(notes[1..], id);
      if notes[0].id != id {
        UniqueCons([notes[0]] + rest);
      }
    }
  }

  // ---------------------------------------------------------------------
  // Edit: give the notes with the id a new title and content
  // ---------------------------------------------------------------------

  /** Every note with id `id` gets the new title and content; every other
      note, the length, the order and all ids stay as they were. */
  function EditById(notes: seq<Note>, id: string, title: string, content: string): (r: seq<Note>)
    ensures |r| == |notes|
    ensures forall k :: 0 <= k < |notes| ==> r[k].id == notes[k].id
    ensures forall k :: 0 <= k < |notes| && notes[k].id == id ==>
              r[k].title == title && r[k].content == content
    ensures forall k :: 0 <= k < |notes| && notes[k].id != id ==> r[k] == notes[k]
  {
    if notes == [] then []
    else
      var n := notes[0];
      var rest := EditById(notes[1..], id, title, content);
      var r := [if n.id == id then n.(title := title, content := content) else n] + rest;
      assert forall k :: 1 <= k < |notes| ==> r[k] == rest[k - 1] && notes[k] == notes[1..][k - 1];
      r
  }

  /** Edit changes no id. */
  lemma EditIds(notes: seq<Note>, id: string, title: string, content: string)
    ensures Ids(EditById(notes, id, title, content)) == Ids(notes)
  {
    var r := EditById(notes, id, title, content);
    forall x | x in Ids(notes) ensures x in Ids(r) {
      var k :| 0 <= k < |notes| && notes[k].id == x;
      assert r[k].id == x;
    }
  }

  /** Editing an id that no note carries leaves the collection as it was. */
  lemma EditAbsent(notes: seq<Note>, id: string, title: string, content: string)
    requires id !in Ids(notes)
    ensures EditById(notes, id, title, content) == notes
  {
    var r := EditById(notes, id, title, content);
    forall k | 0 <= k < |notes| ensures r[k] == notes[k] {
      assert notes[k].id in Ids(notes);
    }
  }

  /** Submitting the same edit twice stores the same collection as once. */
  lemma EditIdempotent(notes: seq<Note>, id: string, title: string, content: string)
    ensures EditById(EditById(notes, id, title, content), id, title, content)
         == EditById(notes, id, title, content)
  {
    var r := EditById(notes, id, title, content);
    var r2 := EditById(r, id, title, content);
    forall k | 0 <= k < |notes| ensures r2[k] == r[k] {
      if notes[k].id == id {
        assert r[k] == Note(id, title, content);
      }
    }
  }

  /** Edit keeps the stored-collection invariant. */
  lemma EditWellFormed(notes: seq<Note>, id: string, title: string, content: string)
    requires WellFormed(notes)
    ensures WellFormed(EditById(notes, id, title, content))
  {
  }

  // ---------------------------------------------------------------------
  // Prefill lookup: the first note with the id
  // ---------------------------------------------------------------------

  /** The first note with id `id`, if there is one. */
  function FindById(notes: seq<Note>, id: string): (r: Option<Note>)
    ensures r.None? <==> id !in Ids(notes)
    ensures r.Some? ==> r.value in notes && r.value.id == id
  {
    if notes == [] then None
    else
      IdsCons(notes);
      if notes[0].id == id then Some(notes[0]) else FindById(notes[1..], id)
  }

  /** The note found is the first one carrying the id: every earlier note has
      another id. */
  lemma {:induction false} FindFirst(notes: seq<Note>, id: string, k: nat)
    requires k < |notes| && notes[k].id == id
    requires forall j :: 0 <= j < k ==> notes[j].id != id
    ensures FindById(notes, id) == Some(notes[k])
  {
    if k > 0 {
      FindFirst(notes[1..], id, k - 1);
    }
  }

  /** With unique ids, looking up the id of any note finds that note. */
  lemma FindUnique(notes: seq<Note>, k: nat)
    requires UniqueIds(notes) && k < |notes|
    ensures FindById(notes, notes[k].id) == Some(notes[k])
  {
    FindFirst(notes, notes[k].id, k);
  }

  /** After an edit of a present id, the lookup finds the note with the new
      title and content under the same id. */
  lemma FindAfterEdit(notes: seq<Note>, id: string, title: string, content: string)
    requires id in Ids(notes)
    ensures FindById(EditById(notes, id, title, content), id) == Some(Note(id, title, content))
  {
    var r := EditById(notes, id, title, content);
    var k :| 0 <= k < |notes| && notes[k].id == id && forall j :: 0 <= j < k ==> notes[j].id != id by {
      FirstIndexExists(notes, id);
    }
    FindFirst(r, id, k);
  }

  // ---------------------------------------------------------------------
  // Add: append one note at the end
  // ---------------------------------------------------------------------

  /** Appending a note whose id is fresh keeps the invariant, adds exactly
      that id, and the new note is the one found under it. */
  lemma AppendFresh(notes: seq<Note>, n: Note)
    requires WellFormed(notes)
    requires n.id != [] && n.id !in Ids(notes)
    ensures WellFormed(notes + [n])
    ensures Ids(notes + [n]) == Ids(notes) + {n.id}
    ensures FindById(notes + [n], n.id) == Some(n)
  {
    var r := notes + [n];
    forall i, j | 0 <= i < j < |r| ensures r[i].id != r[j].id {
      if j == |notes| {
        assert r[i].id == notes[i].id && notes[i].id in Ids(notes);
      }
    }
    assert Ids(r) == Ids(notes) + {n.id} by {
      forall x | x in Ids(r) ensures x in Ids(notes) + {n.id} {
        var k :| 0 <= k < |r| && r[k].id == x;
        if k < |notes| { assert notes[k].id == x; }
      }
      forall x | x in Ids(notes) ensures x in Ids(r) {
        var k :| 0 <= k < |notes| && notes[k].id == x;
        assert r[k].id == x;
      }
      assert r[|notes|].id == n.id;
    }
    FindUnique(r, |notes|);
  }

  // ---------------------------------------------------------------------
  // Helpers
  // ---------------------------------------------------------------------

  lemma SplitAt(notes: seq<Note>, k: nat)
    requires k < |notes|
    ensures notes == notes[..k] + ([notes[k]] + notes[k + 1..])
  {
    assert notes[k..] == [notes[k]] + notes[k + 1..];
    assert notes == notes[..k] + notes[k..];
  }

  lemma IdsCons(notes: seq<Note>)
    requires notes != []
    ensures Ids(notes) == {notes[0].id} + Ids(notes[1..])
  {
    forall x | x in Ids(notes) ensures x in {notes[0].id} + Ids(notes[1..]) {
      var k :| 0 <= k < |notes| && notes[k].id == x;
      if k > 0 { assert notes[1..][k - 1].id == x; }
    }
    forall x | x in Ids(notes[1..]) ensures x in Ids(notes) {
      var k :| 0 <= k < |notes[1..]| && notes[1..][k].id == x;
      assert notes[k + 1].id == x;
    }
  }

  lemma UniqueCons(notes: seq<Note>)
    requires notes != []
    ensures UniqueIds(notes) <==> notes[0].id !in Ids(notes[1..]) && UniqueIds(notes[1..])
  {
    IdsCons(notes);
    if UniqueIds(notes) {
      UniqueOutside(notes, 0, 1, |notes|);
    }
    if notes[0].id !in Ids(notes[1..]) && UniqueIds(notes[1..]) {
      forall i, j | 0 <= i < j < |notes| ensures notes[i].id != notes[j].id {
        if i == 0 {
          assert notes[j].id == notes[1..][j - 1].id;
        } else {
          assert notes[i].id == notes[1..][i - 1].id && notes[j].id == notes[1..][j - 1].id;
        }
      }
    }
  }

  lemma {:induction false} FirstIndexExists(notes: seq<Note>, id: string)
    requires id in Ids(notes)
    ensures exists k :: 0 <= k < |notes| && notes[k].id == id && forall j :: 0 <= j < k ==> notes[j].id != id
  {
    IdsCons(notes);
    if notes[0].id != id {
      FirstIndexExists(notes[1..], id);
      var k :| 0 <= k < |notes[1..]| && notes[1..][k].id == id
               && forall j :: 0 <= j < k ==> notes[1..][j].id != id;
      assert notes[k + 1].id == id;
      assert forall j :: 1 <= j < k + 1 ==> notes[j] == notes[1..][j - 1];
    }
  }
}
