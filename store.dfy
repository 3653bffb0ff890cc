/** The single persistent `'notes'` slot. The slot holds the collection
    itself; the JSON text it is kept as in the browser is not modelled. */
module Store {
  import opened Wrappers
  import opened Notes

  /** What every reader of the slot gets: an absent slot reads as the empty
      collection, a present one as the collection written last. */
  function LoadSlot(slot: Option<seq<Note>>): (notes: seq<Note>)
    ensures slot.None? ==> notes == []
    ensures slot.Some? ==> notes == slot.value
  {
    if slot.Some? then slot.value else []
  }

  /** Writing back what was just read changes what is read by nobody, and a
      second write-back leaves the slot exactly as the first one did. This
      holds by construction here, since the slot holds the collection itself
      rather than its serialised text. */
  lemma ResaveIdempotent(slot: Option<seq<Note>>)
    ensures LoadSlot(Some(LoadSlot(slot))) == LoadSlot(slot)
    ensures Some(LoadSlot(Some(LoadSlot(slot)))) == Some(LoadSlot(slot))
    ensures slot.None? ==> LoadSlot(slot) == []
  {
  }

  /** The storage slot, owned by whichever component is mounted. */
  class NoteStore {
    var slot: Option<seq<Note>>

    constructor (initial: Option<seq<Note>>)
      ensures slot == initial
    {
      slot := initial;
    }

    /** The collection every flow reads at its start: empty while the slot
        is absent. */
    function Load(): (notes: seq<Note>)
      reads this
      ensures slot.None? ==> notes == []
      ensures slot.Some? ==> notes == slot.value
    {
      LoadSlot(slot)
    }

    /** A whole-collection overwrite of the slot. */
    method SaveAll(notes: seq<Note>)
      modifies this
      ensures slot == Some(notes)
      ensures Load() == notes
    {
      slot := Some(notes);
    }
  }
}
