/** The three components that read and write the store: the dashboard with
    its delete button, the add form and the edit form. Route switching
    mounts one of them at a time; each is modelled as an object that holds
    the shared store and its own React state as fields. */
module Components {
  import opened Wrappers
  import opened Notes
  import opened Validation
  import opened Store

  /** The list view. Its `notes` state is loaded once at mount; the effect on
      `[notes]` writes it back whenever it is set. */
  class Dashboard {
    const store: NoteStore
    var notes: seq<Note>

    /** The slot holds exactly what the dashboard shows. */
    predicate Synced()
      reads this, store
    {
      store.slot == Some(notes)
    }

    /** Mounting: the lazy state initialiser loads the slot, and the effect
        runs once on mount and writes the loaded collection back. */
    constructor (store: NoteStore)
      modifies store
      ensures this.store == store
      ensures notes == old(store.Load())
      ensures store.Load() == old(store.Load())
      ensures Synced()
    {
      this.store := store;
      var loaded := store.Load();
      notes := loaded;
      store.SaveAll(loaded);
    }

    /** `handleDelete`: filter the shown collection, then the effect persists
        the result. */
    method HandleDelete(id: string)
      modifies this, store
      ensures notes == DeleteById(old(notes), id)
      ensures Synced()
      ensures id !in Ids(old(notes)) ==> notes == old(notes)
      ensures WellFormed(old(notes)) ==> WellFormed(notes)
    {
      var updated := DeleteById(notes, id);
      notes := updated;
      if WellFormed(old(notes)) {
        DeleteWellFormed(old(notes), id);
      }
      store.SaveAll(updated);
    }
  }

  /** The add form: two input fields and the two messages. */
  class AddForm {
    const store: NoteStore
    var title: string
    var content: string
    var error: string
    var success: string

    function Shown(): Messages
      reads this
    {
      Messages(error, success)
    }

    constructor (store: NoteStore)
      ensures this.store == store
      ensures title == [] && content == [] && error == [] && success == []
    {
      this.store := store;
      title, content, error, success := [], [], [], [];
    }

    /** The title input's `onChange`. */
    method SetTitle(t: string)
      modifies this`title
      ensures title == t
    {
      title := t;
    }

    /** The content textarea's `onChange`. */
    method SetContent(c: string)
      modifies this`content
      ensures content == c
    {
      content := c;
    }

    /** `handleSubmit`. A rejected submission touches neither the slot nor
        the fields and shows the required message. An accepted one appends
        one note, with the fresh id and the title and content as typed, to
        the collection read from the slot, clears the fields and shows the
        added message. */
    method Submit(freshId: string)
      requires freshId != [] && freshId !in Ids(store.Load())
      modifies this, store
      ensures Shown() == AfterSubmit(ValidInput(old(title), old(content)), AddedMessage)
      ensures Shown().Exclusive()
      ensures !ValidInput(old(title), old(content)) ==>
                store.slot == old(store.slot) && title == old(title) && content == old(content)
      ensures ValidInput(old(title), old(content)) ==>
                && store.slot == Some(old(store.Load()) + [Note(freshId, old(title), old(content))])
                && title == [] && content == []
      ensures WellFormed(old(store.Load())) ==> WellFormed(store.Load())
    {
      var m := AfterSubmit(ValidInput(title, content), AddedMessage);
      if !ValidInput(title, content) {
        error, success := m.error, m.success;
        return;
      }
      var newNote := Note(freshId, title, content);
      var stored := store.Load();
      if WellFormed(stored) {
        AppendFresh(stored, newNote);
      }
      stored := stored + [newNote];
      store.SaveAll(stored);
      title, content := [], [];
      error, success := m.error, m.success;
    }
  }

  /** The edit form for the note whose id is the route parameter. */
  class EditForm {
    const store: NoteStore
    const id: string
    var title: string
    var content: string
    var error: string
    var success: string

    function Shown(): Messages
      reads this
    {
      Messages(error, success)
    }

    constructor (store: NoteStore, id: string)
      ensures this.store == store && this.id == id
      ensures title == [] && content == [] && error == [] && success == []
    {
      this.store, this.id := store, id;
      title, content, error, success := [], [], [], [];
    }

    /** The mount effect: copy title and content of the first note with the
        id into the fields; when none has it, the fields keep their values. */
    method Prefill()
      modifies this`title, this`content
      ensures match FindById(store.Load(), id)
              case Some(n) => title == n.title && content == n.content
              case None => title == old(title) && content == old(content)
    {
      var found := FindById(store.Load(), id);
      if found.Some? {
        title, content := found.value.title, found.value.content;
      }
    }

    method SetTitle(t: string)
      modifies this`title
      ensures title == t
    {
      title := t;
    }

    method SetContent(c: string)
      modifies this`content
      ensures content == c
    {
      content := c;
    }

    /** `handleSubmit`. A rejected submission leaves the slot alone and shows
        the required message. An accepted one re-reads the slot, gives every
        note with the id the current title and content, writes the result
        back and shows the updated message. The fields are not cleared. */
    method Submit()
      modifies this`error, this`success, store
      ensures Shown() == AfterSubmit(ValidInput(title, content), UpdatedMessage)
      ensures Shown().Exclusive()
      ensures !ValidInput(title, content) ==> store.slot == old(store.slot)
      ensures ValidInput(title, content) ==>
                store.slot == Some(EditById(old(store.Load()), id, title, content))
      ensures ValidInput(title, content) && id !in Ids(old(store.Load())) ==>
                store.Load() == old(store.Load())
      ensures WellFormed(old(store.Load())) ==> WellFormed(store.Load())
    {
      var m := AfterSubmit(ValidInput(title, content), UpdatedMessage);
      if !ValidInput(title, content) {
        error, success := m.error, m.success;
        return;
      }
      var stored := store.Load();
      var updated := EditById(stored, id, title, content);
      if id !in Ids(stored) {
        EditAbsent(stored, id, title, content);
      }
      if WellFormed(stored) {
        EditWellFormed(stored, id, title, content);
      }
      store.SaveAll(updated);
      error, success := m.error, m.success;
    }
  }

  /** A session against an empty slot: add a note, edit it, delete it from
      the dashboard, then try to add a note with an empty title. The slot
      ends up holding the empty collection. */
  method Session() returns (store: NoteStore)
    ensures fresh(store)
    ensures store.Load() == [] && store.slot.Some?
  {
    store := AddToEmpty();
    EditOnly(store);
    DeleteOnly(store);
    var rejected := RejectEmptyTitle(store);
    var missing := PrefillMissing(store, "n1");
  }

  /** The first note added to an absent slot makes a one-note collection. */
  method AddToEmpty() returns (store: NoteStore)
    ensures fresh(store)
    ensures store.Load() == [Note("n1", "Groceries", "Milk, eggs")]
  {
    store := new NoteStore(None);
    var add := new AddForm(store);
    add.SetTitle("Groceries");
    add.SetContent("Milk, eggs");
    assert !IsWhitespace("Groceries"[0]) && !IsWhitespace("Milk, eggs"[0]);
    add.Submit("n1");
    assert add.success == AddedMessage && add.error == [];
  }

  /** Editing the content of the only note keeps its id and title. */
  method EditOnly(store: NoteStore)
    requires store.Load() == [Note("n1", "Groceries", "Milk, eggs")]
    modifies store
    ensures store.Load() == [Note("n1", "Groceries", "Milk, eggs, bread")]
  {
    var edit := new EditForm(store, "n1");
    edit.Prefill();
    assert edit.title == "Groceries" && edit.content == "Milk, eggs";
    edit.SetContent("Milk, eggs, bread");
    assert !IsWhitespace("Groceries"[0]) && !IsWhitespace("Milk, eggs, bread"[0]);
    edit.Submit();
    assert store.Load()[0] == Note("n1", "Groceries", "Milk, eggs, bread");
  }

  /** Deleting the only note from the dashboard empties the slot. */
  method DeleteOnly(store: NoteStore)
    requires |store.Load()| == 1 && store.Load()[0].id == "n1"
    modifies store
    ensures store.Load() == [] && store.slot.Some?
  {
    var dashboard := new Dashboard(store);
    dashboard.HandleDelete("n1");
  }

  /** An add with an empty title is rejected: the form shows the required
      message and no success, and the collection stays empty. */
  method RejectEmptyTitle(store: NoteStore) returns (rejected: AddForm)
    requires store.Load() == []
    modifies store
    ensures store.Load() == [] && store.slot == old(store.slot)
    ensures rejected.error == RequiredMessage && rejected.success == []
  {
    rejected := new AddForm(store);
    rejected.SetContent("x");
    rejected.Submit("n2");
  }

  /** An edit form for an id no note carries starts, and stays after its
      prefill, with empty fields. */
  method PrefillMissing(store: NoteStore, id: string) returns (form: EditForm)
    requires id !in Ids(store.Load())
    ensures form.title == [] && form.content == []
  {
    form := new EditForm(store, id);
    form.Prefill();
  }
}
