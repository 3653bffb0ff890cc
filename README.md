# Sticky notes: the note store and its three flows

This project models the state logic of a browser sticky-notes app (`src/App.js`).
The app keeps an ordered collection of `{id, title, content}` notes in one
persistent storage slot, the `'notes'` key. Each of its three flows is a
whole-collection read-modify-write of that slot:

- the **dashboard** loads the collection when it mounts and writes it back. Its
  delete button filters a note out of the collection it shows, and the
  `[notes]` effect persists the result;
- the **add form** checks its fields with `trim`. It then loads the slot, appends
  a note with a fresh id and writes the collection back;
- the **edit form** prefills its fields from the first note with the route's
  id. On submit it checks the fields the same way, re-reads the slot, gives
  every note with that id the new title and content, and writes the result back.

Both forms also hold an `error` and a `success` message, set by each submit.

Modules:

- `Wrappers` (`wrappers.dfy`): `Option`.
- `Validation` (`validation.dfy`): the whitespace set that `trim` strips,
  `Trim` and its two halves, `ValidInput` (the test `!title.trim() ||
  !content.trim()`, negated), the three message texts and `AfterSubmit`, the
  message pair a submit leaves.
- `Notes` (`notes.dfy`): the `Note` datatype and the pure list transforms.
  These are `DeleteById` (`filter`), `EditById` (`map` with spread) and `FindById`
  (`find`), with lemmas on order, counts, ids, idempotence and lookup. The
  lemmas also show that the three flows keep `WellFormed`: ids unique and
  non-empty.
- `Store` (`store.dfy`): `NoteStore`, a class whose one field `slot:
  Option<seq<Note>>` is the storage key. `None` is an absent key.
- `Components` (`components.dfy`): `Dashboard`, `AddForm` and `EditForm` as
  classes. Their fields are the React state of each component, plus the shared
  store. Their methods are the event handlers and effects. A short session
  follows the classes: add to an empty slot, edit, delete, a rejected add, and
  a prefill for a missing id. The session and each of its steps is a method
  with its own contract.

Behaviour of the code worth knowing, kept as written:

- The dashboard deletes from the collection it loaded at mount. It does not
  re-read the slot. It writes back on mount even when nothing changed, so an
  absent slot becomes an empty stored collection.
- Edit submit rewrites the slot and reports success even when no note has the
  id. The stored collection is then equal to the one read.
- Edit submit does not clear the fields; add submit does.
- The add form reads and writes the slot only when validation passes.
- Storage failures are not handled. Neither is a corrupt stored value. The
  code has no error path for either, so the model has none.

## Model

| member | source | states |
|---|---|---|
| Validation.TrimStart | src/App.js:71 | the result is a suffix of the input, every dropped character is whitespace, and the result does not start with whitespace |
| Validation.TrimEnd | src/App.js:71 | the result is a prefix of the input, every dropped character is whitespace, and the result does not end with whitespace |
| Validation.Trim | src/App.js:71 | `s.trim()` is a contiguous slice of `s` with only whitespace outside it; it is empty exactly when every character of `s` is whitespace; a non-empty result starts and ends with non-whitespace |
| Validation.TrimEmptyIff | src/App.js:133 | trimming both ends leaves the empty string if and only if the input is all whitespace (both directions) |
| Validation.Blank | src/App.js:71 | the test `!s.trim()` holds exactly when every character of `s` is whitespace (the empty string included) |
| Validation.ValidInput | src/App.js:71-75 | a submission is accepted if and only if both title and content contain a non-whitespace character |
| Validation.AfterSubmit | src/App.js:71-87 | a rejected submit shows the required message and no success; an accepted one shows no error and the given success message; never both |
| Notes.CountId | src/App.js:35 | the number of notes with an id is at most the length, and is zero exactly when the id is absent |
| Notes.DeleteById | src/App.js:35 | a note survives if and only if it was in the collection and has another id; the ids become the old ids minus `id`; the result equals the input exactly when the id is absent |
| Notes.DeleteConcat | src/App.js:35 | delete distributes over concatenation, so surviving notes keep their relative order |
| Notes.DeleteCount | src/App.js:35 | delete shortens the collection by exactly the number of notes that carry the id |
| Notes.DeleteUnique | src/App.js:34-37 | with unique ids, deleting the id of the note at position k yields the collection with just that position removed |
| Notes.DeleteWellFormed | src/App.js:35 | delete keeps ids unique and non-empty |
| Notes.EditById | src/App.js:139-141 | length and every id stay; notes with the id get the new title and content; every other note is unchanged |
| Notes.EditIds | src/App.js:139-141 | the set of ids after an edit is the set before |
| Notes.EditAbsent | src/App.js:139-142 | editing an absent id stores exactly the collection that was read |
| Notes.EditIdempotent | src/App.js:139-142 | applying the same edit twice gives the same collection as once |
| Notes.EditWellFormed | src/App.js:139-142 | edit keeps ids unique and non-empty |
| Notes.FindById | src/App.js:124 | nothing is found exactly when the id is absent; a note found is in the collection and has the id |
| Notes.FindFirst | src/App.js:124 | the note found is the first one with the id, at the first index carrying it |
| Notes.FindUnique | src/App.js:124 | with unique ids, the lookup of any note's id finds that note |
| Notes.FindAfterEdit | src/App.js:122-142 | after an edit of a present id, the prefill lookup finds the note with that id and the new title and content |
| Notes.AppendFresh | src/App.js:76-82 | appending a note with a fresh non-empty id keeps ids unique, adds exactly that id, and the lookup of that id finds the new note |
| Store.LoadSlot | src/App.js:27 | an absent slot reads as the empty collection, a present one as the collection it holds |
| Store.NoteStore.Load | src/App.js:81 | the load each flow starts with (also lines 123 and 138): empty while the slot is absent, otherwise the collection written last |
| Store.ResaveIdempotent | src/App.js:25-32 | an absent slot loads as the empty collection; writing back what was loaded changes nothing that is read, and a second write-back leaves the slot as the first did (by construction, since the slot holds the collection itself) |
| Store.NoteStore.SaveAll | src/App.js:31 | the slot holds exactly the collection written, and the next load returns it |
| Components.Dashboard.constructor | src/App.js:25-32 | the dashboard shows what the slot held, the slot then holds that collection, and what a load returns is unchanged |
| Components.Dashboard.HandleDelete | src/App.js:30-37 | the shown collection becomes the old one with the id filtered out, the slot holds it, an absent id changes nothing, and well-formedness is kept |
| Components.AddForm.constructor | src/App.js:63-66 | fields and messages start empty |
| Components.AddForm.SetTitle | src/App.js:99 | the title field holds what was typed |
| Components.AddForm.SetContent | src/App.js:104 | the content field holds what was typed |
| Components.AddForm.Submit | src/App.js:69-89 | rejected: slot and fields unchanged, required message, no success. Accepted: slot is the loaded collection plus one note at the end with the fresh id and the untrimmed title and content, fields cleared, success and no error. The messages are never both shown, and well-formedness is kept |
| Components.EditForm.constructor | src/App.js:115-119 | fields and messages start empty, the id is the route's |
| Components.EditForm.Prefill | src/App.js:122-129 | the fields take title and content of the first note with the id; when none has it they keep their values |
| Components.EditForm.SetTitle | src/App.js:156 | the title field holds what was typed |
| Components.EditForm.SetContent | src/App.js:161 | the content field holds what was typed |
| Components.EditForm.Submit | src/App.js:131-146 | rejected: slot unchanged, required message, no success. Accepted: slot is the edit of the freshly loaded collection, which is unchanged when the id is absent; success and no error. The messages are never both shown, and well-formedness is kept |
| Components.AddToEmpty | src/App.js:76-83 | the first add to an absent slot stores a one-note collection holding that note |
| Components.EditOnly | src/App.js:122-146 | prefill then an edit of the content keeps the note's id and title and stores the new content |
| Components.DeleteOnly | src/App.js:25-37 | mounting the dashboard and deleting the only note leaves an empty stored collection in a present slot |
| Components.RejectEmptyTitle | src/App.js:71-75 | an add with an empty title leaves the slot as it was and the collection empty, and the form shows the required message and no success |
| Components.PrefillMissing | src/App.js:122-129 | an edit form for an id no note carries has empty title and content after its prefill |
| Components.Session | src/App.js:24-146 | add to an absent slot, edit, delete from the dashboard and a rejected add leave the slot holding the empty collection |

## Left out

- Rendering, the navbar and routing (`src/App.js:6-22`, `39-59`, the form markup): UI with no state logic. Route switching is modelled only by constructing one component at a time.
- The one-second `setTimeout` navigation after a successful submit (`src/App.js:88`, `145`): a timing convention.
- `JSON.parse` / `JSON.stringify`: the slot holds the collection directly. So a stored value that is not valid JSON, and the difference between `saved ? ... : []` (line 27) and `JSON.parse(...) || []` (lines 81, 123, 138) on an empty string, are not modelled.
- uuid generation (`src/App.js:77`) belongs to the `uuid` library. `AddForm.Submit` takes the id as a parameter, with the precondition that it is non-empty and not in the stored collection.
- `localStorage` as a browser API: it is shared across tabs, and two read-modify-write cycles can interleave and lose an update. The model has a single owner of the slot and sequential calls.
- React's asynchronous, batched `setState`: a handler reads the field values of the moment it is called. Each state change is a field assignment.
- Validation.IsWhitespace: it lists the ECMAScript WhiteSpace and LineTerminator code points by hand. The `Zs` category part follows one Unicode version, not the engine's.
- The spread `{ ...note, title, content }` keeps any extra fields a stored object has. `Note` has exactly the three fields the app writes.
