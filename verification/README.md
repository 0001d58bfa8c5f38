# m_json_db in Dafny

A model of `m_json_db`, a persistent document store backed by one JSON file.
A `Db` is bound to a path. It holds a document loaded from that path, or a caller-supplied default when the file is absent.
`db.__enter__()` hands out an `Accessor` over the live document and pushes it onto the calling thread's accessor stack.
Reads and writes go through the accessor. Every write sets the accessor's `was_mutated` flag.
`db.__exit__()` pops the top accessor and saves the document to the file only when that accessor was mutated.

The model is a pure state machine:

- `outcomes.dfy` (`Outcomes`): `Option`, `Result` and the Python exceptions that can escape (`KeyError`, `IndexError`, `TypeError`, and `DecodeError` for a file that is not JSON).
- `json_value.dfy` (`JsonValue`): the abstract document. Objects are ordered lists of members with distinct keys, as Python dicts are. It also gives dict lookup and dict assignment, with their read-after-write, key-order and well-formedness lemmas.
- `subscript.dfy` (`Subscript`): Python's `doc[key]` and `doc[key] = v` on a document. Covered: dict names, list positions with negative indexing, string indexing, and the exceptions each raises.
- `codec.dfy` (`Codec`): the file text, abstracted. `json.dumps`/`json.loads` are an exact round trip. A file holds either the document it encodes or `Malformed`.
- `json_db.dfy` (`JsonDb`): `Accessor`, `Db` and the world they live in.
  - The heap of document objects is explicit. It makes the sharing between `Db.value` and accessors visible: a write through an accessor changes the object in place.
  - A reload points `Db.value` at a fresh object, so accessors opened before it are left behind.
  - The world also holds every constructed store, the file system (a path not in the map is an absent file), one thread's accessor stack and the trace of saves.
  - Each operation returns the new world together with a value or the exception raised. As in Python, a call that raises keeps the changes it made before raising: a failed assignment still sets the flag.
- `traces.dfy` (`Traces`): sequences of calls, and the properties that span several calls.

The accessor stack is one list per thread, shared by every `Db` of that thread. So `Exit` pops the top accessor whichever store opened it, and saves the store it was called on.
The stack is created empty on first use, which the model states as a world that starts with an empty stack (`JsonDb.Start`).
A construction that raises leaves its half-built store in the world's list of stores; Python code can no longer reach it, but a trace of calls may still name it, which only adds behaviours.
`__exit__` on an empty stack raises `IndexError` from `list.pop()`.

## Model

| member | source | states |
|---|---|---|
| JsonValue.LookupFindsKeys | m_json_db/__init__.py:10-11 | a dict read finds a value exactly for the keys the dict holds; a missing key finds none |
| JsonValue.LookupUpdate | m_json_db/__init__.py:13-15 | after `d[k] = v`, `d[k]` is `v` and every other key reads what it read before |
| JsonValue.KeysUpdate | m_json_db/__init__.py:13-15 | assigning an existing key keeps the key order; a new key is appended last |
| JsonValue.UpdateWellFormed | m_json_db/__init__.py:13-15 | assignment never creates a duplicate key |
| Subscript.NormalizeIndex | m_json_db/__init__.py:10-11 | a list position is valid exactly in `-n .. n-1`, and a negative one counts from the end (`i mod n`) |
| Subscript.GetItem | m_json_db/__init__.py:10-11 | a dict read succeeds iff the key is a present name and returns that key's member value, else KeyError, including for an integer subscript (no default is inserted); a list or string read succeeds iff the index is in range and returns the element at the normalized position, else IndexError; a name on a list or string and any subscript of a scalar raise TypeError |
| Subscript.SetItem | m_json_db/__init__.py:13-15 | assignment succeeds exactly on a dict name or an in-range list position; otherwise IndexError for lists, TypeError else; after success the same subscript reads back the assigned value |
| Subscript.SetFieldFrame | m_json_db/__init__.py:13-15 | assigning a dict name leaves every other subscript of the dict reading what it read before |
| Subscript.SetElementFrame | m_json_db/__init__.py:13-15 | assigning a list position leaves every subscript that does not normalize to it reading what it read before |
| Subscript.SetItemFrame | m_json_db/__init__.py:13-15 | an assignment leaves every other slot reading what it read before |
| Codec.Loads | m_json_db/__init__.py:42-43 | parsing succeeds exactly on a file that holds a document; otherwise it raises DecodeError |
| Codec.Dumps | m_json_db/__init__.py:37-38 | the saved text parses back to the same document |
| JsonDb.Start | m_json_db/__init__.py:17-22 | a thread's accessor stack starts empty, before any store exists |
| JsonDb.NewAccessor | m_json_db/__init__.py:6-8 | a new accessor wraps the given object and is not mutated |
| JsonDb.Read | m_json_db/__init__.py:10-11 | a read returns the wrapped document's item and changes no flag, document or file |
| JsonDb.Write | m_json_db/__init__.py:13-15 | a write sets the accessor's flag whether or not the assignment succeeds; on success the wrapped object becomes exactly the result of the Python assignment, so it reads back the value and keeps every other slot; only that object changes; no other accessor, store or file changes |
| JsonDb.Construct | m_json_db/__init__.py:25-29 | construction succeeds iff the file is absent or holds a document; the store then holds the file's document, or the default if the file is absent, in a newly allocated object; no file is written |
| JsonDb.Enter | m_json_db/__init__.py:31-34 | the stack grows by exactly one new unmutated accessor over the store's current object; earlier entries, documents and files are unchanged |
| JsonDb.Save | m_json_db/__init__.py:36-38 | the store's file afterwards parses to the store's document; other files are unchanged; one save is recorded |
| JsonDb.Reload | m_json_db/__init__.py:40-45 | an absent file changes nothing; a malformed file raises DecodeError and changes nothing; otherwise the store holds the file's document in a newly allocated object that no other store or accessor shares |
| JsonDb.Exit | m_json_db/__init__.py:47-50 | an empty stack raises IndexError and changes nothing; otherwise exactly the top accessor is popped, and the file is written iff it was mutated |
| Traces.Run | m_json_db/__init__.py:24-50 | every state reachable by a sequence of calls keeps all references valid and all documents well-formed; no store disappears and every store stays bound to its path |
| Traces.ReadsChangeNothing | m_json_db/__init__.py:10-11 | any number of reads leaves the world exactly as it was |
| Traces.ReadOnlySessionChangesNothing | m_json_db/__init__.py:31-50 | enter, reads, exit returns the world exactly as it was, so the file is not touched |
| Traces.AbsentFileStaysAbsent | m_json_db/__init__.py:25-50 | a store over an absent file holds the default, and a read-only session on it still creates no file |
| Traces.StepPersists | m_json_db/__init__.py:13-45 | every call except exit keeps each open accessor, its object and its set flag, and every store with its path |
| Traces.FlagIsSticky | m_json_db/__init__.py:13-15 | without an exit, no sequence of calls clears a set flag or closes an open accessor |
| Traces.StackDepthKept | m_json_db/__init__.py:10-15 | reads, writes, saves, reloads and constructions keep the stack depth |
| Traces.MutatedSessionSavesOnce | m_json_db/__init__.py:47-50 | once the top accessor is mutated, ending its session after any further calls that do not enter or exit saves exactly once |
| Traces.NestedSessionsShareWrites | m_json_db/__init__.py:31-50 | nested sessions on one store share its object: the outer accessor reads the inner write, ending the inner session saves it, and ending the outer saves nothing more |
| Traces.SaveThenReload | m_json_db/__init__.py:36-45 | save followed by reload leaves the store holding a document equal to the saved one |
| Traces.ReloadDetachesOpenSessions | m_json_db/__init__.py:31-45 | after a reload, writes through an accessor opened before it do not reach the store, and ending that session saves the reloaded document |
| Traces.WithBlockAsWrittenLosesWrite | m_json_db/__init__.py:47-50 | with `__exit__` as written, a `with` block that writes ends in TypeError, leaves its accessor on the stack and writes no file |
| Traces.WithBlockSavesWrite | m_json_db/__init__.py:47-50 | with `__exit__` accepting the exception arguments, the same block pops its accessor and the file reads back the write |
| Traces.FirstRunCreatesFile | m_json_db/__init__.py:25-50 | with no file and default `{}`, writing `x = 1` in a session creates a file holding `{"x": 1}` |
| Traces.SameValueWriteStillSaves | m_json_db/__init__.py:13-50 | for every store and key that already holds `v`, assigning `v` leaves the document equal but still saves exactly once on exit |
| JsonValue.UpdateSameValue | m_json_db/__init__.py:13-15 | assigning a dict key the value it already holds gives back the same dict |
| Traces.CountExampleStillSaves | m_json_db/__init__.py:13-50 | on a file holding `{"count": 5}`, writing `count = 5` and exiting saves once |

## Left out

- Subscript.SetItem: assigning an integer key on a dict is modelled as TypeError. Python would insert a non-string key, which `json.dumps` later writes as a string. Objects in the model have string keys only.
- Other subscript types are not modelled: booleans used as list indices, slices, and other hashable dict keys.
- Floating-point JSON numbers are left out. Numbers are integers; the session protocol does not depend on them.
- I/O errors other than an absent file are left out: permission denied, a path that is a directory, a failed write. They come from the host, so `Save` never fails in the model.
- The text encoding (UTF-8, `ensure_ascii=False`) and the exact serialized bytes are left out. `json.dumps`/`json.loads` are modelled as an exact round trip on the abstract document.
- A save is not atomic in the code: a crash mid-write can corrupt the file. Crashes are not modelled.
- `threading.local` and other threads are left out. The model holds one thread's stack; cross-thread races are unprotected in the code.
- Aliasing through nested containers returned by a read is left out. Writes reach only top-level slots of an accessor's document.
- Writing through an accessor after its session has ended is not modelled. The Python object would still change the shared document, but accessors are addressed by their stack position.
- The caller's `default` object is the store's live document, in both directions, until a reload finds the file: a caller's change to it shows in the store, and a write through an accessor changes the caller's object. References held outside the store are not modelled.
- The `taker_thread_id` field is assigned and never read, so it is left out.

## Findings

| source | as written | input that shows it | evidently intended | confidence | as-written member | corrected member |
|---|---|---|---|---|---|---|
| m_json_db/__init__.py:47 | `def __exit__(self)` takes no exception arguments, but a `with` statement calls `__exit__(exc_type, exc_value, traceback)`, which raises TypeError before the body runs | `with db as a: a["x"] = 1` | `__exit__` accepts and ignores the three arguments, then pops and saves as lines 48-50 do | high; not executed | Traces.WithExitAsWritten, shown by Traces.WithBlockAsWrittenLosesWrite | JsonDb.Exit, shown by Traces.WithBlockSavesWrite |
