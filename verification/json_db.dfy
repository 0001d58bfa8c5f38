/** The store itself: `Accessor`, the per-thread accessor stack and `Db`.

    Python objects are shared by reference, and the aliasing matters here:
    an accessor wraps the very object `Db.value` names, so a write through
    it changes the store's document in place. The model therefore keeps an
    explicit heap of document objects; `Db.value` and every accessor hold a
    reference into it. `json.loads` builds a new object, so a reload moves
    `Db.value` to a fresh reference and leaves open accessors behind.

    The accessor stack is a module-level thread-local: one list per thread,
    shared by every `Db` of that thread. The world below is one thread's
    view: all stores, all files, and that thread's stack. */
module JsonDb {
  import opened Outcomes
  import opened JsonValue
  import opened Subscript
  import opened Codec

  type Ref = nat
  type Path = string
  /** A handle on a constructed store: its position in `World.dbs`. */
  type DbId = nat

  /** An open checkout: the document object it wraps and whether anything
      was assigned through it. */
  datatype Accessor = Accessor(ref: Ref, wasMutated: bool)

  /** A store: the file it is bound to and the object `self.value` names. */
  datatype Db = Db(path: Path, value: Ref)

  datatype World = World(
    heap: seq<Json>,              // every document object, by reference
    dbs: seq<Db>,                 // every constructed store
    files: map<Path, FileText>,   // the file system; a missing path is an absent file
    stack: seq<Accessor>,         // this thread's accessor stack, top last
    saves: seq<Path>)             // every `save` so far, in order

  /** The state after a call, with its return value or the exception it raised.
      Python keeps every change made before an exception, so a failed call
      can still carry a changed world. */
  datatype Ret<T> = Ret(world: World, result: Result<T, Raised>)

  /** Every reference points into the heap and every document is well-formed. */
  predicate Valid(w: World)
  {
    && (forall i :: 0 <= i < |w.heap| ==> WellFormed(w.heap[i]))
    && (forall d :: 0 <= d < |w.dbs| ==> w.dbs[d].value < |w.heap|)
    && (forall i :: 0 <= i < |w.stack| ==> w.stack[i].ref < |w.heap|)
    && (forall p :: p in w.files ==> FileWellFormed(w.files[p]))
  }

  /** The document store `d` currently holds. */
  function Value(w: World, d: DbId): Json
    requires Valid(w) && d < |w.dbs|
  {
    w.heap[w.dbs[d].value]
  }

  /** A thread before any store exists: its accessor stack is created empty
      on first use. */
  function Start(files: map<Path, FileText>): (w: World)
    requires forall p :: p in files ==> FileWellFormed(files[p])
    ensures Valid(w)
    ensures w.stack == [] && w.dbs == [] && w.saves == [] && w.files == files
  {
    World([], [], files, [], [])
  }

  /** `Accessor(value)`: wraps the given object, not yet mutated. */
  function NewAccessor(ref: Ref): (a: Accessor)
    ensures a.ref == ref && !a.wasMutated
  {
    Accessor(ref, false)
  }

  /** `accessor[key]` on the accessor at stack position `pos`: the wrapped
      document's item; no flag and no document changes. */
  function Read(w: World, pos: nat, key: Key): (r: Ret<Json>)
    requires Valid(w) && pos < |w.stack|
    ensures r.world == w
    ensures r.result == GetItem(w.heap[w.stack[pos].ref], key)
    ensures r.result.Success? ==> WellFormed(r.result.value)
  {
    var doc := w.heap[w.stack[pos].ref];
    var item := GetItem(doc, key);
    assert item.Success? ==> WellFormed(item.value) by {
      if item.Success? { GetItemWellFormed(doc, key); }
    }
    Ret(w, item)
  }

  /** `accessor[key] = v` on the accessor at stack position `pos`. The flag is
      set first, so it is set even when the assignment then raises. The
      assignment changes the wrapped object in place, and so every store and
      every accessor that shares that object. */
  function Write(w: World, pos: nat, key: Key, v: Json): (r: Ret<()>)
    requires Valid(w) && pos < |w.stack| && WellFormed(v)
    ensures Valid(r.world)
    ensures r.world.stack == w.stack[pos := Accessor(w.stack[pos].ref, true)]
    ensures r.result.Success? <==> SetItem(w.heap[w.stack[pos].ref], key, v).Success?
    ensures r.result.Failure? ==> r.result.error == SetItem(w.heap[w.stack[pos].ref], key, v).error
    ensures |r.world.heap| == |w.heap|
    ensures r.result.Success? ==> r.world.heap[w.stack[pos].ref] == SetItem(w.heap[w.stack[pos].ref], key, v).value
    ensures r.result.Success? ==> GetItem(r.world.heap[w.stack[pos].ref], key) == Success(v)
    ensures r.result.Failure? ==> r.world.heap == w.heap
    ensures forall i :: 0 <= i < |w.heap| && i != w.stack[pos].ref ==> r.world.heap[i] == w.heap[i]
    ensures r.world.dbs == w.dbs && r.world.files == w.files && r.world.saves == w.saves
  {
    var a := w.stack[pos];
    var flagged := w.(stack := w.stack[pos := a.(wasMutated := true)]);
    match SetItem(w.heap[a.ref], key, v)
    case Success(doc) =>
      SetItemWellFormed(w.heap[a.ref], key, v);
      Ret(flagged.(heap := w.heap[a.ref := doc]), Success(()))
    case Failure(e) => Ret(flagged, Failure(e))
  }

  /** `Db(path, default=default)`: the store starts on `default` and reloads
      at once; an absent file keeps the default and nothing is written, a
      malformed one makes the construction raise. */
  function Construct(w: World, path: Path, default: Json): (r: Ret<DbId>)
    requires Valid(w) && WellFormed(default)
    ensures Valid(r.world)
    ensures |r.world.dbs| == |w.dbs| + 1 && r.world.dbs[..|w.dbs|] == w.dbs
    ensures r.result.Success? <==> (path !in w.files || w.files[path].Text?)
    ensures r.result.Failure? ==> r.result.error == DecodeError
    ensures r.result.Success? ==>
              && r.result.value == |w.dbs|
              && r.world.dbs[r.result.value].path == path
              && r.world.dbs[r.result.value].value >= |w.heap|
              && Value(r.world, r.result.value) == (if path in w.files then w.files[path].doc else default)
    ensures |r.world.heap| > |w.heap| && r.world.heap[..|w.heap|] == w.heap
    ensures r.world.files == w.files && r.world.stack == w.stack && r.world.saves == w.saves
  {
    var id := |w.dbs|;
    var made := w.(heap := w.heap + [default], dbs := w.dbs + [Db(path, |w.heap|)]);
    var loaded := Reload(made, id);
    Ret(loaded.world, if loaded.result.Success? then Success(id) else Failure(loaded.result.error))
  }

  /** `db.__enter__()`: pushes a fresh accessor over the store's current
      object and returns it (as its stack position). */
  function Enter(w: World, d: DbId): (r: Ret<nat>)
    requires Valid(w) && d < |w.dbs|
    ensures Valid(r.world)
    ensures r.result == Success(|w.stack|)
    ensures r.world.stack == w.stack + [NewAccessor(w.dbs[d].value)]
    ensures r.world.heap == w.heap && r.world.dbs == w.dbs
    ensures r.world.files == w.files && r.world.saves == w.saves
  {
    Ret(w.(stack := w.stack + [NewAccessor(w.dbs[d].value)]), Success(|w.stack|))
  }

  /** `db.save()`: overwrites the store's file with its current document. */
  function Save(w: World, d: DbId): (r: Ret<()>)
    requires Valid(w) && d < |w.dbs|
    ensures Valid(r.world)
    ensures r.result.Success?
    ensures r.world.files.Keys == w.files.Keys + {w.dbs[d].path}
    ensures Loads(r.world.files[w.dbs[d].path]) == Success(Value(w, d))
    ensures forall p :: p in w.files && p != w.dbs[d].path ==> r.world.files[p] == w.files[p]
    ensures r.world.saves == w.saves + [w.dbs[d].path]
    ensures r.world.heap == w.heap && r.world.dbs == w.dbs && r.world.stack == w.stack
  {
    var path := w.dbs[d].path;
    Ret(w.(files := w.files[path := Dumps(Value(w, d))], saves := w.saves + [path]), Success(()))
  }

  /** `db.reload()`: replaces the store's object with a freshly parsed one.
      An absent file is no error and changes nothing; a malformed file
      raises and changes nothing. The new object is shared with no open
      accessor. */
  function Reload(w: World, d: DbId): (r: Ret<()>)
    requires Valid(w) && d < |w.dbs|
    ensures Valid(r.world)
    ensures |r.world.dbs| == |w.dbs| && |r.world.heap| >= |w.heap|
    ensures w.dbs[d].path !in w.files ==> r == Ret(w, Success(()))
    ensures w.dbs[d].path in w.files && w.files[w.dbs[d].path].Malformed? ==> r == Ret(w, Failure(DecodeError))
    ensures w.dbs[d].path in w.files && w.files[w.dbs[d].path].Text? ==>
              && r.result.Success?
              && r.world.dbs[d].value == |w.heap|
              && Value(r.world, d) == w.files[w.dbs[d].path].doc
              && (forall i :: 0 <= i < |w.stack| ==> w.stack[i].ref != r.world.dbs[d].value)
              && r.world.dbs == w.dbs[d := w.dbs[d].(value := r.world.dbs[d].value)]
    ensures r.world.heap[..|w.heap|] == w.heap
    ensures r.world.files == w.files && r.world.stack == w.stack && r.world.saves == w.saves
  {
    var path := w.dbs[d].path;
    if path !in w.files then Ret(w, Success(()))
    else
      match Loads(w.files[path])
      case Failure(e) => Ret(w, Failure(e))
      case Success(doc) =>
        Ret(w.(heap := w.heap + [doc], dbs := w.dbs[d := w.dbs[d].(value := |w.heap|)]), Success(()))
  }

  /** `db.__exit__()`: pops the top accessor of this thread's stack, whichever
      store opened it; `pop` of an empty list raises. The store is saved
      exactly when the popped accessor was mutated. */
  function Exit(w: World, d: DbId): (r: Ret<()>)
    requires Valid(w) && d < |w.dbs|
    ensures Valid(r.world)
    ensures |w.stack| == 0 ==> r == Ret(w, Failure(IndexError))
    ensures |w.stack| > 0 ==>
              && r.result.Success?
              && r.world.stack == w.stack[..|w.stack| - 1]
              && (if w.stack[|w.stack| - 1].wasMutated
                  then r.world.saves == w.saves + [w.dbs[d].path]
                       && r.world.files == w.files[w.dbs[d].path := Dumps(Value(w, d))]
                  else r.world.saves == w.saves && r.world.files == w.files)
    ensures r.world.heap == w.heap && r.world.dbs == w.dbs
  {
    if |w.stack| == 0 then Ret(w, Failure(IndexError))
    else
      var top := w.stack[|w.stack| - 1];
      var popped := w.(stack := w.stack[..|w.stack| - 1]);
      if top.wasMutated then Save(popped, d) else Ret(popped, Success(()))
  }
}
