/** Sequences of calls a single thread makes on its stores, and the
    properties of the session protocol that span several calls: read-only
    sessions change nothing, the mutation flag is sticky, a mutated session
    is saved exactly once, nested sessions share writes, and save/reload
    round-trips. */
module Traces {
  import opened Outcomes
  import opened JsonValue
  import opened Subscript
  import opened Codec
  import opened JsonDb

  /** One call. Accessors are named by their stack position. */
  datatype Op =
    | DoConstruct(path: Path, default: Json)
    | DoEnter(db: DbId)
    | DoExit(db: DbId)
    | DoRead(pos: nat, key: Key)
    | DoWrite(pos: nat, key: Key, v: Json)
    | DoSave(db: DbId)
    | DoReload(db: DbId)

  /** The call names a store that exists and an accessor that is open, and
      passes a value a Python program could build. */
  predicate Enabled(w: World, op: Op)
  {
    match op
    case DoConstruct(_, default) => WellFormed(default)
    case DoEnter(d) => d < |w.dbs|
    case DoExit(d) => d < |w.dbs|
    case DoRead(pos, _) => pos < |w.stack|
    case DoWrite(pos, _, v) => pos < |w.stack| && WellFormed(v)
    case DoSave(d) => d < |w.dbs|
    case DoReload(d) => d < |w.dbs|
  }

  /** The state after one call, whether it returned or raised. */
  function Step(w: World, op: Op): (w': World)
    requires Valid(w) && Enabled(w, op)
    ensures Valid(w')
    ensures |w.dbs| <= |w'.dbs|
    ensures forall d :: 0 <= d < |w.dbs| ==> w'.dbs[d].path == w.dbs[d].path
  {
    match op
    case DoConstruct(path, default) => Construct(w, path, default).world
    case DoEnter(d) => Enter(w, d).world
    case DoExit(d) => Exit(w, d).world
    case DoRead(pos, key) => Read(w, pos, key).world
    case DoWrite(pos, key, v) => Write(w, pos, key, v).world
    case DoSave(d) => Save(w, d).world
    case DoReload(d) => Reload(w, d).world
  }

  /** The state after a sequence of calls; `None` when some call names a
      store or accessor that does not exist at that point. */
  function Run(w: World, ops: seq<Op>): (r: Option<World>)
    requires Valid(w)
    ensures r.Some? ==> Valid(r.value) && |w.dbs| <= |r.value.dbs|
    ensures r.Some? ==> forall d :: 0 <= d < |w.dbs| ==> r.value.dbs[d].path == w.dbs[d].path
    decreases |ops|
  {
    if ops == [] then Some(w)
    else if !Enabled(w, ops[0]) then None
    else Run(Step(w, ops[0]), ops[1..])
  }

  predicate AllReads(ops: seq<Op>)
  {
    forall i :: 0 <= i < |ops| ==> ops[i].DoRead?
  }

  /** Calls that leave the stack's open accessors in place. */
  predicate NoExit(ops: seq<Op>)
  {
    forall i :: 0 <= i < |ops| ==> !ops[i].DoExit?
  }

  /** From `w` to `w'`: every accessor open in `w` is still open in `w'`,
      over the same object, and a set flag stayed set; every store still
      exists, bound to the same path. */
  predicate Persists(w: World, w': World)
  {
    && |w.stack| <= |w'.stack|
    && (forall i :: 0 <= i < |w.stack| ==>
          w'.stack[i].ref == w.stack[i].ref && (w.stack[i].wasMutated ==> w'.stack[i].wasMutated))
    && |w.dbs| <= |w'.dbs|
    && (forall d :: 0 <= d < |w.dbs| ==> w'.dbs[d].path == w.dbs[d].path)
  }

  /** Reads change nothing, however many. */
  lemma {:induction false} ReadsChangeNothing(w: World, ops: seq<Op>)
    requires Valid(w) && AllReads(ops)
    ensures Run(w, ops) == Some(w) || Run(w, ops) == None
    decreases |ops|
  {
    if ops != [] && Enabled(w, ops[0]) {
      assert Step(w, ops[0]) == w;
      assert AllReads(ops[1..]) by {
        forall i | 0 <= i < |ops[1..]| ensures ops[1..][i].DoRead? { assert ops[1..][i] == ops[i + 1]; }
      }
      ReadsChangeNothing(w, ops[1..]);
    }
  }

  /** A session that only reads leaves the world exactly as it found it: the
      accessor is pushed and popped, and no file is written. */
  lemma {:induction false} ReadOnlySessionChangesNothing(w: World, d: DbId, ops: seq<Op>)
    requires Valid(w) && d < |w.dbs| && AllReads(ops)
    ensures Run(Enter(w, d).world, ops).Some? ==>
              Exit(Run(Enter(w, d).world, ops).value, d) == Ret(w, Success(()))
  {
    var entered := Enter(w, d).world;
    ReadsChangeNothing(entered, ops);
    assert entered.stack[..|entered.stack| - 1] == w.stack;
  }

  /** A store built over an absent file holds the default, and a read-only
      session on it still creates no file. */
  lemma AbsentFileStaysAbsent(w: World, path: Path, default: Json, ops: seq<Op>)
    requires Valid(w) && WellFormed(default) && path !in w.files && AllReads(ops)
    ensures Construct(w, path, default).result.Success?
    ensures Value(Construct(w, path, default).world, |w.dbs|) == default
    ensures var built := Construct(w, path, default).world;
            Run(Enter(built, |w.dbs|).world, ops).Some? ==>
              path !in Exit(Run(Enter(built, |w.dbs|).world, ops).value, |w.dbs|).world.files
  {
    var built := Construct(w, path, default).world;
    ReadOnlySessionChangesNothing(built, |w.dbs|, ops);
  }

  /** Any single call other than `__exit__` keeps every open accessor and
      every store. */
  lemma StepPersists(w: World, op: Op)
    requires Valid(w) && Enabled(w, op) && !op.DoExit?
    ensures Persists(w, Step(w, op))
  {
  }

  /** Without an `__exit__`, open accessors stay open and a set flag is never
      cleared, whatever else happens. */
  lemma {:induction false} FlagIsSticky(w: World, ops: seq<Op>)
    requires Valid(w) && NoExit(ops)
    ensures Run(w, ops).Some? ==> Persists(w, Run(w, ops).value)
    decreases |ops|
  {
    if ops != [] && Enabled(w, ops[0]) {
      var next := Step(w, ops[0]);
      StepPersists(w, ops[0]);
      assert NoExit(ops[1..]) by {
        forall i | 0 <= i < |ops[1..]| ensures !ops[1..][i].DoExit? { assert ops[1..][i] == ops[i + 1]; }
      }
      FlagIsSticky(next, ops[1..]);
    }
  }

  /** Once the top accessor is mutated, any further reads, writes, saves or
      reloads within the session leave it mutated, and ending the session
      saves the store exactly once. */
  lemma MutatedSessionSavesOnce(w: World, d: DbId, ops: seq<Op>)
    requires Valid(w) && d < |w.dbs| && |w.stack| > 0 && w.stack[|w.stack| - 1].wasMutated
    requires forall i :: 0 <= i < |ops| ==> !ops[i].DoExit? && !ops[i].DoEnter?
    requires Run(w, ops).Some?
    ensures var after := Run(w, ops).value;
            var ended := Exit(after, d);
            && ended.result.Success?
            && |ended.world.stack| == |w.stack| - 1
            && ended.world.saves == after.saves + [w.dbs[d].path]
            && ended.world.files == after.files[w.dbs[d].path := Dumps(Value(after, d))]
  {
    FlagIsSticky(w, ops);
    StackDepthKept(w, ops);
  }

  /** Calls other than `__enter__` and `__exit__` keep the stack depth. */
  lemma {:induction false} StackDepthKept(w: World, ops: seq<Op>)
    requires Valid(w)
    requires forall i :: 0 <= i < |ops| ==> !ops[i].DoExit? && !ops[i].DoEnter?
    ensures Run(w, ops).Some? ==> |Run(w, ops).value.stack| == |w.stack|
    decreases |ops|
  {
    if ops != [] && Enabled(w, ops[0]) {
      assert forall i :: 0 <= i < |ops[1..]| ==> ops[1..][i] == ops[i + 1];
      StackDepthKept(Step(w, ops[0]), ops[1..]);
    }
  }

  /** Nested sessions on one store share its object: a write through the inner
      accessor is read back through the outer one, ending the inner session
      saves the store with that write, and the outer accessor stays unmutated,
      so ending it saves nothing more. */
  lemma NestedSessionsShareWrites(w: World, d: DbId, key: Key, v: Json)
    requires Valid(w) && d < |w.dbs| && WellFormed(v)
    requires SetItem(Value(w, d), key, v).Success?
    ensures var outer := Enter(w, d).world;
            var inner := Enter(outer, d).world;
            var written := Write(inner, |w.stack| + 1, key, v);
            var closed := Exit(written.world, d).world;
            && written.result.Success?
            && Read(written.world, |w.stack|, key).result == Success(v)
            && GetItem(Value(written.world, d), key) == Success(v)
            && closed.stack == w.stack + [NewAccessor(w.dbs[d].value)]
            && Loads(closed.files[w.dbs[d].path]) == Success(Value(written.world, d))
            && Exit(closed, d).world.files == closed.files
  {
  }

  /** Save then reload: the store holds a document equal to the one it saved
      (a new object, equal in value). */
  lemma SaveThenReload(w: World, d: DbId)
    requires Valid(w) && d < |w.dbs|
    ensures var saved := Save(w, d).world;
            var reloaded := Reload(saved, d);
            reloaded.result.Success? && Value(reloaded.world, d) == Value(w, d)
  {
  }

  /** A reload moves the store to a new object: a write through an accessor
      opened before it no longer reaches the store, and ending that session
      saves the reloaded document, not the write. */
  lemma ReloadDetachesOpenSessions(w: World, d: DbId, key: Key, v: Json)
    requires Valid(w) && d < |w.dbs| && WellFormed(v) && |w.stack| > 0
    requires w.dbs[d].path in w.files && w.files[w.dbs[d].path].Text?
    ensures var reloaded := Reload(w, d).world;
            var written := Write(reloaded, |w.stack| - 1, key, v).world;
            && Value(written, d) == w.files[w.dbs[d].path].doc
            && Exit(written, d).world.files == w.files[w.dbs[d].path := Dumps(w.files[w.dbs[d].path].doc)]
  {
  }

  /** How a `with db as accessor:` block ends in Python: the interpreter
      calls `db.__exit__(exc_type, exc_value, traceback)`. `__exit__` takes
      only `self`, so the call raises TypeError before its body runs. */
  function WithExitAsWritten(w: World, d: DbId): (r: Ret<()>)
    requires Valid(w) && d < |w.dbs|
  {
    Ret(w, Failure(TypeError))
  }

  /** With `__exit__` as written, a `with` block that writes leaves its
      accessor on the stack for good and never saves: the write is lost to
      the file. */
  lemma WithBlockAsWrittenLosesWrite(w: World, d: DbId, key: Key, v: Json)
    requires Valid(w) && d < |w.dbs| && WellFormed(v)
    ensures var entered := Enter(w, d).world;
            var written := Write(entered, |w.stack|, key, v).world;
            var ended := WithExitAsWritten(written, d);
            && ended.result == Failure(TypeError)
            && ended.world.stack == w.stack + [Accessor(w.dbs[d].value, true)]
            && ended.world.saves == w.saves
            && ended.world.files == w.files
  {
  }

  /** With `__exit__` accepting the exception arguments, so that it behaves
      as `Exit`, the same block pops its accessor and saves the write. */
  lemma WithBlockSavesWrite(w: World, d: DbId, key: Key, v: Json)
    requires Valid(w) && d < |w.dbs| && WellFormed(v)
    requires SetItem(Value(w, d), key, v).Success?
    ensures var entered := Enter(w, d).world;
            var written := Write(entered, |w.stack|, key, v).world;
            var ended := Exit(written, d);
            && ended.result.Success?
            && ended.world.stack == w.stack
            && ended.world.saves == w.saves + [w.dbs[d].path]
            && Loads(ended.world.files[w.dbs[d].path]).Success?
            && GetItem(Loads(ended.world.files[w.dbs[d].path]).value, key) == Success(v)
  {
  }

  /** A first run: no file, default `{}`; assigning `x = 1` in a session and
      ending it creates the file holding `{"x": 1}`. */
  lemma FirstRunCreatesFile()
    ensures var w := Start(map[]);
            var built := Construct(w, "db.json", JObject([]));
            var entered := Enter(built.world, 0).world;
            var written := Write(entered, 0, Name("x"), JInt(1)).world;
            var ended := Exit(written, 0).world;
            && built.result == Success(0)
            && ended.files == map["db.json" := Text(JObject([Member("x", JInt(1))]))]
  {
    var w := Start(map[]);
    var built := Construct(w, "db.json", JObject([]));
    assert Value(built.world, 0) == JObject([]);
    var entered := Enter(built.world, 0).world;
    var written := Write(entered, 0, Name("x"), JInt(1)).world;
    assert Value(written, 0) == JObject([Member("x", JInt(1))]);
  }

  /** Assigning a key the value it already holds leaves the document equal,
      yet still marks the session, so ending it saves the store. */
  lemma SameValueWriteStillSaves(w: World, d: DbId, k: string, v: Json)
    requires Valid(w) && d < |w.dbs| && WellFormed(v)
    requires GetItem(Value(w, d), Name(k)) == Success(v)
    ensures var entered := Enter(w, d).world;
            var written := Write(entered, |w.stack|, Name(k), v).world;
            var ended := Exit(written, d).world;
            && Value(written, d) == Value(w, d)
            && ended.saves == w.saves + [w.dbs[d].path]
  {
    var fields := Value(w, d).fields;
    LookupFindsMember(fields, k);
    assert Lookup(fields, k) == Some(v);
    UpdateSameValue(fields, k, v);
  }

  /** The same, on a file holding `{"count": 5}`: writing `count = 5` saves. */
  lemma CountExampleStillSaves()
    ensures var w := Start(map["db.json" := Text(JObject([Member("count", JInt(5))]))]);
            var built := Construct(w, "db.json", JNull);
            var entered := Enter(built.world, 0).world;
            var written := Write(entered, 0, Name("count"), JInt(5)).world;
            var ended := Exit(written, 0).world;
            && Value(written, 0) == Value(built.world, 0)
            && ended.saves == ["db.json"]
  {
    var doc := JObject([Member("count", JInt(5))]);
    var w := Start(map["db.json" := Text(doc)]);
    var built := Construct(w, "db.json", JNull);
    assert Value(built.world, 0) == doc;
    SameValueWriteStillSaves(built.world, 0, "count", JInt(5));
  }
}
