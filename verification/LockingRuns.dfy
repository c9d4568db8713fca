/** What the locking protocol guarantees over whole runs. */
module LockingRuns {
  import opened Wrappers
  import opened BaseModel
  import opened Locking

  /** Nobody has loaded anything yet. */
  function Start(rows: Rows): World {
    World(rows, map[], map[], rows.Keys, map id | id in rows :: (id, VersionOf(rows[id])) := rows[id], [])
  }

  /** The world after some events, if each was possible when it happened. */
  function After(m: Model, rows: Rows, events: seq<Event>): Option<World>
    decreases |events|
  {
    if events == [] then Some(Start(rows)) else
    match After(m, rows, events[..|events| - 1])
    case None => None
    case Some(w) =>
      var e := events[|events| - 1];
      if Enabled(w, e) then Some(Next(m, w, e)) else None
  }

  lemma StartOk(m: Model, rows: Rows)
    requires TableOk(m, rows)
    ensures Inv(m, Start(rows))
  {
    var w := Start(rows);
    forall id | id in rows
      ensures (id, VersionOf(rows[id])) in w.history && w.history[(id, VersionOf(rows[id]))] == rows[id]
    {
      assert Get(rows[id], "id") == id;
    }
  }

  lemma {:induction false} InvariantOfRuns(m: Model, rows: Rows, events: seq<Event>)
    requires ValidModel(m) && TableOk(m, rows) && After(m, rows, events).Some?
    ensures Inv(m, After(m, rows, events).value)
    decreases |events|
  {
    if events == [] {
      StartOk(m, rows);
    } else {
      InvariantOfRuns(m, rows, events[..|events| - 1]);
      StepKeeps(m, After(m, rows, events[..|events| - 1]).value, events[|events| - 1]);
    }
  }

  // ---------- No lost update ----------

  /**
   * In every reachable world, an instance whose remembered version is the
   * version of the row remembers that row, column for column.
   */
  lemma EqualVersionsMeanEqualRows(m: Model, rows: Rows, events: seq<Event>, h: Handle)
    requires ValidModel(m) && TableOk(m, rows) && After(m, rows, events).Some?
    requires h in After(m, rows, events).value.insts
    ensures var w := After(m, rows, events).value;
            var original := w.insts[h].original;
            var id := Get(original, "id");
            id in w.rows && Get(original, "version") == Get(w.rows[id], "version") ==> Agrees(original, w.rows[id])
  {
    InvariantOfRuns(m, rows, events);
    var w := After(m, rows, events).value;
    assert InstanceOk(m, w.history, w.insts[h]);
    var original := w.insts[h].original;
    var id := Get(original, "id");
    if id in w.rows && Get(original, "version") == Get(w.rows[id], "version") {
      assert FullRow(m, id, w.rows[id]);
      assert (id, VersionOf(w.rows[id])) in w.history;
    }
  }

  /** An update goes through exactly when its author had loaded a version and the row still is what he had loaded. */
  lemma UpdateGoesThroughIffCurrent(m: Model, w: World, c: nat)
    requires ValidModel(m) && Inv(m, w) && Enabled(w, Run(c))
    requires w.wires[c].statement.Update? && w.wires[c].statement.id != Null
    ensures var wire := w.wires[c];
            var id := wire.statement.id;
            Execute(m, w.rows, wire.statement).1.Returned?
            <==> id in w.rows && "version" in wire.basis && Agrees(wire.basis, w.rows[id])
  {
    var wire := w.wires[c];
    assert WireOk(m, w, wire);
    var id := wire.statement.id;
    if id in w.rows {
      assert FullRow(m, id, w.rows[id]);
      assert (id, VersionOf(w.rows[id])) in w.history;
    }
  }

  // ---------- The log is a serial history ----------

  ghost function Applied(m: Model, rows: Rows, commit: Commit): Rows {
    match commit
    case Created(id, data) => rows[id := Inserted(m, data)]
    case Updated(id, _, data) => if id in rows then rows[id := rows[id] + data] else rows
    case Removed(id) => rows - {id}
  }

  /** The committed statements, one after the other. */
  ghost function Replay(m: Model, rows: Rows, log: seq<Commit>): Rows
    decreases |log|
  {
    if log == [] then rows else Applied(m, Replay(m, rows, log[..|log| - 1]), log[|log| - 1])
  }

  /** Each commit found the table as its author believed it to be. */
  ghost predicate Justified(rows: Rows, commit: Commit) {
    match commit
    case Created(id, data) => id !in rows && Get(data, "version") == Num(1)
    case Updated(id, basis, data) =>
      && id in rows && "version" in basis && Agrees(basis, rows[id])
      && Get(data, "version") == Num(VersionOf(rows[id]) + 1)
    case Removed(_) => true
  }

  ghost predicate Serial(m: Model, rows: Rows, log: seq<Commit>)
    decreases |log|
  {
    log == [] ||
    (Serial(m, rows, log[..|log| - 1]) && Justified(Replay(m, rows, log[..|log| - 1]), log[|log| - 1]))
  }

  /** What running a statement adds to the log. */
  ghost predicate Appends(m: Model, w: World, v: World, commit: Commit) {
    v.log == w.log + [commit] && Justified(w.rows, commit) && v.rows == Applied(m, w.rows, commit)
  }

  lemma UpdateIsJustified(m: Model, w: World, c: nat)
    requires ValidModel(m) && Inv(m, w) && Enabled(w, Run(c)) && w.wires[c].statement.Update?
    requires Execute(m, w.rows, w.wires[c].statement).1.Returned?
    ensures var wire := w.wires[c];
            Appends(m, w, Ran(m, w, c), Updated(wire.statement.id, wire.basis, wire.statement.data))
  {
    assert WireOk(m, w, w.wires[c]);
    assert FullRow(m, w.wires[c].statement.id, w.rows[w.wires[c].statement.id]);
    UpdateGoesThroughIffCurrent(m, w, c);
  }

  lemma RunIsJustified(m: Model, w: World, c: nat) returns (commit: Commit)
    requires ValidModel(m) && Inv(m, w) && Enabled(w, Run(c))
    ensures var v := Ran(m, w, c); (v.log == w.log && v.rows == w.rows) || Appends(m, w, v, commit)
  {
    commit := Removed(Null);
    match w.wires[c].statement {
      case Nothing =>
      case Insert(data) =>
        assert WireOk(m, w, w.wires[c]);
        commit := Created(Get(data, "id"), data);
      case Update(id, expected, data) =>
        if Execute(m, w.rows, w.wires[c].statement).1.Returned? {
          UpdateIsJustified(m, w, c);
          commit := Updated(id, w.wires[c].basis, data);
        }
      case Delete(id) =>
        commit := Removed(id);
    }
  }

  lemma AppendStaysSerial(m: Model, rows: Rows, log: seq<Commit>, commit: Commit)
    requires Serial(m, rows, log) && Justified(Replay(m, rows, log), commit)
    ensures Serial(m, rows, log + [commit])
    ensures Replay(m, rows, log + [commit]) == Applied(m, Replay(m, rows, log), commit)
  {
    assert (log + [commit])[..|log|] == log;
  }

  lemma OtherStepsCommitNothing(m: Model, w: World, e: Event)
    requires Enabled(w, e) && !e.Run?
    ensures Next(m, w, e).log == w.log && Next(m, w, e).rows == w.rows
  {
  }

  lemma StepStaysSerial(m: Model, rows: Rows, w: World, e: Event)
    requires ValidModel(m) && Inv(m, w) && Enabled(w, e)
    requires w.rows == Replay(m, rows, w.log) && Serial(m, rows, w.log)
    ensures Next(m, w, e).rows == Replay(m, rows, Next(m, w, e).log) && Serial(m, rows, Next(m, w, e).log)
  {
    if e.Run? {
      var commit := RunIsJustified(m, w, e.c);
      if Ran(m, w, e.c).log != w.log {
        AppendStaysSerial(m, rows, w.log, commit);
      }
    } else {
      OtherStepsCommitNothing(m, w, e);
    }
  }

  /**
   * Every run of the interleaved protocol leaves the table as if its successful
   * statements had been run one at a time, each on a row its author knew.
   */
  lemma {:induction false} RunsAreSerial(m: Model, rows: Rows, events: seq<Event>)
    requires ValidModel(m) && TableOk(m, rows) && After(m, rows, events).Some?
    ensures var w := After(m, rows, events).value;
            w.rows == Replay(m, rows, w.log) && Serial(m, rows, w.log)
    decreases |events|
  {
    if events != [] {
      var before := events[..|events| - 1];
      RunsAreSerial(m, rows, before);
      InvariantOfRuns(m, rows, before);
      StepStaysSerial(m, rows, After(m, rows, before).value, events[|events| - 1]);
    }
  }

  // ---------- One success per version ----------

  /** The row has moved on from version `v`, or is gone for good. */
  ghost predicate Passed(w: World, id: Value, v: int) {
    && id in w.used && (id in w.rows ==> VersionOf(w.rows[id]) > v)
    && (forall c | c in w.wires && Inserting(w.wires[c]) :: Get(w.wires[c].statement.data, "id") != id)
  }

  /** Running a statement adds no call that inserts. */
  lemma RanParts(m: Model, w: World, c: nat)
    requires Enabled(w, Run(c))
    ensures var v := Ran(m, w, c);
            && v.rows == Execute(m, w.rows, w.wires[c].statement).0 && v.used == w.used
            && forall d | d in v.wires && Inserting(v.wires[d]) :: d in w.wires && v.wires[d] == w.wires[d]
  {
  }

  lemma RowMovesOn(m: Model, w: World, wire: Wire, id: Value, v: int)
    requires TableOk(m, w.rows) && wire.Sent? && WireOk(m, w, wire)
    requires id in w.rows ==> VersionOf(w.rows[id]) > v
    requires Inserting(wire) ==> Get(wire.statement.data, "id") != id
    ensures var rows := Execute(m, w.rows, wire.statement).0; id in rows ==> VersionOf(rows[id]) > v
  {
    if id in w.rows {
      assert FullRow(m, id, w.rows[id]);
    }
  }

  lemma RunKeepsPassed(m: Model, w: World, c: nat, id: Value, v: int)
    requires ValidModel(m) && Inv(m, w) && Enabled(w, Run(c)) && Passed(w, id, v)
    ensures Passed(Ran(m, w, c), id, v)
  {
    assert WireOk(m, w, w.wires[c]);
    RowMovesOn(m, w, w.wires[c], id, v);
    RanParts(m, w, c);
  }

  lemma StepKeepsPassed(m: Model, w: World, e: Event, id: Value, v: int)
    requires ValidModel(m) && Inv(m, w) && Enabled(w, e) && Passed(w, id, v)
    ensures Passed(Next(m, w, e), id, v)
  {
    match e
    case SendSave(c, h, now, newId) => SaveStatementOk(m, w, w.insts[h], now, newId);
    case SendDelete(c, h, now, actor) => DeleteStatementOk(m, w, w.insts[h], now, actor);
    case Run(c) => RunKeepsPassed(m, w, c, id, v);
    case _ =>
  }

  lemma {:induction false} RunsKeepPassed(m: Model, rows: Rows, events: seq<Event>, more: seq<Event>, id: Value, v: int)
    requires ValidModel(m) && TableOk(m, rows) && After(m, rows, events + more).Some?
    requires After(m, rows, events).Some? && Passed(After(m, rows, events).value, id, v)
    ensures Passed(After(m, rows, events + more).value, id, v)
    decreases |more|
  {
    if more == [] {
      assert events + more == events;
    } else {
      var init := more[..|more| - 1];
      assert (events + more)[..|events + more| - 1] == events + init;
      RunsKeepPassed(m, rows, events, init, id, v);
      InvariantOfRuns(m, rows, events + init);
      StepKeepsPassed(m, After(m, rows, events + init).value, more[|more| - 1], id, v);
    }
  }

  /** The update that call `c` is about to run was built on version `v` of row `id`. */
  ghost predicate BuiltOn(w: World, c: nat, id: Value, v: int) {
    && Enabled(w, Run(c)) && w.wires[c].statement.Update?
    && w.wires[c].statement.id == id && w.wires[c].statement.expected == Num(v)
  }

  lemma SuccessMovesRow(m: Model, w: World, wire: Wire, id: Value, v: int)
    requires TableOk(m, w.rows) && wire.Sent? && WireOk(m, w, wire) && wire.statement.Update?
    requires wire.statement.id == id && wire.statement.expected == Num(v)
    requires Execute(m, w.rows, wire.statement).1.Returned?
    ensures id in w.rows && VersionOf(Execute(m, w.rows, wire.statement).0[id]) > v
  {
    assert FullRow(m, id, w.rows[id]);
  }

  lemma SuccessPasses(m: Model, w: World, c: nat, id: Value, v: int)
    requires ValidModel(m) && Inv(m, w) && BuiltOn(w, c, id, v)
    requires Execute(m, w.rows, w.wires[c].statement).1.Returned?
    ensures Passed(Next(m, w, Run(c)), id, v)
  {
    assert WireOk(m, w, w.wires[c]);
    SuccessMovesRow(m, w, w.wires[c], id, v);
    StoredIdsAreUsed(m, w);
    forall d | d in w.wires && Inserting(w.wires[d]) ensures Get(w.wires[d].statement.data, "id") != id {
      assert WireOk(m, w, w.wires[d]);
    }
    RanParts(m, w, c);
  }

  lemma PassedRefuses(m: Model, w: World, d: nat, id: Value, v: int)
    requires Inv(m, w) && Passed(w, id, v) && BuiltOn(w, d, id, v)
    ensures Execute(m, w.rows, w.wires[d].statement).1.Refused?
  {
    if id in w.rows {
      assert FullRow(m, id, w.rows[id]);
    }
  }

  /** Of all the saves built on one version of a row, one that went through shuts out every later one. */
  lemma OneSuccessPerVersion(m: Model, rows: Rows, events: seq<Event>, more: seq<Event>, w: World, later: World,
                             c: nat, d: nat, id: Value, v: int)
    requires ValidModel(m) && TableOk(m, rows)
    requires After(m, rows, events) == Some(w) && BuiltOn(w, c, id, v)
    requires Execute(m, w.rows, w.wires[c].statement).1.Returned?
    requires After(m, rows, events + [Run(c)] + more) == Some(later) && BuiltOn(later, d, id, v)
    ensures Execute(m, later.rows, later.wires[d].statement).1.Refused?
  {
    var soFar := events + [Run(c)];
    InvariantOfRuns(m, rows, events);
    SuccessPasses(m, w, c, id, v);
    assert soFar[..|soFar| - 1] == events;
    assert After(m, rows, soFar) == Some(Next(m, w, Run(c)));
    RunsKeepPassed(m, rows, soFar, more, id, v);
    InvariantOfRuns(m, rows, soFar + more);
    PassedRefuses(m, later, d, id, v);
  }

  // ---------- Where the guarantee ends ----------

  /** The static `update`: a keyed write without a version check or a version bump. */
  function StaticUpdate(rows: Rows, id: Value, data: Row): Rows {
    if id in rows then rows[id := rows[id] + data] else rows
  }

  lemma StaticUpdateKeepsVersion(row: Row, f: Field, x: Value)
    ensures (row + map[f := x])[f] == x
    ensures f != "version" ==> Get(row + map[f := x], "version") == Get(row, "version")
  {
  }

  lemma SaveCarries(m: Model, w: World, i: Instance, f: Field, now: Value, newId: Value)
    requires ValidModel(m) && Inv(m, w) && InstanceOk(m, w.history, i) && i.persisted
    requires f in i.dirty && f != "updated_at" && "version" in i.original
    ensures var s := SaveStatement(m, i, now, newId);
            && f != "version" && s.Update? && s.id == Get(i.original, "id") && s.expected == Get(i.original, "version")
            && f in s.data && s.data[f] == Get(i.attrs, f)
  {
    assert f in DirtyData(i);
    assert FullRow(m, KeyOf(i.original).0, w.history[KeyOf(i.original)]);
  }

  lemma GoesThrough(m: Model, rows: Rows, s: Statement, f: Field)
    requires s.Update? && s.id in rows && s.expected == Get(rows[s.id], "version") && f in s.data
    ensures var (rows', reply) := Execute(m, rows, s);
            && reply.Returned? && s.id in rows' && f in rows'[s.id] && rows'[s.id][f] == s.data[f]
            && Get(rows'[s.id], "version") == (if "version" in s.data then s.data["version"] else s.expected)
            && rows'.Keys == rows.Keys && forall k | k in rows && k != s.id :: rows'[k] == rows[k]
  {
  }

  /** A static update of a field that an instance has changed is overwritten unseen. */
  lemma StaticUpdateIsLost(m: Model, w: World, h: Handle, f: Field, x: Value, now: Value, newId: Value)
    requires ValidModel(m) && Inv(m, w) && h in w.insts
    requires var i := w.insts[h];
             && i.persisted && f in i.dirty && f in i.original && f != "updated_at" && "version" in i.original
             && Get(i.original, "id") in w.rows && Agrees(i.original, w.rows[Get(i.original, "id")])
             && x != i.original[f]
    ensures var i := w.insts[h];
            var id := Get(i.original, "id");
            var rows := StaticUpdate(w.rows, id, map[f := x]);
            var (rows', reply) := Execute(m, rows, SaveStatement(m, i, now, newId));
            && Get(rows[id], "version") == Get(i.original, "version") && !Agrees(i.original, rows[id])
            && reply.Returned? && rows'[id][f] == Get(i.attrs, f)
  {
    var i := w.insts[h];
    var id := Get(i.original, "id");
    SaveCarries(m, w, i, f, now, newId);
    assert i.original["version"] == w.rows[id]["version"] && i.original[f] == w.rows[id][f];
    StaticUpdateKeepsVersion(w.rows[id], f, x);
    GoesThrough(m, StaticUpdate(w.rows, id, map[f := x]), SaveStatement(m, i, now, newId), f);
  }

  /** A stored instance that agrees with its snapshot on the version and has nothing to save. */
  predicate Clean(i: Instance, v: int) {
    i.persisted && i.dirty == {} && v >= 1 && Get(i.original, "version") == Get(i.attrs, "version") == Num(v)
  }

  /** What is saved after a `fill` checks the version that was loaded and sets the next one. */
  predicate RaisesFor(m: Model, i: Instance, v: int, data: Row, now: Value, newId: Value) {
    var s := SaveStatement(m, Filled(m, i, data), now, newId);
    s.Update? ==> s.expected == Num(v) && Get(s.data, "version") == Num(v + 1)
  }

  ghost predicate VersionRises(m: Model) {
    forall i, v, data, now, newId | Clean(i, v) :: RaisesFor(m, i, v, data, now, newId)
  }

  lemma UntouchedVersionRises(m: Model, i: Instance, v: int, data: Row, now: Value, newId: Value)
    requires Clean(i, v) && ("version" in m.guarded || "version" !in m.fields)
    ensures RaisesFor(m, i, v, data, now, newId)
  {
    assert "version" !in Accepted(m, data);
  }

  /**
   * A model class that lets `fill` reach the version can save a changed row
   * under the version it had before.
   */
  lemma UnguardedVersionRepeats(m: Model, i: Instance, v: int, data: Row, now: Value, newId: Value)
    requires "version" in m.fields && "version" !in m.guarded && m.cast("version", Num(v - 1)) == Num(v - 1)
    requires i.persisted && Get(i.original, "version") == Num(v) && v >= 1
    requires "version" in data && data["version"] == Num(v - 1)
    ensures var s := SaveStatement(m, Filled(m, i, data), now, newId);
            s.Update? && s.expected == Num(v) && Get(s.data, "version") == Num(v)
  {
    var j := Filled(m, i, data);
    assert "version" in Accepted(m, data);
    assert "version" in DirtyData(j);
    assert Get(j.attrs, "version") == Num(v - 1);
  }

  /** Saving an instance that remembers a version raises it exactly if `fill` cannot reach it. */
  lemma VersionRisesIff(m: Model)
    requires forall v :: m.cast("version", v) == v
    ensures VersionRises(m) <==> "version" in m.guarded || "version" !in m.fields
  {
    if "version" in m.guarded || "version" !in m.fields {
      forall i, v, data, now, newId | Clean(i, v) ensures RaisesFor(m, i, v, data, now, newId) {
        UntouchedVersionRises(m, i, v, data, now, newId);
      }
    } else {
      var row: Row := map["version" := Num(1)];
      var i := Instance(true, row, row, {});
      UnguardedVersionRepeats(m, i, 1, map["version" := Num(0)], Null, Null);
      assert Clean(i, 1) && !RaisesFor(m, i, 1, map["version" := Num(0)], Null, Null);
    }
  }

  // ---------- The classes that are protected ----------

  /** An instance loaded from a row, after a fill. */
  function LoadedAndFilled(m: Model, row: Row, data: Row): Instance {
    Filled(m, Hydrated(m, Restrict(row, m.fields)), data)
  }

  function SaveOf(m: Model, row: Row, data: Row, now: Value): Statement {
    SaveStatement(m, LoadedAndFilled(m, row, data), now, Null)
  }

  lemma LoadedAndFilledParts(m: Model, row: Row, data: Row)
    ensures var i := LoadedAndFilled(m, row, data);
            && i.persisted && i.original == Restrict(row, m.fields) && i.dirty == Accepted(m, data)
            && (forall k | k in Accepted(m, data) :: k in i.attrs && i.attrs[k] == m.cast(k, data[k]))
            && (forall k | k !in Accepted(m, data) && k in row && k in m.fields ::
                  k in i.attrs && i.attrs[k] == m.cast(k, row[k]))
            && (forall k | k !in Accepted(m, data) && !(k in row && k in m.fields) :: k !in i.attrs)
  {
    var part := Restrict(row, m.fields);
    assert map[] + part == part && map[] + Cast(m, part) == Cast(m, part);
  }

  /** Casts leave the id and the version alone, and both are columns. */
  ghost predicate KeepsKeys(m: Model) {
    "id" in m.columns && "version" in m.columns && forall v :: m.cast("id", v) == v && m.cast("version", v) == v
  }

  predicate KeysListed(m: Model) {
    "id" in m.fields && "version" in m.fields
  }

  predicate KeysGuarded(m: Model) {
    "id" in m.guarded && "version" in m.guarded
  }

  function Loaded(m: Model, row: Row, key: Field): Value {
    if key in m.fields then Get(row, key) else Null
  }

  /** The id or version of a loaded instance after a fill. */
  function KeyAfter(m: Model, row: Row, data: Row, key: Field): Value {
    if key in Accepted(m, data) then data[key] else Loaded(m, row, key)
  }

  lemma KeysAfter(m: Model, row: Row, data: Row)
    requires KeepsKeys(m)
    ensures var i := LoadedAndFilled(m, row, data);
            && Get(i.attrs, "id") == KeyAfter(m, row, data, "id")
            && Get(i.attrs, "version") == KeyAfter(m, row, data, "version")
            && Get(i.original, "version") == Loaded(m, row, "version")
  {
    LoadedAndFilledParts(m, row, data);
  }

  /** What is saved once a field was accepted. */
  lemma FilledSave(m: Model, row: Row, data: Row, f: Field, now: Value)
    requires KeepsKeys(m) && f in Accepted(m, data)
    ensures var s, version := SaveOf(m, row, data, now), Or(KeyAfter(m, row, data, "version"), Num(0));
            && s.Update? && s.id == KeyAfter(m, row, data, "id")
            && s.expected == Or(Loaded(m, row, "version"), version) && Get(s.data, "version") == Successor(version)
            && (f != "version" && f != "updated_at" ==> f in s.data && s.data[f] == m.cast(f, data[f]))
  {
    var i := LoadedAndFilled(m, row, data);
    KeysAfter(m, row, data);
    LoadedAndFilledParts(m, row, data);
    assert f in DirtyData(i);
  }

  lemma UnfilledSave(m: Model, row: Row, data: Row, now: Value)
    requires Accepted(m, data) == {}
    ensures SaveOf(m, row, data, now) == Nothing
  {
    LoadedAndFilledParts(m, row, data);
    assert DirtyData(LoadedAndFilled(m, row, data)) == map[];
  }

  /** The statement, if any, is for this row, expects its version and sets the next one. */
  predicate Versioned(s: Statement, id: Value, row: Row) {
    s.Update? ==>
      s.id == id && s.expected == Get(row, "version") && Get(s.data, "version") == Num(VersionOf(row) + 1)
  }

  ghost predicate SavesAreVersioned(m: Model) {
    forall id, row, data, now | FullRow(m, id, row) :: Versioned(SaveOf(m, row, data, now), id, row)
  }

  lemma ProtectedSave(m: Model, id: Value, row: Row, data: Row, now: Value)
    requires KeepsKeys(m) && FullRow(m, id, row) && (m.fields <= m.guarded || (KeysListed(m) && KeysGuarded(m)))
    ensures Versioned(SaveOf(m, row, data, now), id, row)
  {
    if Accepted(m, data) == {} {
      UnfilledSave(m, row, data, now);
    } else {
      var f :| f in Accepted(m, data);
      FilledSave(m, row, data, f, now);
    }
  }

  /** A full row of the class, with version 1. */
  function Sample(m: Model): Row {
    (map k | k in m.columns :: Null)["id" := Text("a")]["version" := Num(1)]
  }

  lemma SampleIsFull(m: Model)
    requires KeepsKeys(m)
    ensures FullRow(m, Text("a"), Sample(m)) && VersionOf(Sample(m)) == 1
  {
  }

  /** What breaks the protection of a class in which some field can be filled. */
  lemma UnprotectedSave(m: Model, f: Field) returns (data: Row)
    requires KeepsKeys(m) && f in m.fields && f !in m.guarded && !(KeysListed(m) && KeysGuarded(m))
    ensures !Versioned(SaveOf(m, Sample(m), data, Null), Text("a"), Sample(m))
  {
    if KeysListed(m) && "id" !in m.guarded {
      data := map["id" := Text("b")];
      FilledSave(m, Sample(m), data, "id", Null);
    } else if KeysListed(m) {
      data := map["version" := Num(0)];
      FilledSave(m, Sample(m), data, "version", Null);
    } else {
      data := map[f := Text("b")];
      FilledSave(m, Sample(m), data, f, Null);
    }
  }

  /**
   * For every row, fill and time the save of a loaded instance addresses the row
   * it was loaded from, expects its version and sets the next one, exactly for the
   * classes that list the id and the version among their fields and guard both,
   * and those in which nothing can be filled at all.
   */
  lemma SavesAreVersionedIff(m: Model)
    requires KeepsKeys(m)
    ensures SavesAreVersioned(m) <==> m.fields <= m.guarded || (KeysListed(m) && KeysGuarded(m))
  {
    if m.fields <= m.guarded || (KeysListed(m) && KeysGuarded(m)) {
      forall id, row, data, now | FullRow(m, id, row) ensures Versioned(SaveOf(m, row, data, now), id, row) {
        ProtectedSave(m, id, row, data, now);
      }
    } else {
      var f :| f in m.fields && f !in m.guarded;
      var data := UnprotectedSave(m, f);
      SampleIsFull(m);
    }
  }

  lemma NoVersionIsRefused(m: Model, rows: Rows, s: Statement)
    requires TableOk(m, rows) && s.Update? && s.expected == Num(0)
    ensures Execute(m, rows, s) == (rows, Refused)
  {
    if s.id in rows {
      assert FullRow(m, s.id, rows[s.id]);
    }
  }

  /**
   * An instance loaded by a class that does not list the version remembers none:
   * on any table, its save sends nothing when nothing was filled in, and is
   * otherwise refused, whether or not the row has changed.
   */
  lemma UnlistedVersionIsRefused(m: Model, rows: Rows, row: Row, data: Row, now: Value)
    requires KeepsKeys(m) && "version" !in m.fields && TableOk(m, rows)
    ensures Execute(m, rows, SaveOf(m, row, data, now))
         == (rows, if Accepted(m, data) == {} then Silent else Refused)
  {
    if Accepted(m, data) == {} {
      UnfilledSave(m, row, data, now);
    } else {
      var f :| f in Accepted(m, data);
      FilledSave(m, row, data, f, now);
      NoVersionIsRefused(m, rows, SaveOf(m, row, data, now));
    }
  }

  /** A field next to the id and the version that can be filled. */
  predicate Fillable(m: Model, f: Field) {
    f in m.fields && f !in m.guarded && f !in {"id", "version", "updated_at"}
  }

  /** Where the id can be filled, a save can overwrite another row with the version of the row that was loaded. */
  lemma UnguardedIdOverwritesAnother(m: Model, rows: Rows, id: Value, other: Value, f: Field, x: Value, now: Value)
    requires KeepsKeys(m) && KeysListed(m) && "id" !in m.guarded && Fillable(m, f) && TableOk(m, rows)
    requires id in rows && other in rows && id != other && Get(rows[id], "version") == Get(rows[other], "version")
    ensures var (rows', reply) := Execute(m, rows, SaveOf(m, rows[id], map["id" := other, f := x], now));
            && reply.Returned? && id in rows' && rows'[id] == rows[id]
            && other in rows' && f in rows'[other] && rows'[other][f] == m.cast(f, x)
  {
    var data: Row := map["id" := other, f := x];
    assert FullRow(m, id, rows[id]);
    assert "id" in Accepted(m, data) && f in Accepted(m, data) && "version" !in Accepted(m, data);
    FilledSave(m, rows[id], data, f, now);
    GoesThrough(m, rows, SaveOf(m, rows[id], data, now), f);
  }

  /** Two updates built on one version of a row, the first of which leaves the version as it is. */
  lemma BothGoThrough(m: Model, rows: Rows, s1: Statement, s2: Statement, f: Field)
    requires s1.Update? && s2.Update? && s1.id == s2.id && s1.id in rows && f in s1.data && f in s2.data
    requires s1.expected == s2.expected == Get(rows[s1.id], "version") == Get(s1.data, "version")
    requires "version" in s1.data
    ensures var (rows1, first) := Execute(m, rows, s1);
            var (rows2, second) := Execute(m, rows1, s2);
            && first.Returned? && s1.id in rows1 && f in rows1[s1.id] && rows1[s1.id][f] == s1.data[f]
            && second.Returned? && s1.id in rows2 && f in rows2[s1.id] && rows2[s1.id][f] == s2.data[f]
  {
    GoesThrough(m, rows, s1, f);
    GoesThrough(m, Execute(m, rows, s1).0, s2, f);
  }

  function Lowered(row: Row, f: Field, x: Value): Row {
    map[f := x, "version" := Num(VersionOf(row) - 1)]
  }

  lemma LoweredSave(m: Model, id: Value, row: Row, f: Field, x: Value, now: Value)
    requires KeepsKeys(m) && KeysListed(m) && "version" !in m.guarded && Fillable(m, f) && FullRow(m, id, row)
    ensures var s := SaveOf(m, row, Lowered(row, f, x), now);
            && s.Update? && s.id == id && s.expected == Get(row, "version") == Get(s.data, "version")
            && "version" in s.data && f in s.data && s.data[f] == m.cast(f, x)
  {
    var data := Lowered(row, f, x);
    assert f in Accepted(m, data) && "version" in Accepted(m, data) && "id" !in Accepted(m, data);
    FilledSave(m, row, data, f, now);
  }

  lemma PlainSave(m: Model, id: Value, row: Row, f: Field, y: Value, now: Value)
    requires KeepsKeys(m) && KeysListed(m) && Fillable(m, f) && FullRow(m, id, row)
    ensures var s := SaveOf(m, row, map[f := y], now);
            && s.Update? && s.id == id && s.expected == Get(row, "version") && f in s.data && s.data[f] == m.cast(f, y)
  {
    var data: Row := map[f := y];
    assert f in Accepted(m, data) && "version" !in Accepted(m, data) && "id" !in Accepted(m, data);
    FilledSave(m, row, data, f, now);
  }

  /**
   * Where the version can be filled, two instances of one row collide: both
   * loaded it, both saves go through, and the second overwrites what the first
   * one saved.
   */
  lemma UnguardedSavesCollide(m: Model, rows: Rows, id: Value, f: Field, x: Value, y: Value, now: Value)
    requires KeepsKeys(m) && KeysListed(m) && "version" !in m.guarded && Fillable(m, f)
    requires TableOk(m, rows) && id in rows
    ensures var (rows1, first) := Execute(m, rows, SaveOf(m, rows[id], Lowered(rows[id], f, x), now));
            var (rows2, second) := Execute(m, rows1, SaveOf(m, rows[id], map[f := y], now));
            && first.Returned? && id in rows1 && f in rows1[id] && rows1[id][f] == m.cast(f, x)
            && second.Returned? && id in rows2 && f in rows2[id] && rows2[id][f] == m.cast(f, y)
  {
    assert FullRow(m, id, rows[id]);
    LoweredSave(m, id, rows[id], f, x, now);
    PlainSave(m, id, rows[id], f, y, now);
    BothGoThrough(m, rows, SaveOf(m, rows[id], Lowered(rows[id], f, x), now), SaveOf(m, rows[id], map[f := y], now), f);
  }
}
