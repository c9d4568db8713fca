/**
 * The optimistic-locking protocol. Any number of instances load, fill, save and
 * delete; a save or delete is three events (the statement is sent, the database
 * runs it, the reply is read), and events of different calls interleave freely,
 * also calls on the same instance.
 */
module Locking {
  import opened BaseModel

  type Handle = nat

  /** A call under way. `basis` is what its instance remembered when the statement was built. */
  datatype Wire =
    | Sent(owner: Handle, purpose: Purpose, basis: Row, statement: Statement)
    | Answered(owner: Handle, purpose: Purpose, reply: Reply)

  /** What the database did, in order. */
  datatype Commit =
    | Created(id: Value, data: Row)
    | Updated(id: Value, basis: Row, data: Row)
    | Removed(id: Value)

  /** `used`, `history` and `log` are bookkeeping; no step depends on them but for fresh ids. */
  datatype World = World(
    rows: Rows,
    insts: map<Handle, Instance>,
    wires: map<nat, Wire>,
    used: set<Value>,
    history: map<(Value, int), Row>,
    log: seq<Commit>
  )

  datatype Event =
    | Load(h: Handle, id: Value)
    | Make(h: Handle, data: Row)
    | Assign(h: Handle, data: Row)
    | SendSave(c: nat, h: Handle, now: Value, newId: Value)
    | SendDelete(c: nat, h: Handle, now: Value, actor: Value)
    | Run(c: nat)
    | Receive(c: nat)

  predicate Enabled(w: World, e: Event) {
    match e
    case Load(h, id) => h !in w.insts && id in w.rows
    case Make(h, _) => h !in w.insts
    case Assign(h, _) => h in w.insts
    case SendSave(c, h, _, newId) => c !in w.wires && h in w.insts && newId !in w.used && newId != Null
    case SendDelete(c, h, _, _) => c !in w.wires && h in w.insts
    case Run(c) => c in w.wires && w.wires[c].Sent?
    case Receive(c) => c in w.wires && w.wires[c].Answered? && w.wires[c].owner in w.insts
  }

  function VersionOf(row: Row): int {
    var v := Get(row, "version");
    if v.Num? then v.n else 0
  }

  /** What a statement that went through adds to the bookkeeping. */
  function Recorded(w: World, wire: Wire, reply: Reply): World
    requires wire.Sent?
  {
    match wire.statement
    case Insert(data) =>
      if !reply.Returned? then w else
      var id := Get(data, "id");
      w.(history := w.history[(id, VersionOf(reply.row)) := reply.row], log := w.log + [Created(id, data)])
    case Update(id, _, data) =>
      if !reply.Returned? then w else
      w.(history := w.history[(id, VersionOf(reply.row)) := reply.row], log := w.log + [Updated(id, wire.basis, data)])
    case Delete(id) => w.(log := w.log + [Removed(id)])
    case Nothing => w
  }

  function Ran(m: Model, w: World, c: nat): World
    requires c in w.wires && w.wires[c].Sent?
  {
    var wire := w.wires[c];
    var (rows, reply) := Execute(m, w.rows, wire.statement);
    Recorded(w, wire, reply).(rows := rows, wires := w.wires[c := Answered(wire.owner, wire.purpose, reply)])
  }

  function Received(m: Model, w: World, c: nat): World
    requires Enabled(w, Receive(c))
  {
    var wire := w.wires[c];
    var i := w.insts[wire.owner];
    w.(insts := w.insts[wire.owner := Settled(m, wire.purpose, i, wire.reply)], wires := w.wires - {c})
  }

  function Next(m: Model, w: World, e: Event): World
    requires Enabled(w, e)
  {
    match e
    case Load(h, id) => w.(insts := w.insts[h := Hydrated(m, Restrict(w.rows[id], m.fields))])
    case Make(h, data) => w.(insts := w.insts[h := Filled(m, Blank(), data)])
    case Assign(h, data) => w.(insts := w.insts[h := Filled(m, w.insts[h], data)])
    case SendSave(c, h, now, newId) =>
      var i := w.insts[h];
      w.(wires := w.wires[c := Sent(h, SavePurpose(i), i.original, SaveStatement(m, i, now, newId))],
         used := w.used + {newId})
    case SendDelete(c, h, now, actor) =>
      var i := w.insts[h];
      w.(wires := w.wires[c := Sent(h, Deleting, i.original, DeleteStatement(m, i, now, actor))])
    case Run(c) => Ran(m, w, c)
    case Receive(c) => Received(m, w, c)
  }

  // ---------- What the events do ----------

  /** The instance after the reply: it takes over a row that came back, and a refusal changes nothing. */
  ghost predicate TookReply(m: Model, purpose: Purpose, before: Instance, after: Instance, reply: Reply) {
    match reply
    case Refused => after == before
    case Silent => after == before.(persisted := before.persisted && purpose != Deleting)
    case Returned(row) =>
      && TookOver(m, before, after, row)
      && after.persisted == match purpose
                            case Creating => true
                            case Updating => before.persisted
                            case Deleting => false
  }

  /** Each event in full, but for the statements that are sent and run. */
  ghost predicate Does(m: Model, w: World, v: World, e: Event)
    requires Enabled(w, e)
  {
    match e
    case Load(h, id) =>
      && v.rows == w.rows && v.wires == w.wires && h in v.insts && v.insts == w.insts[h := v.insts[h]]
      && v.insts[h].persisted && TookOver(m, Blank(), v.insts[h], Restrict(w.rows[id], m.fields))
    case Make(h, data) =>
      && v.rows == w.rows && v.wires == w.wires && h in v.insts && v.insts == w.insts[h := v.insts[h]]
      && TookIn(m, Blank(), v.insts[h], data)
    case Assign(h, data) =>
      && v.rows == w.rows && v.wires == w.wires && v.insts.Keys == w.insts.Keys && v.insts == w.insts[h := v.insts[h]]
      && TookIn(m, w.insts[h], v.insts[h], data)
    case SendSave(c, h, _, _) =>
      v.rows == w.rows && v.insts == w.insts && c in v.wires && v.wires == w.wires[c := v.wires[c]]
    case SendDelete(c, h, _, _) =>
      v.rows == w.rows && v.insts == w.insts && c in v.wires && v.wires == w.wires[c := v.wires[c]]
    case Run(c) =>
      v.insts == w.insts && c in v.wires && v.wires == w.wires[c := v.wires[c]]
    case Receive(c) =>
      var Answered(h, purpose, reply) := w.wires[c];
      && v.rows == w.rows && v.wires == w.wires - {c}
      && v.insts.Keys == w.insts.Keys && v.insts == w.insts[h := v.insts[h]]
      && TookReply(m, purpose, w.insts[h], v.insts[h], reply)
  }

  lemma SettledTookReply(m: Model, purpose: Purpose, i: Instance, reply: Reply)
    ensures TookReply(m, purpose, i, Settled(m, purpose, i, reply), reply)
  {
    if reply.Returned? {
      AbsorbedTookOver(m, i, reply.row);
    }
  }

  lemma EventsDo(m: Model, w: World, e: Event)
    requires Enabled(w, e)
    ensures Does(m, w, Next(m, w, e), e)
  {
    match e
    case Load(h, id) => AbsorbedTookOver(m, Blank(), Restrict(w.rows[id], m.fields));
    case Make(h, data) => FilledTookIn(m, Blank(), data);
    case Assign(h, data) => FilledTookIn(m, w.insts[h], data);
    case Receive(c) =>
      var wire := w.wires[c];
      SettledTookReply(m, wire.purpose, w.insts[wire.owner], wire.reply);
    case _ =>
  }

  /**
   * A save stores what its instance held when it was sent, on the table as it is
   * when the statement is run, whatever happened in between.
   */
  lemma SaveStoresWhatWasSent(m: Model, w: World, later: World, c: nat, h: Handle, now: Value, newId: Value)
    requires Enabled(w, SendSave(c, h, now, newId))
    requires c in later.wires && later.wires[c] == Next(m, w, SendSave(c, h, now, newId)).wires[c]
    ensures Enabled(later, Run(c))
    ensures var v := Next(m, later, Run(c));
            && c in v.wires && v.wires[c].Answered? && v.wires[c].owner == h
            && v.wires[c].purpose == (if w.insts[h].persisted then Updating else Creating)
            && Stores(m, w.insts[h], later.rows, now, newId, v.rows, v.wires[c].reply)
  {
    SaveStores(m, w.insts[h], later.rows, now, newId);
  }

  /** A delete likewise. */
  lemma DeleteErasesWhatWasSent(m: Model, w: World, later: World, c: nat, h: Handle, now: Value, actor: Value)
    requires Enabled(w, SendDelete(c, h, now, actor))
    requires c in later.wires && later.wires[c] == Next(m, w, SendDelete(c, h, now, actor)).wires[c]
    ensures Enabled(later, Run(c))
    ensures var v := Next(m, later, Run(c));
            && c in v.wires && v.wires[c].Answered? && v.wires[c].owner == h && v.wires[c].purpose == Deleting
            && Erases(m, w.insts[h], later.rows, now, actor, v.rows, v.wires[c].reply)
  {
    DeleteStores(m, w.insts[h], later.rows, now, actor);
  }

  // ---------- The invariant ----------

  /** A full row of the table: every column, its id, and a version from 1 up. */
  ghost predicate FullRow(m: Model, id: Value, row: Row) {
    row.Keys == m.columns && id != Null && Get(row, "id") == id && VersionOf(row) >= 1 && Get(row, "version").Num?
  }

  ghost predicate TableOk(m: Model, rows: Rows) {
    forall id | id in rows :: FullRow(m, id, rows[id])
  }

  ghost predicate PastOk(m: Model, w: World) {
    forall key | key in w.history ::
      && FullRow(m, key.0, w.history[key]) && VersionOf(w.history[key]) == key.1 && key.0 in w.used
      && (key.0 in w.rows ==> key.1 <= VersionOf(w.rows[key.0]))
  }

  ghost predicate PresentOk(w: World) {
    forall id | id in w.rows ::
      var key := (id, VersionOf(w.rows[id])); key in w.history && w.history[key] == w.rows[id]
  }

  ghost predicate HistoryOk(m: Model, w: World) {
    PastOk(m, w) && PresentOk(w)
  }

  ghost predicate Agrees(part: Row, row: Row) {
    forall k | k in part :: k in row && part[k] == row[k]
  }

  ghost function KeyOf(row: Row): (Value, int) {
    (Get(row, "id"), VersionOf(row))
  }

  /**
   * Nothing remembered yet, or, with a version, part of the one row that ever had
   * this id and version. A class that does not list the version among its fields
   * loads rows without it.
   */
  ghost predicate Remembers(m: Model, history: map<(Value, int), Row>, original: Row) {
    original == map[] ||
    (&& "id" in original && original.Keys <= m.columns
     && ("version" in original ==> KeyOf(original) in history && Agrees(original, history[KeyOf(original)])))
  }

  ghost predicate InstanceOk(m: Model, history: map<(Value, int), Row>, i: Instance) {
    && Remembers(m, history, i.original)
    && Get(i.attrs, "id") == Get(i.original, "id") && Get(i.attrs, "version") == Get(i.original, "version")
    && i.dirty <= m.columns && "id" !in i.dirty && "version" !in i.dirty
    && (i.persisted ==> i.original != map[])
  }

  /** An update checks the version remembered and sets the next one; without one it checks for zero. */
  ghost predicate VersionsOk(basis: Row, expected: Value, data: Row) {
    if "version" in basis
    then expected == Get(basis, "version") == Num(VersionOf(basis)) && Get(data, "version") == Num(VersionOf(basis) + 1)
    else expected == Num(0)
  }

  ghost predicate StatementOk(m: Model, w: World, basis: Row, s: Statement) {
    match s
    case Nothing => true
    case Insert(data) =>
      var id := Get(data, "id");
      && data.Keys <= m.columns && Get(data, "version") == Num(1) && id != Null && id in w.used && id !in w.rows
      && (forall key | key in w.history :: key.0 != id)
    case Update(id, expected, data) =>
      id == Null ||
      (&& data.Keys <= m.columns && "id" !in data && basis != map[] && Remembers(m, w.history, basis)
       && id == Get(basis, "id") && VersionsOk(basis, expected, data))
    case Delete(_) => true
  }

  ghost predicate ReplyOk(m: Model, history: map<(Value, int), Row>, reply: Reply) {
    reply.Returned? ==>
      FullRow(m, Get(reply.row, "id"), reply.row) && KeyOf(reply.row) in history && history[KeyOf(reply.row)] == reply.row
  }

  ghost predicate WireOk(m: Model, w: World, wire: Wire) {
    match wire
    case Sent(_, _, basis, s) => StatementOk(m, w, basis, s)
    case Answered(_, _, reply) => ReplyOk(m, w.history, reply)
  }

  predicate Inserting(wire: Wire) {
    wire.Sent? && wire.statement.Insert?
  }

  ghost predicate DistinctInserts(w: World) {
    forall c, d | c in w.wires && d in w.wires && c != d && Inserting(w.wires[c]) && Inserting(w.wires[d]) ::
      Get(w.wires[c].statement.data, "id") != Get(w.wires[d].statement.data, "id")
  }

  ghost predicate Inv(m: Model, w: World) {
    && TableOk(m, w.rows) && HistoryOk(m, w)
    && (forall h | h in w.insts :: InstanceOk(m, w.history, w.insts[h]))
    && (forall c | c in w.wires :: WireOk(m, w, w.wires[c]))
    && DistinctInserts(w)
  }

  // ---------- The invariant is kept ----------

  lemma FilledKeeps(m: Model, history: map<(Value, int), Row>, i: Instance, data: Row)
    requires ValidModel(m) && InstanceOk(m, history, i)
    ensures InstanceOk(m, history, Filled(m, i, data))
  {
    assert "id" in {"id", "version"} && "version" in {"id", "version"};
    assert "id" in m.guarded && "version" in m.guarded;
  }

  lemma AbsorbedKeeps(m: Model, history: map<(Value, int), Row>, i: Instance, row: Row, full: Row)
    requires ValidModel(m) && FullRow(m, Get(full, "id"), full)
    requires KeyOf(full) in history && history[KeyOf(full)] == full
    requires row == full || (i == Blank() && row == Restrict(full, m.fields))
    requires InstanceOk(m, history, i)
    ensures Absorbed(m, i, row).original != map[] && InstanceOk(m, history, Absorbed(m, i, row))
  {
    var j := Absorbed(m, i, row);
    assert "id" in {"id", "version"} && "version" in {"id", "version"};
    assert "id" in m.fields && "id" in m.columns && "version" in m.columns;
    if row == full {
      assert i.original.Keys <= m.columns;
      assert j.original == full;
    } else {
      assert j.original == row;
    }
    assert m.cast("id", row["id"]) == row["id"];
    if "version" in row {
      assert m.cast("version", row["version"]) == row["version"];
      assert KeyOf(j.original) == KeyOf(full);
    }
  }

  lemma BlankOk(m: Model, history: map<(Value, int), Row>)
    ensures InstanceOk(m, history, Blank())
  {
  }

  lemma StoredIdsAreUsed(m: Model, w: World)
    requires Inv(m, w)
    ensures forall id | id in w.rows :: id in w.used
  {
    forall id | id in w.rows ensures id in w.used {
      assert (id, VersionOf(w.rows[id])) in w.history;
    }
  }

  lemma UpdateStatementOk(m: Model, w: World, i: Instance, data: Row, now: Value)
    requires ValidModel(m) && Inv(m, w) && InstanceOk(m, w.history, i)
    requires data.Keys <= m.columns && "id" !in data
    ensures StatementOk(m, w, i.original, UpdateStatement(i, data, now))
  {
    assert {"id", "version", "created_at", "updated_at"} <= m.columns;
    if "version" in i.original {
      var full := w.history[KeyOf(i.original)];
      assert FullRow(m, KeyOf(i.original).0, full);
      assert full["version"] == i.original["version"];
    }
  }

  lemma SaveStatementOk(m: Model, w: World, i: Instance, now: Value, newId: Value)
    requires ValidModel(m) && Inv(m, w) && InstanceOk(m, w.history, i) && newId !in w.used && newId != Null
    ensures StatementOk(m, w.(used := w.used + {newId}), i.original, SaveStatement(m, i, now, newId))
    ensures var s := SaveStatement(m, i, now, newId); s.Insert? ==> Get(s.data, "id") == newId
  {
    assert {"id", "version", "created_at", "updated_at"} <= m.columns;
    if i.persisted {
      UpdateStatementOk(m, w, i, DirtyData(i), now);
    } else {
      var data := DirtyData(i);
      var s := CreateStatement(m, data, now, newId);
      assert "id" !in data["created_at" := now]["updated_at" := now];
      assert s.data.Keys <= m.columns;
      StoredIdsAreUsed(m, w);
    }
  }

  lemma DeleteStatementOk(m: Model, w: World, i: Instance, now: Value, actor: Value)
    requires ValidModel(m) && Inv(m, w) && InstanceOk(m, w.history, i)
    ensures StatementOk(m, w, i.original, DeleteStatement(m, i, now, actor))
    ensures !DeleteStatement(m, i, now, actor).Insert?
  {
    if m.softDelete {
      var data: Row := map[m.softDeleteColumn := now, "deleted_by" := actor, "updated_at" := now];
      assert m.softDeleteColumn in {m.softDeleteColumn, "deleted_by"} && "deleted_by" in {m.softDeleteColumn, "deleted_by"};
      assert "updated_at" in m.columns;
      UpdateStatementOk(m, w, i, data, now);
    }
  }

  ghost predicate Extends(grown: map<(Value, int), Row>, past: map<(Value, int), Row>) {
    forall key | key in past :: key in grown && grown[key] == past[key]
  }

  /** The history only grows, so what was remembered stays remembered. */
  lemma StillRemembers(m: Model, past: map<(Value, int), Row>, grown: map<(Value, int), Row>, r: Row)
    requires Extends(grown, past) && Remembers(m, past, r)
    ensures Remembers(m, grown, r)
  {
  }

  lemma StillReplies(m: Model, past: map<(Value, int), Row>, grown: map<(Value, int), Row>, r: Reply)
    requires Extends(grown, past) && ReplyOk(m, past, r)
    ensures ReplyOk(m, grown, r)
  {
  }

  lemma NewInstanceOk(m: Model, w: World, e: Event)
    requires ValidModel(m) && Inv(m, w) && Enabled(w, e) && (e.Load? || e.Make? || e.Assign?)
    ensures InstanceOk(m, w.history, Next(m, w, e).insts[e.h])
  {
    BlankOk(m, w.history);
    match e
    case Load(h, id) =>
      AbsorbedKeeps(m, w.history, Blank(), Restrict(w.rows[id], m.fields), w.rows[id]);
    case Make(h, data) =>
      FilledKeeps(m, w.history, Blank(), data);
    case Assign(h, data) =>
      FilledKeeps(m, w.history, w.insts[h], data);
  }

  lemma SameShared(m: Model, w: World, v: World)
    requires Inv(m, w) && v == w.(insts := v.insts)
    ensures TableOk(m, v.rows) && HistoryOk(m, v) && DistinctInserts(v)
    ensures forall c | c in v.wires :: WireOk(m, v, v.wires[c])
  {
    forall c | c in v.wires ensures WireOk(m, v, v.wires[c]) {
      assert WireOk(m, w, w.wires[c]);
    }
  }

  lemma LocalStepKeeps(m: Model, w: World, e: Event)
    requires ValidModel(m) && Inv(m, w) && Enabled(w, e) && (e.Load? || e.Make? || e.Assign?)
    ensures Inv(m, Next(m, w, e))
  {
    NewInstanceOk(m, w, e);
    SameShared(m, w, Next(m, w, e));
  }

  /** A sound new call that inserts, if at all, under an unused id. */
  lemma SendingKeeps(m: Model, w: World, c: nat, wire: Wire, ids: set<Value>)
    requires Inv(m, w) && c !in w.wires && wire.Sent?
    requires StatementOk(m, w.(used := w.used + ids), wire.basis, wire.statement)
    requires wire.statement.Insert? ==> Get(wire.statement.data, "id") !in w.used
    ensures Inv(m, w.(wires := w.wires[c := wire], used := w.used + ids))
  {
    var v := w.(wires := w.wires[c := wire], used := w.used + ids);
    forall d | d in v.wires ensures WireOk(m, v, v.wires[d]) {
      if d in w.wires {
        assert WireOk(m, w, w.wires[d]);
      }
    }
    forall d | d in w.wires && Inserting(w.wires[d]) ensures Get(w.wires[d].statement.data, "id") in w.used {
      assert WireOk(m, w, w.wires[d]);
    }
  }

  lemma SendKeeps(m: Model, w: World, e: Event)
    requires ValidModel(m) && Inv(m, w) && Enabled(w, e) && (e.SendSave? || e.SendDelete?)
    ensures Inv(m, Next(m, w, e))
  {
    var i := w.insts[e.h];
    if e.SendSave? {
      SaveStatementOk(m, w, i, e.now, e.newId);
      SendingKeeps(m, w, e.c, Sent(e.h, SavePurpose(i), i.original, SaveStatement(m, i, e.now, e.newId)), {e.newId});
    } else {
      DeleteStatementOk(m, w, i, e.now, e.actor);
      assert w.(used := w.used + {}) == w;
      SendingKeeps(m, w, e.c, Sent(e.h, Deleting, i.original, DeleteStatement(m, i, e.now, e.actor)), {});
    }
  }

  lemma ReceivedInstanceOk(m: Model, w: World, i: Instance, purpose: Purpose, reply: Reply)
    requires ValidModel(m) && InstanceOk(m, w.history, i) && ReplyOk(m, w.history, reply)
    ensures InstanceOk(m, w.history, Settled(m, purpose, i, reply))
  {
    if reply.Returned? {
      AbsorbedKeeps(m, w.history, i, reply.row, reply.row);
    }
  }

  lemma ForgetWire(m: Model, w: World, c: nat)
    requires Inv(m, w)
    ensures Inv(m, w.(wires := w.wires - {c}))
  {
    var v := w.(wires := w.wires - {c});
    forall d | d in v.wires ensures WireOk(m, v, v.wires[d]) {
      assert WireOk(m, w, w.wires[d]);
    }
  }

  lemma ReceiveKeeps(m: Model, w: World, c: nat)
    requires ValidModel(m) && Inv(m, w) && Enabled(w, Receive(c))
    ensures Inv(m, Received(m, w, c))
  {
    var wire, v := w.wires[c], Received(m, w, c);
    assert WireOk(m, w, wire);
    ReceivedInstanceOk(m, w, w.insts[wire.owner], wire.purpose, wire.reply);
    ForgetWire(m, w, c);
    SameShared(m, w.(wires := w.wires - {c}), v);
  }

  // ---------- Running a statement ----------

  /** A committed row enters the table and the history. */
  function Committed(w: World, id: Value, row: Row): World {
    w.(rows := w.rows[id := row], history := w.history[(id, VersionOf(row)) := row])
  }

  lemma CommitKeepsPast(m: Model, w: World, id: Value, row: Row)
    requires PastOk(m, w) && FullRow(m, id, row) && id in w.used
    requires forall key | key in w.history && key.0 == id :: key.1 < VersionOf(row)
    ensures PastOk(m, Committed(w, id, row))
  {
    var v := Committed(w, id, row);
    forall key | key in v.history
      ensures && FullRow(m, key.0, v.history[key]) && VersionOf(v.history[key]) == key.1 && key.0 in v.used
              && (key.0 in v.rows ==> key.1 <= VersionOf(v.rows[key.0]))
    {
      assert key == (id, VersionOf(row)) || key in w.history;
    }
  }

  lemma CommitKeepsPresent(w: World, id: Value, row: Row)
    requires PresentOk(w)
    ensures PresentOk(Committed(w, id, row))
  {
    var v := Committed(w, id, row);
    forall other | other in v.rows
      ensures var key := (other, VersionOf(v.rows[other])); key in v.history && v.history[key] == v.rows[other]
    {
      if other != id {
        assert v.rows[other] == w.rows[other];
        assert (other, VersionOf(w.rows[other])) in w.history;
      }
    }
  }

  lemma CommitExtends(w: World, id: Value, row: Row)
    requires forall key | key in w.history && key.0 == id :: key.1 < VersionOf(row)
    ensures Extends(Committed(w, id, row).history, w.history)
  {
  }

  lemma CommitKeeps(m: Model, w: World, id: Value, row: Row)
    requires TableOk(m, w.rows) && HistoryOk(m, w) && FullRow(m, id, row) && id in w.used
    requires forall key | key in w.history && key.0 == id :: key.1 < VersionOf(row)
    ensures TableOk(m, Committed(w, id, row).rows) && HistoryOk(m, Committed(w, id, row))
    ensures Extends(Committed(w, id, row).history, w.history)
  {
    CommitKeepsPast(m, w, id, row);
    CommitKeepsPresent(w, id, row);
    CommitExtends(w, id, row);
  }

  lemma InsertedIsFull(m: Model, data: Row)
    requires ValidModel(m) && data.Keys <= m.columns && Get(data, "id") != Null && Get(data, "version") == Num(1)
    ensures FullRow(m, Get(data, "id"), Inserted(m, data)) && VersionOf(Inserted(m, data)) == 1
  {
    assert {"id", "version", "created_at", "updated_at"} <= m.columns;
  }

  lemma UpdatedIsFull(m: Model, id: Value, row: Row, data: Row)
    requires FullRow(m, id, row) && data.Keys <= m.columns && "id" !in data
    requires Get(data, "version") == Num(VersionOf(row) + 1)
    ensures FullRow(m, id, row + data) && VersionOf(row + data) == VersionOf(row) + 1
  {
  }

  /** The world after call `c` has put `row` into the table. */
  function AfterCommit(w: World, c: nat, id: Value, row: Row, commit: Commit): World
    requires c in w.wires
  {
    Committed(w, id, row).(
      wires := w.wires[c := Answered(w.wires[c].owner, w.wires[c].purpose, Returned(row))],
      log := w.log + [commit])
  }

  /** Other calls under way are unharmed by a commit. */
  lemma OtherWires(m: Model, w: World, c: nat, id: Value, row: Row, commit: Commit, d: nat)
    requires Inv(m, w) && c in w.wires && d in w.wires && d != c
    requires forall key | key in w.history && key.0 == id :: key.1 < VersionOf(row)
    requires id in w.rows || (Inserting(w.wires[c]) && Get(w.wires[c].statement.data, "id") == id)
    ensures WireOk(m, AfterCommit(w, c, id, row, commit), w.wires[d])
  {
    assert WireOk(m, w, w.wires[d]);
    var v := AfterCommit(w, c, id, row, commit);
    CommitExtends(w, id, row);
    match w.wires[d]
    case Answered(_, _, reply) => StillReplies(m, w.history, v.history, reply);
    case Sent(_, _, basis, s) =>
      if s.Insert? {
        assert Get(s.data, "id") != id;
      } else if s.Update? && s.id != Null {
        StillRemembers(m, w.history, v.history, basis);
      }
  }

  lemma AfterCommitDistinct(w: World, c: nat, id: Value, row: Row, commit: Commit)
    requires DistinctInserts(w) && c in w.wires
    ensures DistinctInserts(AfterCommit(w, c, id, row, commit))
  {
    var v := AfterCommit(w, c, id, row, commit);
    assert forall d | d in v.wires && Inserting(v.wires[d]) :: d in w.wires && v.wires[d] == w.wires[d];
  }

  /** The call that committed has its answer. */
  lemma OwnWire(m: Model, w: World, c: nat, id: Value, row: Row, commit: Commit)
    requires c in w.wires && FullRow(m, id, row)
    ensures var v := AfterCommit(w, c, id, row, commit); WireOk(m, v, v.wires[c])
  {
    assert KeyOf(row) == (id, VersionOf(row));
  }

  lemma AfterCommitWires(m: Model, w: World, c: nat, id: Value, row: Row, commit: Commit)
    requires Inv(m, w) && Enabled(w, Run(c)) && FullRow(m, id, row)
    requires forall key | key in w.history && key.0 == id :: key.1 < VersionOf(row)
    requires id in w.rows || (Inserting(w.wires[c]) && Get(w.wires[c].statement.data, "id") == id)
    ensures var v := AfterCommit(w, c, id, row, commit);
            (forall d | d in v.wires :: WireOk(m, v, v.wires[d])) && DistinctInserts(v)
  {
    var v := AfterCommit(w, c, id, row, commit);
    OwnWire(m, w, c, id, row, commit);
    forall d | d in v.wires ensures WireOk(m, v, v.wires[d]) {
      if d != c {
        assert v.wires[d] == w.wires[d];
        OtherWires(m, w, c, id, row, commit, d);
      }
    }
    AfterCommitDistinct(w, c, id, row, commit);
  }

  lemma AfterCommitInstances(m: Model, w: World, id: Value, row: Row)
    requires Inv(m, w)
    requires forall key | key in w.history && key.0 == id :: key.1 < VersionOf(row)
    ensures forall h | h in w.insts :: InstanceOk(m, Committed(w, id, row).history, w.insts[h])
  {
    CommitExtends(w, id, row);
    forall h | h in w.insts ensures InstanceOk(m, Committed(w, id, row).history, w.insts[h]) {
      assert InstanceOk(m, w.history, w.insts[h]);
      StillRemembers(m, w.history, Committed(w, id, row).history, w.insts[h].original);
    }
  }

  lemma SameStore(m: Model, w: World, v: World)
    requires TableOk(m, w.rows) && HistoryOk(m, w)
    requires v.rows == w.rows && v.history == w.history && v.used == w.used
    ensures TableOk(m, v.rows) && HistoryOk(m, v)
  {
  }

  lemma AfterCommitKeeps(m: Model, w: World, c: nat, id: Value, row: Row, commit: Commit)
    requires Inv(m, w) && Enabled(w, Run(c)) && FullRow(m, id, row) && id in w.used
    requires forall key | key in w.history && key.0 == id :: key.1 < VersionOf(row)
    requires id in w.rows || (Inserting(w.wires[c]) && Get(w.wires[c].statement.data, "id") == id)
    ensures Inv(m, AfterCommit(w, c, id, row, commit))
  {
    CommitKeeps(m, w, id, row);
    AfterCommitWires(m, w, c, id, row, commit);
    AfterCommitInstances(m, w, id, row);
    SameStore(m, Committed(w, id, row), AfterCommit(w, c, id, row, commit));
  }

  lemma FewerRows(m: Model, w: World, v: World)
    requires TableOk(m, w.rows) && HistoryOk(m, w) && v.history == w.history && v.used == w.used
    requires v.rows.Keys <= w.rows.Keys && forall id | id in v.rows :: v.rows[id] == w.rows[id]
    ensures TableOk(m, v.rows) && HistoryOk(m, v)
  {
  }

  /** A statement that returns no row leaves table and history alone, or removes a row. */
  lemma QuietKeeps(m: Model, w: World, c: nat, rows: Rows, reply: Reply, log: seq<Commit>)
    requires Inv(m, w) && c in w.wires && !reply.Returned?
    requires rows.Keys <= w.rows.Keys && forall id | id in rows :: rows[id] == w.rows[id]
    ensures Inv(m, w.(rows := rows, log := log,
                      wires := w.wires[c := Answered(w.wires[c].owner, w.wires[c].purpose, reply)]))
  {
    var v := w.(rows := rows, log := log,
                wires := w.wires[c := Answered(w.wires[c].owner, w.wires[c].purpose, reply)]);
    forall d | d in v.wires ensures WireOk(m, v, v.wires[d]) {
      assert WireOk(m, w, w.wires[d]);
    }
    assert DistinctInserts(v) by {
      assert forall d | d in v.wires && Inserting(v.wires[d]) :: v.wires[d] == w.wires[d];
    }
    FewerRows(m, w, v);
  }

  lemma InsertRunKeeps(m: Model, w: World, c: nat)
    requires ValidModel(m) && Inv(m, w) && Enabled(w, Run(c)) && w.wires[c].statement.Insert?
    ensures Inv(m, Ran(m, w, c))
  {
    var data := w.wires[c].statement.data;
    var id := Get(data, "id");
    assert WireOk(m, w, w.wires[c]);
    InsertedIsFull(m, data);
    AfterCommitKeeps(m, w, c, id, Inserted(m, data), Created(id, data));
  }

  /** A version that lets the update through is the newest of its row, and the update makes the next one. */
  lemma UpdateMakesNext(m: Model, w: World, wire: Wire)
    requires ValidModel(m) && Inv(m, w) && WireOk(m, w, wire) && wire.Sent? && wire.statement.Update?
    requires Execute(m, w.rows, wire.statement).1.Returned?
    ensures var s := wire.statement;
            var row := w.rows[s.id] + s.data;
            && FullRow(m, s.id, row) && s.id in w.used
            && (forall key | key in w.history && key.0 == s.id :: key.1 < VersionOf(row))
  {
    var s := wire.statement;
    UpdatedIsFull(m, s.id, w.rows[s.id], s.data);
    assert (s.id, VersionOf(w.rows[s.id])) in w.history;
  }

  lemma UpdateRunKeeps(m: Model, w: World, c: nat)
    requires ValidModel(m) && Inv(m, w) && Enabled(w, Run(c)) && w.wires[c].statement.Update?
    ensures Inv(m, Ran(m, w, c))
  {
    var wire := w.wires[c];
    var s := wire.statement;
    assert WireOk(m, w, wire);
    if Execute(m, w.rows, s).1.Returned? {
      UpdateMakesNext(m, w, wire);
      AfterCommitKeeps(m, w, c, s.id, w.rows[s.id] + s.data, Updated(s.id, wire.basis, s.data));
    } else {
      QuietKeeps(m, w, c, w.rows, Refused, w.log);
    }
  }

  lemma OtherRunKeeps(m: Model, w: World, c: nat)
    requires ValidModel(m) && Inv(m, w) && Enabled(w, Run(c))
    requires w.wires[c].statement.Nothing? || w.wires[c].statement.Delete?
    ensures Inv(m, Ran(m, w, c))
  {
    var v := Ran(m, w, c);
    QuietKeeps(m, w, c, v.rows, Silent, v.log);
  }

  lemma StepKeeps(m: Model, w: World, e: Event)
    requires ValidModel(m) && Inv(m, w) && Enabled(w, e)
    ensures Inv(m, Next(m, w, e))
  {
    match e
    case SendSave(_, _, _, _) => SendKeeps(m, w, e);
    case SendDelete(_, _, _, _) => SendKeeps(m, w, e);
    case Run(c) =>
      if w.wires[c].statement.Insert? {
        InsertRunKeeps(m, w, c);
      } else if w.wires[c].statement.Update? {
        UpdateRunKeeps(m, w, c);
      } else {
        OtherRunKeeps(m, w, c);
      }
    case Receive(c) => ReceiveKeeps(m, w, c);
    case _ => LocalStepKeeps(m, w, e);
  }
}
