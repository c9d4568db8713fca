/** The record base class: instances that remember what they loaded, and a table they save to. */
module BaseModel {
  import opened Collections

  type Field = string

  /** A column value; a property that is absent reads as null. */
  datatype Value = Null | Num(n: int) | Text(s: string)

  type Row = map<Field, Value>

  function Get(row: Row, key: Field): Value {
    if key in row then row[key] else Null
  }

  /** `a || b` */
  function Or(a: Value, b: Value): Value {
    if a == Null || a == Num(0) || a == Text("") then b else a
  }

  /** `a + 1` */
  function Successor(a: Value): Value {
    match a
    case Null => Num(1)
    case Num(n) => Num(n + 1)
    case Text(s) => Text(s + "1")
  }

  function Restrict(row: Row, keys: set<Field>): Row {
    map k | k in row && k in keys :: row[k]
  }

  /** The static configuration of a model class, with timestamps and optimistic locking on. */
  datatype Model = Model(
    columns: set<Field>,
    fields: set<Field>,
    guarded: set<Field>,
    softDelete: bool,
    softDeleteColumn: Field,
    cast: (Field, Value) -> Value
  )

  /** Fields are columns, the id is one, and mass assignment cannot reach the id or the version. */
  ghost predicate ValidModel(m: Model) {
    && {"id", "version", "created_at", "updated_at"} <= m.columns && m.fields <= m.columns
    && "id" in m.fields && {"id", "version"} <= m.guarded
    && (m.softDelete ==> {m.softDeleteColumn, "deleted_by"} <= m.columns && m.softDeleteColumn !in {"id", "version"})
    && (forall v :: m.cast("id", v) == v && m.cast("version", v) == v)
  }

  // ---------- Instances ----------

  datatype Instance = Instance(persisted: bool, original: Row, attrs: Row, dirty: set<Field>)

  /** `_castValue` on every column. */
  function Cast(m: Model, row: Row): Row {
    map k | k in row :: m.cast(k, row[k])
  }

  /** The entries of `data` that `fill` takes. */
  function Accepted(m: Model, data: Row): set<Field> {
    set k | k in data && k !in m.guarded && k in m.fields
  }

  function Filled(m: Model, i: Instance, data: Row): Instance {
    var keys := Accepted(m, data);
    i.(attrs := i.attrs + Cast(m, Restrict(data, keys)), dirty := i.dirty + keys)
  }

  /** A row that came back from the database replaces what the instance remembered. */
  function Absorbed(m: Model, i: Instance, row: Row): Instance {
    Instance(i.persisted, i.original + row, i.attrs + Cast(m, row), {})
  }

  function Blank(): Instance {
    Instance(false, map[], map[], {})
  }

  /** An instance made of a stored row. */
  function Hydrated(m: Model, row: Row): Instance {
    Absorbed(m, Blank(), row).(persisted := true)
  }

  function DirtyData(i: Instance): Row {
    map k | k in i.dirty :: Get(i.attrs, k)
  }

  // ---------- Statements ----------

  /** What is sent to the database. */
  datatype Statement =
    | Nothing
    | Insert(data: Row)
    | Update(id: Value, expected: Value, data: Row)
    | Delete(id: Value)

  function CreateStatement(m: Model, data: Row, now: Value, newId: Value): Statement {
    var stamped := data["created_at" := now]["updated_at" := now];
    var id := Or(Get(stamped, "id"), newId);
    Insert(stamped["id" := id]["version" := Num(1)])
  }

  function UpdateStatement(i: Instance, data: Row, now: Value): Statement {
    if data == map[] then Nothing else
    var version := Get(i.attrs, "version");
    Update(Get(i.attrs, "id"),
           Or(Get(i.original, "version"), Or(version, Num(0))),
           data["updated_at" := now]["version" := Successor(Or(version, Num(0)))])
  }

  function SaveStatement(m: Model, i: Instance, now: Value, newId: Value): Statement {
    if i.persisted then UpdateStatement(i, DirtyData(i), now) else CreateStatement(m, DirtyData(i), now, newId)
  }

  function DeleteStatement(m: Model, i: Instance, now: Value, actor: Value): Statement {
    if m.softDelete
    then UpdateStatement(i, map[m.softDeleteColumn := now, "deleted_by" := actor, "updated_at" := now], now)
    else Delete(Get(i.attrs, "id"))
  }

  // ---------- Filling and absorbing, one entry at a time ----------

  ghost function Advance(row: Row, done: Row, todo: set<Field>, key: Field): (r: Row)
    requires Progress(row, done, todo) && key in todo
    ensures r == done[key := row[key]] && key !in done && Progress(row, r, todo - {key})
  {
    done[key := row[key]]
  }

  lemma AddNothing(a: Row)
    ensures a + map[] == a
  {
  }

  lemma CastOneMore(m: Model, row: Row, key: Field, value: Value)
    ensures Cast(m, row[key := value]) == Cast(m, row)[key := m.cast(key, value)]
  {
  }

  lemma AddOneMore(a: Row, b: Row, key: Field, value: Value)
    ensures a + b[key := value] == (a + b)[key := value]
  {
  }

  lemma FilledNothing(m: Model, i: Instance)
    ensures Filled(m, i, map[]) == i
  {
    assert Accepted(m, map[]) == {};
    assert i.attrs + Cast(m, Restrict(map[], {})) == i.attrs;
  }

  function Assigned(m: Model, i: Instance, key: Field, value: Value): Instance {
    if key in m.guarded || key !in m.fields then i
    else i.(attrs := i.attrs[key := m.cast(key, value)], dirty := i.dirty + {key})
  }

  lemma FilledOneMore(m: Model, i: Instance, data: Row, key: Field, value: Value)
    requires key !in data
    ensures Filled(m, i, data[key := value]) == Assigned(m, Filled(m, i, data), key, value)
  {
    var more, keys := data[key := value], Accepted(m, data);
    var taken := Restrict(data, keys);
    if key !in m.guarded && key in m.fields {
      assert Accepted(m, more) == keys + {key};
      assert Restrict(more, keys + {key}) == taken[key := value];
      CastOneMore(m, taken, key, value);
      AddOneMore(i.attrs, Cast(m, taken), key, m.cast(key, value));
    } else {
      assert Accepted(m, more) == keys;
      assert Restrict(more, keys) == taken;
    }
  }

  // ---------- The table ----------

  type Rows = map<Value, Row>

  datatype Reply = Silent | Returned(row: Row) | Refused

  function Inserted(m: Model, data: Row): Row {
    (map k | k in m.columns :: Null) + data
  }

  /** INSERT and UPDATE return the whole row; a taken key or a failed version check returns none. */
  function Execute(m: Model, rows: Rows, s: Statement): (Rows, Reply) {
    match s
    case Nothing => (rows, Silent)
    case Insert(data) =>
      var id := Get(data, "id");
      if id in rows then (rows, Refused)
      else (rows[id := Inserted(m, data)], Returned(Inserted(m, data)))
    case Update(id, expected, data) =>
      if id in rows && Get(rows[id], "version") == expected
      then (rows[id := rows[id] + data], Returned(rows[id] + data))
      else (rows, Refused)
    case Delete(id) => (rows - {id}, Silent)
  }

  datatype Purpose = Creating | Updating | Deleting

  /** What `save` sets out to do. */
  function SavePurpose(i: Instance): Purpose {
    if i.persisted then Updating else Creating
  }

  /**
   * What the instance makes of a reply: without rows `save` and the soft delete
   * throw. Only a creation makes the instance count as stored, and only a
   * deletion that did not throw makes it count as not stored.
   */
  function Settled(m: Model, purpose: Purpose, i: Instance, reply: Reply): Instance {
    if reply.Refused? then i else
    var j := if reply.Returned? then Absorbed(m, i, reply.row) else i;
    match purpose
    case Creating => j.(persisted := i.persisted || reply.Returned?)
    case Updating => j
    case Deleting => j.(persisted := false)
  }

  // ---------- What the statements do to the table ----------

  /** A row as it is first stored: what was changed, the keys and stamps, and null in every other column. */
  ghost predicate FirstStored(m: Model, i: Instance, row: Row, id: Value, now: Value) {
    && row.Keys == m.columns + i.dirty + {"id", "version", "created_at", "updated_at"}
    && row["id"] == id && row["version"] == Num(1) && row["created_at"] == now && row["updated_at"] == now
    && forall f | f in row && f !in {"id", "version", "created_at", "updated_at"} ::
         row[f] == if f in i.dirty then Get(i.attrs, f) else Null
  }

  /** `(this.version || 0) + 1` */
  ghost function NextVersion(i: Instance): Value {
    Successor(Or(Get(i.attrs, "version"), Num(0)))
  }

  /** A row as it is stored again: what was changed, the stamp and the next version, and all else as before. */
  ghost predicate StoredAgain(i: Instance, before: Row, after: Row, now: Value) {
    && after.Keys == before.Keys + i.dirty + {"version", "updated_at"}
    && after["updated_at"] == now && after["version"] == NextVersion(i)
    && forall f | f in after && f !in {"version", "updated_at"} ::
         if f in i.dirty then after[f] == Get(i.attrs, f) else f in before && after[f] == before[f]
  }

  /** A row that has been marked as deleted, and is otherwise as before. */
  ghost predicate Marked(m: Model, i: Instance, before: Row, after: Row, now: Value, actor: Value) {
    && after.Keys == before.Keys + {m.softDeleteColumn, "deleted_by", "updated_at", "version"}
    && after["updated_at"] == now && after["version"] == NextVersion(i)
    && (m.softDeleteColumn !in {"deleted_by", "version"} ==> after[m.softDeleteColumn] == now)
    && after["deleted_by"] == actor
    && forall f | f in before && f !in {m.softDeleteColumn, "deleted_by", "updated_at", "version"} ::
         after[f] == before[f]
  }

  /** The version that a statement checks: the one remembered, or the attribute, or zero. */
  ghost function CheckedVersion(i: Instance): Value {
    Or(Get(i.original, "version"), Or(Get(i.attrs, "version"), Num(0)))
  }

  /** The row is there, under the version that the instance remembers. */
  ghost predicate Current(i: Instance, rows: Rows) {
    Get(i.attrs, "id") in rows && Get(rows[Get(i.attrs, "id")], "version") == CheckedVersion(i)
  }

  /** The id that a new row gets: one that was set, or the generated one. */
  ghost function NewId(i: Instance, newId: Value): Value {
    if "id" in i.dirty && Get(i.attrs, "id") !in {Null, Num(0), Text("")} then Get(i.attrs, "id") else newId
  }

  /** The instance has taken over the row. */
  ghost predicate TookOver(m: Model, before: Instance, after: Instance, row: Row) {
    && after.dirty == {}
    && (forall f | f in row :: f in after.attrs && after.attrs[f] == m.cast(f, row[f])
                               && f in after.original && after.original[f] == row[f])
    && (forall f | f !in row :: (f in after.attrs <==> f in before.attrs)
                                && (f in after.attrs ==> after.attrs[f] == before.attrs[f])
                                && (f in after.original <==> f in before.original)
                                && (f in after.original ==> after.original[f] == before.original[f]))
  }

  /** The instance has taken in what may be filled, cast and marked, and nothing else. */
  ghost predicate TookIn(m: Model, before: Instance, after: Instance, data: Row) {
    && after.persisted == before.persisted && after.original == before.original
    && (forall f :: f in after.dirty <==> f in before.dirty || (f in data && f in m.fields && f !in m.guarded))
    && (forall f | f in data && f in m.fields && f !in m.guarded ::
          f in after.attrs && after.attrs[f] == m.cast(f, data[f]))
    && (forall f | !(f in data && f in m.fields && f !in m.guarded) ::
          (f in after.attrs <==> f in before.attrs) && (f in after.attrs ==> after.attrs[f] == before.attrs[f]))
  }

  lemma FilledTookIn(m: Model, i: Instance, data: Row)
    ensures TookIn(m, i, Filled(m, i, data), data)
  {
    assert Restrict(data, Accepted(m, data)).Keys == Accepted(m, data);
  }

  lemma AbsorbedTookOver(m: Model, i: Instance, row: Row)
    ensures TookOver(m, i, Absorbed(m, i, row), row)
  {
  }

  /** What an INSERT sends. */
  ghost predicate Sends(i: Instance, data: Row, id: Value, now: Value) {
    && data.Keys == i.dirty + {"id", "version", "created_at", "updated_at"}
    && data["id"] == id && data["version"] == Num(1) && data["created_at"] == now && data["updated_at"] == now
    && forall f | f in i.dirty && f !in {"id", "version", "created_at", "updated_at"} :: data[f] == Get(i.attrs, f)
  }

  lemma CreateSends(m: Model, i: Instance, now: Value, newId: Value)
    ensures Sends(i, CreateStatement(m, DirtyData(i), now, newId).data, NewId(i, newId), now)
  {
    assert DirtyData(i).Keys == i.dirty;
  }

  lemma InsertedIsFirstStored(m: Model, i: Instance, data: Row, id: Value, now: Value)
    requires Sends(i, data, id, now)
    ensures FirstStored(m, i, Inserted(m, data), id, now)
  {
    assert Inserted(m, data).Keys == m.columns + data.Keys;
  }

  lemma CreatedRow(m: Model, i: Instance, now: Value, newId: Value)
    ensures var data := CreateStatement(m, DirtyData(i), now, newId).data;
            Get(data, "id") == NewId(i, newId) && FirstStored(m, i, Inserted(m, data), NewId(i, newId), now)
  {
    CreateSends(m, i, now, newId);
    InsertedIsFirstStored(m, i, CreateStatement(m, DirtyData(i), now, newId).data, NewId(i, newId), now);
  }

  /** What an UPDATE sends. */
  ghost predicate SendsAgain(i: Instance, data: Row, now: Value) {
    && data.Keys == i.dirty + {"version", "updated_at"}
    && data["version"] == NextVersion(i) && data["updated_at"] == now
    && forall f | f in i.dirty && f !in {"version", "updated_at"} :: data[f] == Get(i.attrs, f)
  }

  lemma UpdateSends(i: Instance, now: Value)
    requires i.dirty != {}
    ensures var s := UpdateStatement(i, DirtyData(i), now);
            s.Update? && s.id == Get(i.attrs, "id") && s.expected == CheckedVersion(i) && SendsAgain(i, s.data, now)
  {
    var f :| f in i.dirty;
    assert DirtyData(i).Keys == i.dirty && f in DirtyData(i);
  }

  lemma SentIsStoredAgain(i: Instance, before: Row, data: Row, now: Value)
    requires SendsAgain(i, data, now)
    ensures StoredAgain(i, before, before + data, now)
  {
    assert (before + data).Keys == before.Keys + data.Keys;
  }

  lemma UpdatedRow(i: Instance, before: Row, now: Value)
    requires i.dirty != {}
    ensures var s := UpdateStatement(i, DirtyData(i), now);
            && s.Update? && s.id == Get(i.attrs, "id") && s.expected == CheckedVersion(i)
            && StoredAgain(i, before, before + s.data, now)
  {
    UpdateSends(i, now);
    SentIsStoredAgain(i, before, UpdateStatement(i, DirtyData(i), now).data, now);
  }

  lemma MarkedRow(m: Model, i: Instance, before: Row, now: Value, actor: Value)
    requires m.softDelete
    ensures var s := DeleteStatement(m, i, now, actor);
            && s.Update? && s.id == Get(i.attrs, "id") && s.expected == CheckedVersion(i)
            && Marked(m, i, before, before + s.data, now, actor)
  {
    assert "updated_at" in map[m.softDeleteColumn := now, "deleted_by" := actor, "updated_at" := now];
  }

  /** What the statement of a save does to the table, and what comes back. */
  ghost predicate Stores(m: Model, i: Instance, rows: Rows, now: Value, newId: Value, rows': Rows, reply: Reply) {
    var id := if i.persisted then Get(i.attrs, "id") else NewId(i, newId);
    if i.persisted && i.dirty == {} then rows' == rows && reply == Silent
    else if if i.persisted then Current(i, rows) else id !in rows
    then && id in rows' && rows' == rows[id := rows'[id]] && reply == Returned(rows'[id])
         && (i.persisted ==> StoredAgain(i, rows[id], rows'[id], now))
         && (!i.persisted ==> FirstStored(m, i, rows'[id], id, now))
    else rows' == rows && reply == Refused
  }

  /** What the statement of a delete does to the table, and what comes back. */
  ghost predicate Erases(m: Model, i: Instance, rows: Rows, now: Value, actor: Value, rows': Rows, reply: Reply) {
    var id := Get(i.attrs, "id");
    if !m.softDelete then rows' == rows - {id} && reply == Silent
    else if Current(i, rows)
    then && id in rows' && rows' == rows[id := rows'[id]] && reply == Returned(rows'[id])
         && Marked(m, i, rows[id], rows'[id], now, actor)
    else rows' == rows && reply == Refused
  }

  lemma CreateStores(m: Model, i: Instance, rows: Rows, now: Value, newId: Value)
    requires !i.persisted
    ensures var (rows', reply) := Execute(m, rows, SaveStatement(m, i, now, newId));
            Stores(m, i, rows, now, newId, rows', reply)
  {
    CreatedRow(m, i, now, newId);
  }

  lemma UpdateStores(m: Model, i: Instance, rows: Rows, now: Value, newId: Value)
    requires i.persisted && i.dirty != {}
    ensures var (rows', reply) := Execute(m, rows, SaveStatement(m, i, now, newId));
            Stores(m, i, rows, now, newId, rows', reply)
  {
    UpdatedRow(i, if Current(i, rows) then rows[Get(i.attrs, "id")] else map[], now);
  }

  lemma NothingToSave(m: Model, i: Instance, rows: Rows, now: Value, newId: Value)
    requires i.persisted && i.dirty == {}
    ensures Execute(m, rows, SaveStatement(m, i, now, newId)) == (rows, Silent)
  {
    assert DirtyData(i) == map[];
  }

  lemma SaveStores(m: Model, i: Instance, rows: Rows, now: Value, newId: Value)
    ensures var (rows', reply) := Execute(m, rows, SaveStatement(m, i, now, newId));
            Stores(m, i, rows, now, newId, rows', reply)
  {
    if !i.persisted {
      CreateStores(m, i, rows, now, newId);
    } else if i.dirty == {} {
      NothingToSave(m, i, rows, now, newId);
    } else {
      UpdateStores(m, i, rows, now, newId);
    }
  }

  /** An unsaved instance is stored under a new id, unless that id is taken. */
  ghost predicate SavedNew(m: Model, i: Instance, rows: Rows, now: Value, newId: Value,
                          i': Instance, rows': Rows, ok: bool)
  {
    var id := NewId(i, newId);
    if id in rows then !ok && rows' == rows && i' == i
    else && ok && i'.persisted && id in rows' && rows' == rows[id := rows'[id]]
         && FirstStored(m, i, rows'[id], id, now) && TookOver(m, i, i', rows'[id])
  }

  /** A changed instance is stored again, unless its row is not what it remembers. */
  ghost predicate SavedAgain(m: Model, i: Instance, rows: Rows, now: Value, i': Instance, rows': Rows, ok: bool) {
    var id := Get(i.attrs, "id");
    if Current(i, rows)
    then && ok && i'.persisted && id in rows' && rows' == rows[id := rows'[id]]
         && StoredAgain(i, rows[id], rows'[id], now) && TookOver(m, i, i', rows'[id])
    else !ok && rows' == rows && i' == i
  }

  /** The row is gone, or marked; then the instance counts as stored no longer. */
  ghost predicate Erased(m: Model, i: Instance, rows: Rows, now: Value, actor: Value,
                          i': Instance, rows': Rows, ok: bool)
  {
    var id := Get(i.attrs, "id");
    if !m.softDelete then ok && rows' == rows - {id} && i' == i.(persisted := false)
    else if Current(i, rows)
    then && ok && !i'.persisted && id in rows' && rows' == rows[id := rows'[id]]
         && Marked(m, i, rows[id], rows'[id], now, actor) && TookOver(m, i, i', rows'[id])
    else !ok && rows' == rows && i' == i
  }

  lemma SaveCreates(m: Model, i: Instance, rows: Rows, now: Value, newId: Value)
    requires !i.persisted
    ensures var (rows', reply) := Execute(m, rows, SaveStatement(m, i, now, newId));
            SavedNew(m, i, rows, now, newId, Settled(m, Creating, i, reply), rows', !reply.Refused?)
  {
    CreateStores(m, i, rows, now, newId);
    var reply := Execute(m, rows, SaveStatement(m, i, now, newId)).1;
    if reply.Returned? {
      AbsorbedTookOver(m, i, reply.row);
    }
  }

  lemma SaveUpdates(m: Model, i: Instance, rows: Rows, now: Value, newId: Value)
    requires i.persisted && i.dirty != {}
    ensures var (rows', reply) := Execute(m, rows, SaveStatement(m, i, now, newId));
            SavedAgain(m, i, rows, now, Settled(m, Updating, i, reply), rows', !reply.Refused?)
  {
    UpdateStores(m, i, rows, now, newId);
    var reply := Execute(m, rows, SaveStatement(m, i, now, newId)).1;
    if reply.Returned? {
      AbsorbedTookOver(m, i, reply.row);
    }
  }

  lemma SaveMeans(m: Model, i: Instance, rows: Rows, now: Value, newId: Value)
    ensures var (rows', reply) := Execute(m, rows, SaveStatement(m, i, now, newId));
            var j := Settled(m, SavePurpose(i), i, reply);
            && (!i.persisted ==> SavedNew(m, i, rows, now, newId, j, rows', !reply.Refused?))
            && (i.persisted && i.dirty != {} ==> SavedAgain(m, i, rows, now, j, rows', !reply.Refused?))
            && (i.persisted && i.dirty == {} ==> !reply.Refused? && rows' == rows && j == i)
  {
    if !i.persisted {
      SaveCreates(m, i, rows, now, newId);
    } else if i.dirty == {} {
      NothingToSave(m, i, rows, now, newId);
    } else {
      SaveUpdates(m, i, rows, now, newId);
    }
  }

  lemma DeleteStores(m: Model, i: Instance, rows: Rows, now: Value, actor: Value)
    ensures var (rows', reply) := Execute(m, rows, DeleteStatement(m, i, now, actor));
            Erases(m, i, rows, now, actor, rows', reply)
  {
    if m.softDelete {
      MarkedRow(m, i, if Current(i, rows) then rows[Get(i.attrs, "id")] else map[], now, actor);
    }
  }

  lemma DeleteMeans(m: Model, i: Instance, rows: Rows, now: Value, actor: Value)
    ensures var (rows', reply) := Execute(m, rows, DeleteStatement(m, i, now, actor));
            Erased(m, i, rows, now, actor, Settled(m, Deleting, i, reply), rows', !reply.Refused?)
  {
    DeleteStores(m, i, rows, now, actor);
    var reply := Execute(m, rows, DeleteStatement(m, i, now, actor)).1;
    if reply.Returned? {
      AbsorbedTookOver(m, i, reply.row);
    }
  }

  class Table {
    const model: Model
    var rows: Rows

    constructor (model: Model)
      ensures this.model == model && rows == map[]
    {
      this.model := model;
      rows := map[];
    }

    /** One query. */
    method Query(s: Statement) returns (reply: Reply)
      modifies this
      ensures (rows, reply) == Execute(model, old(rows), s)
    {
      match s {
        case Nothing =>
          reply := Silent;
        case Insert(data) =>
          var id := Get(data, "id");
          if id in rows {
            reply := Refused;
          } else {
            var row := Inserted(model, data);
            rows := rows[id := row];
            reply := Returned(row);
          }
        case Update(id, expected, data) =>
          if id in rows && Get(rows[id], "version") == expected {
            var row := rows[id] + data;
            rows := rows[id := row];
            reply := Returned(row);
          } else {
            reply := Refused;
          }
        case Delete(id) =>
          rows := rows - {id};
          reply := Silent;
      }
    }
  }

  class Record {
    const model: Model
    var persisted: bool
    var original: Row
    var attrs: Row
    var dirty: set<Field>

    ghost function State(): Instance
      reads this
    {
      Instance(persisted, original, attrs, dirty)
    }

    constructor (model: Model)
      ensures this.model == model && State() == Blank()
    {
      this.model := model;
      persisted, original, attrs, dirty := false, map[], map[], {};
    }

    /** `fill` */
    method Fill(data: Row)
      modifies this
      ensures State() == Filled(model, old(State()), data)
      ensures TookIn(model, old(State()), State(), data)
    {
      var todo := data.Keys;
      ghost var done: Row := map[];
      FilledTookIn(model, State(), data);
      FilledNothing(model, State());
      while todo != {}
        invariant Progress(data, done, todo)
        invariant State() == Filled(model, old(State()), done)
        decreases todo
      {
        var key :| key in todo;
        FilledOneMore(model, old(State()), done, key, data[key]);
        done := Advance(data, done, todo, key);
        todo := todo - {key};
        if key !in model.guarded && key in model.fields {
          attrs := attrs[key := model.cast(key, data[key])];
          dirty := dirty + {key};
        }
      }
    }

    /**
     * The loop that `_hydrate`, `_performCreate` and `_performUpdate` run over a
     * returned row; whether the instance counts as stored is for them to say.
     */
    method Absorb(row: Row)
      modifies this
      ensures State() == Absorbed(model, old(State()), row)
      ensures persisted == old(persisted) && TookOver(model, old(State()), State(), row)
    {
      AbsorbedTookOver(model, State(), row);
      var todo := row.Keys;
      ghost var done: Row := map[];
      AddNothing(original);
      AddNothing(attrs);
      while todo != {}
        invariant Progress(row, done, todo)
        invariant original == old(original) + done && persisted == old(persisted)
        invariant attrs == old(attrs) + Cast(model, done)
        decreases todo
      {
        var key :| key in todo;
        CastOneMore(model, done, key, row[key]);
        AddOneMore(old(original), done, key, row[key]);
        AddOneMore(old(attrs), Cast(model, done), key, model.cast(key, row[key]));
        done := Advance(row, done, todo, key);
        todo := todo - {key};
        attrs := attrs[key := model.cast(key, row[key])];
        original := original[key := row[key]];
      }
      dirty := {};
    }

    /** `save` when nothing else runs between sending the statement and reading the reply. */
    method Save(table: Table, now: Value, newId: Value) returns (ok: bool)
      requires table.model == model
      modifies this, table
      ensures var s := SaveStatement(model, old(State()), now, newId);
              var (rows, reply) := Execute(model, old(table.rows), s);
              && table.rows == rows && ok == !reply.Refused?
              && State() == Settled(model, SavePurpose(old(State())), old(State()), reply)
      ensures !old(persisted) ==>
                SavedNew(model, old(State()), old(table.rows), now, newId, State(), table.rows, ok)
      ensures old(persisted) && old(dirty) != {} ==>
                SavedAgain(model, old(State()), old(table.rows), now, State(), table.rows, ok)
      ensures old(persisted) && old(dirty) == {} ==> ok && table.rows == old(table.rows) && State() == old(State())
    {
      SaveMeans(model, State(), table.rows, now, newId);
      var creating := !persisted;
      var s := SaveStatement(model, Instance(persisted, original, attrs, dirty), now, newId);
      var reply := table.Query(s);
      if reply.Returned? {
        Absorb(reply.row);
        if creating {
          persisted := true;
        }
      }
      ok := !reply.Refused?;
    }

    /** `delete`, likewise. */
    method Delete(table: Table, now: Value, actor: Value) returns (ok: bool)
      requires table.model == model
      modifies this, table
      ensures var s := DeleteStatement(model, old(State()), now, actor);
              var (rows, reply) := Execute(model, old(table.rows), s);
              table.rows == rows && State() == Settled(model, Deleting, old(State()), reply) && ok == !reply.Refused?
      ensures Erased(model, old(State()), old(table.rows), now, actor, State(), table.rows, ok)
    {
      DeleteMeans(model, State(), table.rows, now, actor);
      var s := DeleteStatement(model, Instance(persisted, original, attrs, dirty), now, actor);
      var reply := table.Query(s);
      if reply.Refused? {
        return false;
      }
      if reply.Returned? {
        Absorb(reply.row);
      }
      persisted := false;
      ok := true;
    }
  }

  /** `_hydrate` */
  method Hydrate(model: Model, row: Row) returns (r: Record)
    ensures fresh(r) && r.model == model && r.State() == Hydrated(model, row)
    ensures r.persisted && r.dirty == {} && r.original == row
    ensures r.attrs.Keys == row.Keys && forall f | f in row :: r.attrs[f] == model.cast(f, row[f])
  {
    r := new Record(model);
    r.Absorb(row);
    r.persisted := true;
  }

  /** What `create` stores: the cast data of every listed field that is not guarded, keys and stamps, and nulls. */
  ghost predicate HoldsData(m: Model, data: Row, row: Row, id: Value, now: Value) {
    && Get(row, "id") == id && Get(row, "version") == Num(1)
    && Get(row, "created_at") == now && Get(row, "updated_at") == now
    && forall f | f in m.columns + m.fields && f !in {"id", "version", "created_at", "updated_at"} ::
         Get(row, f) == if f in data && f in m.fields && f !in m.guarded then m.cast(f, data[f]) else Null
  }

  lemma FirstStoredHoldsData(m: Model, data: Row, row: Row, id: Value, now: Value)
    requires FirstStored(m, Filled(m, Blank(), data), row, id, now)
    ensures HoldsData(m, data, row, id, now)
  {
    var i := Filled(m, Blank(), data);
    assert i.dirty == Accepted(m, data);
    forall f | f in Accepted(m, data) ensures Get(i.attrs, f) == m.cast(f, data[f]) {
      assert f in Cast(m, Restrict(data, Accepted(m, data)));
    }
  }

  /** The generated id, unless an id can be passed in and is. */
  ghost function GivenId(m: Model, data: Row, newId: Value): Value {
    if "id" in data && "id" in m.fields && "id" !in m.guarded && m.cast("id", data["id"]) !in {Null, Num(0), Text("")}
    then m.cast("id", data["id"])
    else newId
  }

  lemma FilledId(m: Model, data: Row, newId: Value)
    ensures NewId(Filled(m, Blank(), data), newId) == GivenId(m, data, newId)
  {
    assert "id" in Accepted(m, data) ==> "id" in Cast(m, Restrict(data, Accepted(m, data)));
  }

  /**
   * `create`, when nothing else runs in between: unless its id is taken, a new
   * row holds what was passed in for every listed field that is not guarded.
   */
  method Create(table: Table, data: Row, now: Value, newId: Value) returns (r: Record, ok: bool)
    modifies table
    ensures var id := GivenId(table.model, data, newId);
            if id in old(table.rows) then !ok && table.rows == old(table.rows)
            else && ok && r.persisted && id in table.rows && table.rows == old(table.rows)[id := table.rows[id]]
                 && HoldsData(table.model, data, table.rows[id], id, now)
    ensures fresh(r)
  {
    r := new Record(table.model);
    r.Fill(data);
    FilledId(table.model, data, newId);
    ok := r.Save(table, now, newId);
    if ok {
      ghost var id := GivenId(table.model, data, newId);
      FirstStoredHoldsData(table.model, data, table.rows[id], id, now);
    }
  }
}
