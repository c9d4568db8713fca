/** Point-of-sale roles: permissions copied from the parent at creation, and the walk up the parents. */
module PosRole {
  import opened Collections
  import opened Permissions
  import opened Wrappers

  datatype Role = Role(parent: Option<string>, permissions: seq<string>, inherited: seq<string>)

  type Table = map<string, Role>

  /** A parent id that counts: neither null nor empty. */
  predicate Truthy(id: Option<string>) {
    id.Some? && id.value != ""
  }

  // ---------- Ancestors ----------

  /** The role `n` steps up, if the walk gets that far inside the table. */
  ghost function Up(table: Table, id: string, n: nat): Option<string> {
    if n == 0 then (if id in table then Some(id) else None)
    else match Up(table, id, n - 1)
         case None => None
         case Some(a) =>
           if a in table && Truthy(table[a].parent) && table[a].parent.value in table then table[a].parent else None
  }

  lemma {:induction false} UpInTable(table: Table, id: string, n: nat)
    ensures Up(table, id, n).Some? ==> Up(table, id, n).value in table
  {
  }

  ghost predicate Ancestor(table: Table, id: string, a: string) {
    exists n: nat :: Up(table, id, n) == Some(a)
  }

  /** Some role on the way up holds `p`. */
  ghost predicate Holds(table: Table, id: string, p: string) {
    exists a :: Ancestor(table, id, a) && a in table && p in table[a].permissions
  }

  // ---------- getAllPermissions ----------

  /** The visited roles leave nothing above them unvisited. */
  ghost predicate Closed(table: Table, seen: set<string>) {
    forall v | v in seen ::
      v in table && (Truthy(table[v].parent) && table[v].parent.value in table ==> table[v].parent.value in seen)
  }

  lemma {:induction false} ClosedCatches(table: Table, id: string, seen: set<string>, n: nat)
    requires Closed(table, seen) && id in seen
    ensures Up(table, id, n).Some? ==> Up(table, id, n).value in seen
  {
    if n > 0 {
      ClosedCatches(table, id, seen, n - 1);
    }
  }

  ghost predicate HeldIn(table: Table, seen: set<string>, p: string) {
    exists v :: v in seen && v in table && p in table[v].permissions
  }

  lemma SeenIsAll(table: Table, id: string, seen: set<string>)
    requires Closed(table, seen) && id in seen && forall v | v in seen :: Ancestor(table, id, v)
    ensures forall p :: Holds(table, id, p) <==> HeldIn(table, seen, p)
  {
    forall p ensures Holds(table, id, p) <==> HeldIn(table, seen, p) {
      if Holds(table, id, p) {
        var a :| Ancestor(table, id, a) && a in table && p in table[a].permissions;
        var n: nat :| Up(table, id, n) == Some(a);
        ClosedCatches(table, id, seen, n);
      }
    }
  }

  /** Closed but for the role the walk stands on. */
  ghost predicate Closed'(table: Table, seen: set<string>, current: string) {
    forall v | v in seen ::
      v in table && (v != current && Truthy(table[v].parent) && table[v].parent.value in table
                     ==> table[v].parent.value in seen)
  }

  lemma HeldInMore(table: Table, seen: set<string>, v: string)
    requires v in table
    ensures forall p :: HeldIn(table, seen + {v}, p) <==> HeldIn(table, seen, p) || p in table[v].permissions
  {
    forall p ensures HeldIn(table, seen + {v}, p) <==> HeldIn(table, seen, p) || p in table[v].permissions {
      if p in table[v].permissions {
        assert v in seen + {v};
      } else if HeldIn(table, seen, p) {
        var u :| u in seen && u in table && p in table[u].permissions;
        assert u in seen + {v};
      }
    }
  }

  lemma {:induction false} MissingHasNoAncestors(table: Table, id: string, n: nat)
    requires id !in table
    ensures Up(table, id, n) == None
  {
    if n > 0 {
      MissingHasNoAncestors(table, id, n - 1);
    }
  }

  lemma NothingAboveMissing(table: Table, id: string)
    ensures id !in table ==> forall p :: !Holds(table, id, p)
  {
    if id !in table {
      forall n: nat ensures Up(table, id, n) == None {
        MissingHasNoAncestors(table, id, n);
      }
    }
  }

  /**
   * `getAllPermissions`: on every parent graph, with cycles and dangling parents,
   * the walk ends and returns what the roles on the way up hold, or just `*`.
   */
  method GetAllPermissions(table: Table, roleId: string) returns (permissions: seq<string>)
    ensures roleId !in table ==> permissions == []
    ensures Holds(table, roleId, "*") ==> permissions == ["*"]
    ensures !Holds(table, roleId, "*") ==> forall p :: p in permissions <==> Holds(table, roleId, p)
  {
    NothingAboveMissing(table, roleId);
    if roleId !in table {
      return [];
    }
    permissions := table[roleId].permissions;
    assert Up(table, roleId, 0) == Some(roleId);
    if STAR in permissions {
      assert Ancestor(table, roleId, roleId);
      return [STAR];
    }
    var parentId := table[roleId].parent;
    var visited := {roleId};
    ghost var current, steps: nat := roleId, 0;
    while Truthy(parentId) && parentId.value !in visited
      invariant roleId in visited && current in visited && visited <= table.Keys
      invariant parentId == table[current].parent && Up(table, roleId, steps) == Some(current)
      invariant Closed'(table, visited, current)
      invariant forall v | v in visited :: Ancestor(table, roleId, v)
      invariant !HeldIn(table, visited, STAR)
      invariant forall p :: p in permissions <==> HeldIn(table, visited, p)
      decreases table.Keys - visited
    {
      if parentId.value !in table {
        break;
      }
      ghost var before := visited;
      visited := visited + {parentId.value};
      var parent := table[parentId.value];
      steps := steps + 1;
      current := parentId.value;
      assert Up(table, roleId, steps) == Some(current);
      HeldInMore(table, before, current);
      if STAR in parent.permissions {
        assert Ancestor(table, roleId, current);
        return [STAR];
      }
      permissions := Unique(permissions + parent.permissions);
      parentId := parent.parent;
    }
    SeenIsAll(table, roleId, visited);
  }

  /** `hasPermission` finds a granting ancestor exactly when there is one. */
  method HasPermission(table: Table, roleId: string, permission: string) returns (ok: bool)
    ensures ok <==> Holds(table, roleId, "*") || Holds(table, roleId, permission)
  {
    var permissions := GetAllPermissions(table, roleId);
    ok := STAR in permissions || permission in permissions;
  }

  lemma {:induction false} UpAdds(table: Table, id: string, n: nat, a: string, k: nat)
    requires Up(table, id, n) == Some(a)
    ensures Up(table, id, n + k) == Up(table, a, k)
  {
    if k == 0 {
      UpInTable(table, id, n);
    } else {
      UpAdds(table, id, n, a, k - 1);
    }
  }

  /** Whatever an ancestor may do, its descendants may do. */
  lemma DescendantsInherit(table: Table, id: string, a: string, p: string)
    requires Ancestor(table, id, a) && Holds(table, a, p)
    ensures Holds(table, id, p)
  {
    var n: nat :| Up(table, id, n) == Some(a);
    var b :| Ancestor(table, a, b) && b in table && p in table[b].permissions;
    var k: nat :| Up(table, a, k) == Some(b);
    UpAdds(table, id, n, a, k);
    assert Ancestor(table, id, b);
  }

  // ---------- Creating roles ----------

  /** The data of a role about to be inserted, after the `beforeCreate` hook. */
  function HookedData(table: Table, data: Role): Role {
    if Truthy(data.parent) && data.parent.value in table then
      var inherited := table[data.parent.value].permissions;
      Role(data.parent, Unique(inherited + data.permissions), inherited)
    else data
  }

  function Hooked(table: Table, parent: Option<string>, own: seq<string>): Role {
    HookedData(table, Role(parent, own, []))
  }

  /** The data object that `create` passes to its hooks, which change it in place. */
  class Data {
    var parent: Option<string>
    var permissions: seq<string>
    var inherited: seq<string>

    ghost function View(): Role
      reads this
    {
      Role(parent, permissions, inherited)
    }

    constructor (data: Role)
      ensures View() == data
    {
      parent, permissions, inherited := data.parent, data.permissions, data.inherited;
    }

    /** The `beforeCreate` hook. */
    method BeforeCreate(table: Table)
      modifies this
      ensures View() == HookedData(table, old(View())) && parent == old(parent)
      ensures var found := parent.Some? && parent.value != "" && parent.value in table;
              && (forall p :: p in permissions <==>
                    p in old(permissions) || (found && p in table[parent.value].permissions))
              && (found ==> inherited == table[parent.value].permissions && Distinct(permissions)
                            && Unique(inherited) <= permissions)
              && (!found ==> permissions == old(permissions) && inherited == old(inherited))
    {
      if Truthy(parent) && parent.value in table {
        UniqueKeepsOrder(table[parent.value].permissions, permissions);
      }
      if Truthy(parent) && parent.value in table {
        var parentPermissions := table[parent.value].permissions;
        permissions := Unique(parentPermissions + permissions);
        inherited := parentPermissions;
      }
    }
  }

  lemma HookedHolds(table: Table, parent: Option<string>, own: seq<string>)
    ensures var role, found := Hooked(table, parent, own), parent.Some? && parent.value != "" && parent.value in table;
            && role.parent == parent && role.inherited == (if found then table[parent.value].permissions else [])
            && forall p :: p in role.permissions <==> p in own || (found && p in table[parent.value].permissions)
  {
  }

  datatype Creation = Creation(id: string, parent: Option<string>, own: seq<string>)

  function Create(table: Table, c: Creation): Table {
    table[c.id := Hooked(table, c.parent, c.own)]
  }

  /** A generated id: not empty, not taken, and not mentioned by any role yet. */
  ghost predicate Fresh(table: Table, c: Creation) {
    c.id != "" && c.id !in table && c.parent != Some(c.id) && forall r | r in table :: table[r].parent != Some(c.id)
  }

  function Built(history: seq<Creation>): Table
    decreases |history|
  {
    if history == [] then map[] else Create(Built(history[..|history| - 1]), history[|history| - 1])
  }

  ghost predicate Legal(history: seq<Creation>)
    decreases |history|
  {
    history == [] || (Legal(history[..|history| - 1])
                      && Fresh(Built(history[..|history| - 1]), history[|history| - 1]))
  }

  /** `child` names `parent`, a role of the table, as its parent. */
  ghost predicate Under(table: Table, child: string, parent: string) {
    child in table && parent in table && Truthy(table[child].parent) && table[child].parent.value == parent
  }

  ghost predicate Contains(big: seq<string>, small: seq<string>) {
    forall p | p in small :: p in big
  }

  /** Every role stores at least what its parent stores. */
  ghost predicate Flattened(table: Table) {
    forall child, parent | Under(table, child, parent) :: Contains(table[child].permissions, table[parent].permissions)
  }

  /** No role is its own ancestor. */
  ghost predicate Acyclic(table: Table) {
    forall id, n: nat | n > 0 :: Up(table, id, n) != Some(id)
  }

  /**
   * A creation keeps the table flattened exactly when each role that already
   * names the new id as its parent holds all of the new role's permissions.
   */
  lemma CreateKeepsFlattenedIff(table: Table, c: Creation)
    requires Flattened(table) && c.id !in table && c.id != "" && c.parent != Some(c.id)
    ensures Flattened(Create(table, c)) <==>
              forall r | r in table && table[r].parent == Some(c.id) ::
                Contains(table[r].permissions, Hooked(table, c.parent, c.own).permissions)
  {
    var after := Create(table, c);
    if Flattened(after) {
      forall r | r in table && table[r].parent == Some(c.id)
        ensures Contains(table[r].permissions, Hooked(table, c.parent, c.own).permissions)
      {
        assert Under(after, r, c.id);
      }
    }
    if forall r | r in table && table[r].parent == Some(c.id) ::
         Contains(table[r].permissions, Hooked(table, c.parent, c.own).permissions)
    {
      forall child, parent | Under(after, child, parent)
        ensures Contains(after[child].permissions, after[parent].permissions)
      {
        if child != c.id && parent != c.id {
          assert Under(table, child, parent);
        }
      }
    }
  }

  /** A fresh role is nobody's ancestor but its own, and changes nobody else's. */
  lemma {:induction false} UpAfterCreate(table: Table, c: Creation, id: string, n: nat)
    requires Fresh(table, c)
    ensures id != c.id ==> Up(Create(table, c), id, n) == Up(table, id, n)
    ensures id == c.id && n > 0 ==> Up(Create(table, c), id, n) != Some(c.id)
  {
    if n > 0 {
      UpAfterCreate(table, c, id, n - 1);
      UpInTable(table, id, n - 1);
      UpInTable(Create(table, c), id, n - 1);
    }
  }

  lemma {:induction false} BuiltIsFlattened(history: seq<Creation>)
    requires Legal(history)
    ensures Flattened(Built(history)) && Acyclic(Built(history))
    decreases |history|
  {
    if history != [] {
      var before, c := history[..|history| - 1], history[|history| - 1];
      BuiltIsFlattened(before);
      CreateKeepsFlattenedIff(Built(before), c);
      forall id, n: nat | n > 0 ensures Up(Built(history), id, n) != Some(id) {
        UpAfterCreate(Built(before), c, id, n);
      }
    } else {
      forall id, n: nat | n > 0 ensures Up(map[], id, n) != Some(id) {
        MissingHasNoAncestors(map[], id, n);
      }
    }
  }

  lemma {:induction false} AncestorsAreContained(table: Table, id: string, n: nat, a: string)
    requires Flattened(table) && Up(table, id, n) == Some(a)
    ensures id in table && a in table && Contains(table[id].permissions, table[a].permissions)
  {
    if n > 0 {
      var b := Up(table, id, n - 1).value;
      AncestorsAreContained(table, id, n - 1, b);
      assert Under(table, b, a);
    }
  }

  /** In a flattened table the stored permissions are the effective ones. */
  lemma StoredIsEffective(table: Table, id: string)
    requires Flattened(table) && id in table
    ensures forall p :: Holds(table, id, p) <==> p in table[id].permissions
  {
    forall p ensures Holds(table, id, p) <==> p in table[id].permissions {
      if Holds(table, id, p) {
        var a :| Ancestor(table, id, a) && a in table && p in table[a].permissions;
        var n: nat :| Up(table, id, n) == Some(a);
        AncestorsAreContained(table, id, n, a);
      }
      if p in table[id].permissions {
        assert Up(table, id, 0) == Some(id);
        assert Ancestor(table, id, id);
      }
    }
  }

  /** After any history of creations the walk returns what each role stores, or just `*`. */
  lemma FlatteningAgreesWithTheWalk(history: seq<Creation>, id: string)
    requires Legal(history) && id in Built(history)
    ensures Flattened(Built(history)) && Acyclic(Built(history))
    ensures forall p :: Holds(Built(history), id, p) <==> p in Built(history)[id].permissions
  {
    BuiltIsFlattened(history);
    StoredIsEffective(Built(history), id);
  }

  // ---------- Changing roles ----------

  lemma ParentIsAncestor(table: Table, child: string, parent: string)
    requires Under(table, child, parent)
    ensures Ancestor(table, child, parent)
  {
    assert Up(table, child, 0) == Some(child);
    assert Up(table, child, 1) == Some(parent);
  }

  ghost predicate Effective(table: Table, id: string)
    requires id in table
  {
    forall p :: Holds(table, id, p) <==> p in table[id].permissions
  }

  /** The walk finds what is stored, for every role, exactly when the table is flattened. */
  lemma StoredIsEffectiveIff(table: Table)
    ensures (forall id | id in table :: Effective(table, id)) <==> Flattened(table)
  {
    if Flattened(table) {
      forall id | id in table ensures Effective(table, id) {
        StoredIsEffective(table, id);
      }
    }
    if forall id | id in table :: Effective(table, id) {
      forall child, parent | Under(table, child, parent)
        ensures Contains(table[child].permissions, table[parent].permissions)
      {
        ParentIsAncestor(table, child, parent);
        assert Effective(table, child);
        assert forall p | p in table[parent].permissions :: Holds(table, child, p);
      }
    }
  }

  /** The role holds what its new parent holds, and the roles below it hold what it holds. */
  ghost predicate FitsIn(table: Table, id: string, role: Role) {
    && (Truthy(role.parent) && role.parent.value != id && role.parent.value in table
        ==> Contains(role.permissions, table[role.parent.value].permissions))
    && forall child | child != id && Under(table, child, id) :: Contains(table[child].permissions, role.permissions)
  }

  /**
   * Saving a stored role runs no hook: a change of its permissions or of its
   * parent keeps the table flattened exactly when it fits in.
   */
  lemma ChangeKeepsFlattenedIff(table: Table, id: string, role: Role)
    requires Flattened(table) && id in table
    ensures Flattened(table[id := role]) <==> FitsIn(table, id, role)
  {
    var after := table[id := role];
    if Flattened(after) {
      if Truthy(role.parent) && role.parent.value != id && role.parent.value in table {
        assert Under(after, id, role.parent.value);
      }
      forall child | child != id && Under(table, child, id)
        ensures Contains(table[child].permissions, role.permissions)
      {
        assert Under(after, child, id);
      }
    }
    if FitsIn(table, id, role) {
      forall child, parent | Under(after, child, parent)
        ensures Contains(after[child].permissions, after[parent].permissions)
      {
        if child != id {
          assert Under(table, child, parent);
        }
      }
    }
  }

  /** A creation with an id that is not taken, or a change of a stored role. */
  datatype Step = Creating(creation: Creation) | Changing(id: string, role: Role)

  predicate Possible(table: Table, s: Step) {
    match s
    case Creating(c) => c.id != "" && c.id !in table && c.parent != Some(c.id)
    case Changing(id, _) => id in table
  }

  function Next(table: Table, s: Step): Table {
    match s
    case Creating(c) => Create(table, c)
    case Changing(id, role) => table[id := role]
  }

  /** A created role holds its own permissions and its parent's, keeps a copy of these, and changes no other role. */
  lemma CreatedHolds(table: Table, c: Creation)
    ensures var after := Next(table, Creating(c));
            var found := c.parent.Some? && c.parent.value != "" && c.parent.value in table;
            && after.Keys == table.Keys + {c.id} && (forall r | r in table && r != c.id :: after[r] == table[r])
            && after[c.id].parent == c.parent
            && after[c.id].inherited == (if found then table[c.parent.value].permissions else [])
            && forall p :: p in after[c.id].permissions <==>
                 p in c.own || (found && p in table[c.parent.value].permissions)
  {
    HookedHolds(table, c.parent, c.own);
  }

  ghost predicate Run(table: Table, steps: seq<Step>)
    decreases |steps|
  {
    steps == [] || (Possible(table, steps[0]) && Run(Next(table, steps[0]), steps[1..]))
  }

  /** In every state of the run the walk finds what each role stores. */
  ghost predicate EffectiveThroughout(table: Table, steps: seq<Step>)
    decreases |steps|
  {
    && (forall id | id in table :: Effective(table, id))
    && (steps == [] || EffectiveThroughout(Next(table, steps[0]), steps[1..]))
  }

  /** A created role asks for nothing but that roles which already name it hold what it holds. */
  ghost predicate StepFits(table: Table, s: Step) {
    match s
    case Creating(c) =>
      forall r | r in table && table[r].parent == Some(c.id) ::
        Contains(table[r].permissions, Hooked(table, c.parent, c.own).permissions)
    case Changing(id, role) => FitsIn(table, id, role)
  }

  ghost predicate StepsFit(table: Table, steps: seq<Step>)
    decreases |steps|
  {
    steps == [] || (StepFits(table, steps[0]) && StepsFit(Next(table, steps[0]), steps[1..]))
  }

  /**
   * Over any run of creations and changes, stored permissions are the effective
   * ones in every state exactly when each step fits in as it is made.
   */
  lemma {:induction false} EffectiveThroughoutIff(table: Table, steps: seq<Step>)
    requires Flattened(table) && Run(table, steps)
    ensures EffectiveThroughout(table, steps) <==> StepsFit(table, steps)
    decreases |steps|
  {
    StoredIsEffectiveIff(table);
    if steps != [] {
      var s := steps[0];
      var next := Next(table, s);
      match s {
        case Creating(c) => CreateKeepsFlattenedIff(table, c);
        case Changing(id, role) => ChangeKeepsFlattenedIff(table, id, role);
      }
      StoredIsEffectiveIff(next);
      if Flattened(next) {
        EffectiveThroughoutIff(next, steps[1..]);
      }
    }
  }

  /** It happens: a role gains a permission and the role below it, stored before, does not. */
  lemma ChangeLeavesChildBehind() returns (table: Table, id: string, role: Role, child: string)
    ensures Flattened(table) && id in table && child in table && !Effective(table[id := role], child)
  {
    table := map["a" := Role(None, [], []), "b" := Role(Some("a"), [], [])];
    id, role, child := "a", Role(None, ["view"], []), "b";
    var after := table[id := role];
    assert Under(after, "b", "a");
    ParentIsAncestor(after, "b", "a");
    assert "view" in after["a"].permissions;
    assert Holds(after, "b", "view");
  }
}
