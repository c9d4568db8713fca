/** Admin roles: permissions inherited over a graph of roles, and group wildcards. */
module AdminRole {
  import opened Collections
  import opened Permissions
  import opened Wrappers

  datatype Role = Role(permissions: seq<string>, inheritsFrom: seq<string>)

  type Table = map<string, Role>

  // ---------- Walks ----------

  /** A walk along `inherits_from` through roles of the table. */
  ghost predicate Walk(table: Table, w: seq<string>) {
    w != [] && w[0] in table && (|w| > 1 ==> w[1] in table[w[0]].inheritsFrom && Walk(table, w[1..]))
  }

  ghost predicate Reaches(table: Table, a: string, b: string) {
    exists w :: Walk(table, w) && w[0] == a && w[|w| - 1] == b
  }

  /** Some role reachable from `id` lists `p`. */
  ghost predicate Holds(table: Table, id: string, p: string) {
    exists a :: Reaches(table, id, a) && a in table && p in table[a].permissions
  }

  lemma {:induction false} WalkInTable(table: Table, w: seq<string>, k: nat)
    requires Walk(table, w) && k < |w|
    ensures w[k] in table
  {
    if k > 0 {
      WalkInTable(table, w[1..], k - 1);
    }
  }

  lemma ReachesSelf(table: Table, a: string)
    requires a in table
    ensures Reaches(table, a, a)
  {
    assert Walk(table, [a]) && [a][|[a]| - 1] == a;
  }

  lemma ReachesStep(table: Table, a: string, b: string, c: string)
    requires a in table && b in table[a].inheritsFrom && Reaches(table, b, c)
    ensures Reaches(table, a, c)
  {
    var w :| Walk(table, w) && w[0] == b && w[|w| - 1] == c;
    var v := [a] + w;
    assert v[1..] == w;
    assert Walk(table, v) && v[|v| - 1] == c;
  }

  lemma {:induction false} ReachesJoin(table: Table, a: string, w: seq<string>, c: string)
    requires Walk(table, w) && w[0] == a && Reaches(table, w[|w| - 1], c)
    ensures Reaches(table, a, c)
    decreases |w|
  {
    if |w| > 1 {
      ReachesJoin(table, w[1], w[1..], c);
      ReachesStep(table, a, w[1], c);
    }
  }

  /** What a role holds is its own list and what the roles it inherits from hold. */
  lemma HoldsStep(table: Table, id: string, p: string)
    requires id in table
    ensures Holds(table, id, p) <==>
              p in table[id].permissions || exists b <- table[id].inheritsFrom :: Holds(table, b, p)
  {
    if Holds(table, id, p) {
      var a :| Reaches(table, id, a) && a in table && p in table[a].permissions;
      var w :| Walk(table, w) && w[0] == id && w[|w| - 1] == a;
      if |w| > 1 {
        assert w[1..][|w[1..]| - 1] == a;
        assert Reaches(table, w[1], a);
        assert Holds(table, w[1], p);
      }
    }
    if p in table[id].permissions {
      ReachesSelf(table, id);
    }
    if exists b <- table[id].inheritsFrom :: Holds(table, b, p) {
      var b :| b in table[id].inheritsFrom && Holds(table, b, p);
      var a :| Reaches(table, b, a) && a in table && p in table[a].permissions;
      ReachesStep(table, id, b, a);
    }
  }

  lemma MissingHoldsNothing(table: Table, id: string)
    requires id !in table
    ensures forall p :: !Holds(table, id, p)
  {
  }

  // ---------- When the recursion ends ----------

  /** The recursion from `id` is at most `depth` calls deep. */
  ghost predicate Settles(table: Table, id: string, depth: nat)
    decreases depth
  {
    id !in table || (depth > 0 && forall b <- table[id].inheritsFrom :: Settles(table, b, depth - 1))
  }

  /** No walk from `id` comes back to a role. */
  ghost predicate NoCycleFrom(table: Table, id: string) {
    forall w | Walk(table, w) && w[0] == id :: Distinct(w)
  }

  lemma {:induction false} SettlesAlong(table: Table, w: seq<string>, k: nat, depth: nat)
    requires Walk(table, w) && k < |w| && Settles(table, w[0], depth)
    ensures k < depth && Settles(table, w[k], depth - k)
  {
    if k > 0 {
      SettlesAlong(table, w[1..], k - 1, depth - 1);
    }
  }

  lemma {:induction false} WalkSuffix(table: Table, w: seq<string>, i: nat)
    requires Walk(table, w) && i < |w|
    ensures Walk(table, w[i..])
  {
    if i > 0 {
      WalkSuffix(table, w[1..], i - 1);
      assert w[1..][i - 1..] == w[i..];
    } else {
      assert w[0..] == w;
    }
  }

  /** A role that leads back to itself never settles. */
  lemma {:induction false} CycleNeverSettles(table: Table, w: seq<string>, k: nat, depth: nat)
    requires Walk(table, w) && 0 < k < |w| && w[k] == w[0]
    ensures !Settles(table, w[0], depth)
    decreases depth
  {
    if Settles(table, w[0], depth) {
      SettlesAlong(table, w, k, depth);
      CycleNeverSettles(table, w, k, depth - k);
    }
  }

  lemma SettledRepeatsNothing(table: Table, w: seq<string>, i: nat, j: nat, depth: nat)
    requires Walk(table, w) && i < j < |w| && Settles(table, w[0], depth)
    ensures w[i] != w[j]
  {
    SettlesAlong(table, w, i, depth);
    WalkSuffix(table, w, i);
    if w[i] == w[j] {
      CycleNeverSettles(table, w[i..], j - i, depth - i);
    }
  }

  ghost function LastOf(table: Table, w: seq<string>): (r: string)
    requires Walk(table, w)
    ensures r in table
  {
    WalkInTable(table, w, |w| - 1);
    w[|w| - 1]
  }

  lemma {:induction false} WalkAppend(table: Table, w: seq<string>, b: string)
    requires Walk(table, w) && b in table && b in table[LastOf(table, w)].inheritsFrom
    ensures Walk(table, w + [b])
    decreases |w|
  {
    if |w| == 1 {
      assert (w + [b])[1..] == [b];
    } else {
      assert (w + [b])[1..] == w[1..] + [b];
      WalkAppend(table, w[1..], b);
    }
  }

  lemma WalkFits(table: Table, id: string, w: seq<string>)
    requires NoCycleFrom(table, id) && Walk(table, w) && w[0] == id
    ensures |w| <= |table|
  {
    forall x | x in Elements(w) ensures x in table.Keys {
      var k :| 0 <= k < |w| && w[k] == x;
      WalkInTable(table, w, k);
    }
    DistinctFits(w, table.Keys);
  }

  lemma {:induction false} AcyclicSettles(table: Table, id: string, w: seq<string>)
    requires NoCycleFrom(table, id) && Walk(table, w) && w[0] == id
    ensures |w| <= |table| && Settles(table, w[|w| - 1], |table| - |w| + 1)
    decreases |table| - |w|
  {
    WalkFits(table, id, w);
    var x := LastOf(table, w);
    forall b | b in table[x].inheritsFrom ensures Settles(table, b, |table| - |w|) {
      if b in table {
        WalkAppend(table, w, b);
        WalkFits(table, id, w + [b]);
        AcyclicSettles(table, id, w + [b]);
        assert (w + [b])[|w + [b]| - 1] == b;
      }
    }
  }

  /** The recursion from a role ends exactly when no cycle can be reached from it. */
  lemma EndsIffNoCycle(table: Table, id: string)
    ensures (exists depth: nat :: Settles(table, id, depth)) <==> NoCycleFrom(table, id)
  {
    if exists depth: nat :: Settles(table, id, depth) {
      var depth: nat :| Settles(table, id, depth);
      forall w | Walk(table, w) && w[0] == id ensures Distinct(w) {
        forall i, j | 0 <= i < j < |w| ensures w[i] != w[j] {
          SettledRepeatsNothing(table, w, i, j, depth);
        }
      }
    }
    if NoCycleFrom(table, id) {
      if id in table {
        assert Walk(table, [id]);
        AcyclicSettles(table, id, [id]);
        assert Settles(table, id, |table|);
      } else {
        assert Settles(table, id, 0);
      }
    }
  }

  // ---------- getAllPermissions ----------

  /** What the call for `b` contributes: just `*` when that is held. */
  ghost predicate Contributes(table: Table, b: string, p: string) {
    if Holds(table, b, STAR) then p == STAR else Holds(table, b, p)
  }

  ghost predicate ContributedBefore(table: Table, from: seq<string>, i: nat, p: string)
    requires i <= |from|
  {
    exists j :: 0 <= j < i && Contributes(table, from[j], p)
  }

  /** The role's own list and the contributions of its first `i` parents. */
  ghost predicate Collected(table: Table, role: Role, i: nat, permissions: seq<string>)
    requires i <= |role.inheritsFrom|
  {
    forall p :: p in permissions <==> p in role.permissions || ContributedBefore(table, role.inheritsFrom, i, p)
  }

  lemma CollectMore(table: Table, role: Role, i: nat, permissions: seq<string>, parents: seq<string>, more: seq<string>)
    requires i < |role.inheritsFrom| && Collected(table, role, i, permissions)
    requires var b := role.inheritsFrom[i];
             if Holds(table, b, STAR) then parents == [STAR] else forall p :: p in parents <==> Holds(table, b, p)
    requires forall p :: p in more <==> p in permissions + parents
    ensures Collected(table, role, i + 1, more)
  {
    forall p ensures p in more <==> p in role.permissions || ContributedBefore(table, role.inheritsFrom, i + 1, p) {
      assert p in parents <==> Contributes(table, role.inheritsFrom[i], p);
      assert p in permissions + parents <==> p in permissions || p in parents;
      if ContributedBefore(table, role.inheritsFrom, i + 1, p) {
        var j :| 0 <= j < i + 1 && Contributes(table, role.inheritsFrom[j], p);
        assert j == i || ContributedBefore(table, role.inheritsFrom, i, p);
      }
    }
  }

  lemma CombinedIsHeld(table: Table, id: string, permissions: seq<string>)
    requires id in table
    requires Collected(table, table[id], |table[id].inheritsFrom|, permissions)
    ensures STAR in permissions <==> Holds(table, id, STAR)
    ensures STAR !in permissions ==> forall p :: p in permissions <==> Holds(table, id, p)
  {
    HoldsStep(table, id, STAR);
    var from := table[id].inheritsFrom;
    if ContributedBefore(table, from, |from|, STAR) {
      var j :| 0 <= j < |from| && Contributes(table, from[j], STAR);
      assert from[j] in from;
    }
    if Holds(table, id, STAR) && STAR !in table[id].permissions {
      var b :| b in from && Holds(table, b, STAR);
      var j :| 0 <= j < |from| && from[j] == b;
      assert Contributes(table, from[j], STAR);
      assert ContributedBefore(table, from, |from|, STAR);
    }
    if STAR !in permissions {
      forall p ensures p in permissions <==> Holds(table, id, p) {
        HoldsStep(table, id, p);
        if exists b <- from :: Holds(table, b, p) {
          var b :| b in from && Holds(table, b, p);
          var j :| 0 <= j < |from| && from[j] == b;
          assert !Contributes(table, from[j], STAR);
          assert Contributes(table, from[j], p);
          assert ContributedBefore(table, from, |from|, p);
        }
        if ContributedBefore(table, from, |from|, p) {
          var j :| 0 <= j < |from| && Contributes(table, from[j], p);
          assert from[j] in from;
        }
      }
    }
  }

  /**
   * The recursive resolver. `depth` bounds the recursion and is not part of the
   * computation; EndsIffNoCycle says when there is one.
   */
  method GetAllPermissions(table: Table, roleId: string, ghost depth: nat) returns (permissions: seq<string>)
    requires Settles(table, roleId, depth)
    ensures Holds(table, roleId, "*") ==> permissions == ["*"]
    ensures !Holds(table, roleId, "*") ==> forall p :: p in permissions <==> Holds(table, roleId, p)
    decreases depth
  {
    if roleId !in table {
      MissingHoldsNothing(table, roleId);
      return [];
    }
    var role := table[roleId];
    permissions := role.permissions;
    for i := 0 to |role.inheritsFrom|
      invariant Collected(table, role, i, permissions)
    {
      assert role.inheritsFrom[i] in role.inheritsFrom;
      var parentPermissions := GetAllPermissions(table, role.inheritsFrom[i], depth - 1);
      var more := Unique(permissions + parentPermissions);
      CollectMore(table, role, i, permissions, parentPermissions, more);
      permissions := more;
    }
    CombinedIsHeld(table, roleId, permissions);
    if STAR in permissions {
      return [STAR];
    }
  }

  // ---------- hasPermission ----------

  /** Where `.*` first occurs in `s`. */
  function FirstWildcard(s: string): (r: Option<nat>)
    ensures r.Some? ==> r.value + 2 <= |s| && s[r.value..r.value + 2] == ".*"
    ensures r.None? ==> forall i | 0 <= i < |s| - 1 :: !(s[i] == '.' && s[i + 1] == '*')
    ensures r.Some? ==> forall i | 0 <= i < r.value :: !(s[i] == '.' && s[i + 1] == '*')
  {
    if |s| < 2 then None
    else if s[0] == '.' && s[1] == '*' then Some(0)
    else match FirstWildcard(s[1..])
      case None => None
      case Some(n) => Some(n + 1)
  }

  /** `s.replace('.*', '')`, which removes the first occurrence. */
  function RemoveFirst(s: string): string {
    match FirstWildcard(s)
    case None => s
    case Some(n) => s[..n] + s[n + 2..]
  }

  /** `s.endsWith('.*')` */
  predicate IsWildcard(s: string) {
    |s| >= 2 && s[|s| - 2..] == ".*"
  }

  /** One listed permission against the one asked for. */
  predicate Grants(listed: string, asked: string) {
    || listed == STAR || listed == asked
    || (IsWildcard(listed) && RemoveFirst(listed) + "." <= asked)
  }

  /** Some role reachable from `id` lists a permission that grants `asked`. */
  ghost predicate Allowed(table: Table, id: string, asked: string) {
    exists p :: Holds(table, id, p) && Grants(p, asked)
  }

  ghost predicate FirstStarAt(p: string, n: nat) {
    && n + 2 <= |p| && p[n] == '.' && p[n + 1] == '*'
    && forall i | 0 <= i < n :: !(p[i] == '.' && p[i + 1] == '*')
  }

  /** `p` ends in `.*`, and what is left of it without its first `.*`, with a dot after it, starts `asked`. */
  ghost predicate NamesGroupOf(p: string, asked: string) {
    && |p| >= 2 && p[|p| - 2] == '.' && p[|p| - 1] == '*'
    && exists n: nat :: FirstStarAt(p, n) && p[..n] + p[n + 2..] + "." <= asked
  }

  ghost predicate Lists(table: Table, id: string, p: string) {
    id in table && p in table[id].permissions
  }

  lemma GrantsIff(p: string, asked: string)
    ensures Grants(p, asked) <==> p == "*" || p == asked || NamesGroupOf(p, asked)
  {
    if IsWildcard(p) {
      assert p[|p| - 2..][0] == '.' && p[|p| - 2..][1] == '*';
      var n := FirstWildcard(p).value;
      assert p[n..n + 2][0] == '.' && p[n..n + 2][1] == '*';
      assert FirstStarAt(p, n);
      assert forall k: nat | FirstStarAt(p, k) :: k == n;
    } else if |p| >= 2 {
      assert p[|p| - 2..] == [p[|p| - 2], p[|p| - 1]];
    }
  }

  lemma AllowedIff(table: Table, id: string, asked: string)
    ensures Allowed(table, id, asked) <==>
              || (exists a :: Reaches(table, id, a) && Lists(table, a, "*"))
              || (exists a :: Reaches(table, id, a) && Lists(table, a, asked))
              || (exists a, p :: Reaches(table, id, a) && Lists(table, a, p) && NamesGroupOf(p, asked))
  {
    forall p ensures Grants(p, asked) <==> p == "*" || p == asked || NamesGroupOf(p, asked) {
      GrantsIff(p, asked);
    }
    if Allowed(table, id, asked) {
      var p :| Holds(table, id, p) && Grants(p, asked);
      var a :| Reaches(table, id, a) && a in table && p in table[a].permissions;
      assert Lists(table, a, p);
    }
    if exists a :: Reaches(table, id, a) && Lists(table, a, "*") {
      assert Holds(table, id, "*");
    }
    if exists a :: Reaches(table, id, a) && Lists(table, a, asked) {
      assert Holds(table, id, asked);
    }
    if exists a, p :: Reaches(table, id, a) && Lists(table, a, p) && NamesGroupOf(p, asked) {
      var a, p :| Reaches(table, id, a) && Lists(table, a, p) && NamesGroupOf(p, asked);
      assert Holds(table, id, p);
    }
  }

  /** `hasPermission`: some reachable role lists `*`, the permission itself, or a group that it is in. */
  method HasPermission(table: Table, roleId: string, permission: string, ghost depth: nat) returns (ok: bool)
    requires Settles(table, roleId, depth)
    ensures ok <==> Allowed(table, roleId, permission)
    ensures ok <==>
              || (exists a :: Reaches(table, roleId, a) && Lists(table, a, "*"))
              || (exists a :: Reaches(table, roleId, a) && Lists(table, a, permission))
              || (exists a, p :: Reaches(table, roleId, a) && Lists(table, a, p) && NamesGroupOf(p, permission))
  {
    AllowedIff(table, roleId, permission);
    var permissions := GetAllPermissions(table, roleId, depth);
    if STAR in permissions {
      assert Holds(table, roleId, STAR) && Grants(STAR, permission);
      return true;
    }
    ok := exists p <- permissions ::
      p == permission || (IsWildcard(p) && RemoveFirst(p) + "." <= permission);
  }

  /** A grant to an ancestor, wildcards included, is a grant to every descendant. */
  lemma DescendantsAreAllowed(table: Table, id: string, ancestor: string, asked: string)
    requires Reaches(table, id, ancestor) && Allowed(table, ancestor, asked)
    ensures Allowed(table, id, asked)
  {
    var p :| Holds(table, ancestor, p) && Grants(p, asked);
    var a :| Reaches(table, ancestor, a) && a in table && p in table[a].permissions;
    var w :| Walk(table, w) && w[0] == id && w[|w| - 1] == ancestor;
    ReachesJoin(table, id, w, a);
    assert Holds(table, id, p);
  }

  // ---------- What a group wildcard means ----------

  /** The documented reading of `group.*`: everything below the group. */
  predicate InGroup(group: string, asked: string) {
    group + "." <= asked
  }

  /** A run of `.*`. */
  predicate Stars(s: string) {
    s == "" || (|s| >= 2 && s[..2] == ".*" && Stars(s[2..]))
  }

  /** After its first `.*`, if it has one, the group name is made of `.*` only. */
  predicate CleanGroup(group: string) {
    var n := FirstWildcard(group);
    n.None? || Stars(group[n.value..])
  }

  lemma {:induction false} StarsCommute(s: string)
    ensures s + ".*" == ".*" + s <==> Stars(s)
    decreases |s|
  {
    if |s| == 1 {
      assert (s + ".*")[1] == '.' && (".*" + s)[1] == '*';
    } else if |s| >= 2 {
      var t := s[2..];
      StarsCommute(t);
      assert s == s[..2] + t;
      assert (s + ".*")[..2] == s[..2] && (".*" + s)[..2] == ".*";
      assert (s + ".*")[2..] == t + ".*" && (".*" + s)[2..] == s;
      if s[..2] == ".*" {
        assert s == ".*" + t;
        assert s + ".*" == ".*" + (t + ".*") && ".*" + s == ".*" + (".*" + t);
      }
    }
  }

  lemma {:induction false} FirstWildcardOfSum(group: string)
    ensures FirstWildcard(group + ".*") == match FirstWildcard(group) case None => Some(|group|) case Some(n) => Some(n)
  {
    var s := group + ".*";
    if group == "" {
      assert s == ".*";
    } else {
      assert s[1..] == group[1..] + ".*";
      FirstWildcardOfSum(group[1..]);
    }
  }

  lemma SplitAt(s: string, n: nat)
    requires n + 2 <= |s| && s[n..n + 2] == ".*"
    ensures s == s[..n] + (".*" + s[n + 2..])
    ensures s[n..] == ".*" + s[n + 2..]
  {
    assert s[n..] == s[n..n + 2] + s[n + 2..];
  }

  lemma CutFromSum(a: string, b: string)
    ensures var s := (a + (".*" + b)) + ".*"; s[..|a|] + s[|a| + 2..] == a + (b + ".*")
  {
    var s := (a + (".*" + b)) + ".*";
    assert s == a + (".*" + (b + ".*"));
  }

  lemma CutEnd(a: string)
    ensures (a + ".*")[..|a|] + (a + ".*")[|a| + 2..] == a
  {
  }

  lemma StarsCons(b: string)
    ensures Stars(".*" + b) <==> Stars(b)
  {
    assert (".*" + b)[..2] == ".*" && (".*" + b)[2..] == b;
  }

  lemma SameAfterPrefix(a: string, b: string, c: string)
    ensures a + b == a + c <==> b == c
  {
    assert (a + b)[|a|..] == b && (a + c)[|a|..] == c;
  }

  lemma RemovedFromSum(group: string)
    ensures RemoveFirst(group + ".*") == group <==> CleanGroup(group)
  {
    FirstWildcardOfSum(group);
    match FirstWildcard(group) {
      case None =>
        CutEnd(group);
      case Some(n) =>
        var a, b := group[..n], group[n + 2..];
        SplitAt(group, n);
        CutFromSum(a, b);
        SameAfterPrefix(a, ".*" + b, b + ".*");
        StarsCommute(b);
        StarsCons(b);
    }
  }

  lemma SameBeforeSuffix(a: string, b: string, c: string)
    requires |a| == |b|
    ensures a + c == b + c <==> a == b
  {
    assert (a + c)[..|a|] == a && (b + c)[..|b|] == b;
  }

  lemma WildcardEnds(group: string)
    ensures IsWildcard(group + ".*") && group + ".*" != STAR
  {
    assert |group + ".*"| >= 2;
  }

  lemma RemovedLength(group: string)
    ensures |RemoveFirst(group + ".*")| == |group|
  {
    FirstWildcardOfSum(group);
  }

  /** The wildcard `group.*` grants exactly what is below the group, for a clean group name and for no other. */
  lemma WildcardMeansGroupIff(group: string)
    ensures (forall asked :: Grants(group + ".*", asked) <==> InGroup(group, asked)) <==> CleanGroup(group)
  {
    var listed := group + ".*";
    var removed := RemoveFirst(listed);
    RemovedFromSum(group);
    WildcardEnds(group);
    if CleanGroup(group) {
      forall asked ensures Grants(listed, asked) <==> InGroup(group, asked) {
        assert listed == (group + ".") + "*";
      }
    } else {
      RemovedLength(group);
      var asked := group + ".";
      SameBeforeSuffix(removed, group, ".");
      assert InGroup(group, asked) && !Grants(listed, asked);
    }
  }
}
