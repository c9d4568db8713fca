/** `getHierarchy`: the forest that `buildTree(null)` makes of a list of roles. */
module RoleTree {
  import opened Collections
  import opened Wrappers

  datatype Role = Role(id: string, parent: Option<string>, isActive: bool)

  datatype Tree = Node(role: Role, children: seq<Tree>)

  /** Ids are a primary key. */
  ghost predicate UniqueIds(roles: seq<Role>) {
    forall i, j | 0 <= i < j < |roles| :: roles[i].id != roles[j].id
  }

  /** The id whose children come next. */
  function Tip(path: seq<Role>): Option<string> {
    if path == [] then None else Some(path[|path| - 1].id)
  }

  /** A path down from a root: each role's parent is the role before it. */
  ghost predicate Chain(roles: seq<Role>, path: seq<Role>)
    decreases |path|
  {
    path == [] ||
    (var r, above := path[|path| - 1], path[..|path| - 1];
     Chain(roles, above) && r in roles && r.parent == Tip(above))
  }

  function ChildrenOf(roles: seq<Role>, parent: Option<string>): seq<Role> {
    if roles == [] then []
    else (if roles[0].parent == parent then [roles[0]] else []) + ChildrenOf(roles[1..], parent)
  }

  // ---------- Chains ----------

  lemma SameIdSameRole(roles: seq<Role>, a: Role, b: Role)
    requires UniqueIds(roles) && a in roles && b in roles && a.id == b.id
    ensures a == b
  {
  }

  lemma TipInRoles(roles: seq<Role>, path: seq<Role>)
    requires Chain(roles, path) && path != []
    ensures path[|path| - 1] in roles
  {
  }

  /** Parents are unique, so two chains that end in one role are one chain. */
  lemma {:induction false} ChainUnique(roles: seq<Role>, p: seq<Role>, q: seq<Role>)
    requires UniqueIds(roles) && Chain(roles, p) && Chain(roles, q)
    requires p != [] && q != [] && p[|p| - 1] == q[|q| - 1]
    ensures p == q
    decreases |p|
  {
    var p', q' := p[..|p| - 1], q[..|q| - 1];
    assert Tip(p') == Tip(q');
    if p' != [] {
      TipInRoles(roles, p');
      TipInRoles(roles, q');
      SameIdSameRole(roles, p'[|p'| - 1], q'[|q'| - 1]);
      ChainUnique(roles, p', q');
    }
    assert p == p' + [p[|p| - 1]] && q == q' + [q[|q| - 1]];
  }

  lemma {:induction false} ChainPrefix(roles: seq<Role>, path: seq<Role>, n: nat)
    requires Chain(roles, path) && n <= |path|
    ensures Chain(roles, path[..n]) && (forall r | r in path[..n] :: r in roles)
    decreases |path|
  {
    if n < |path| {
      var above := path[..|path| - 1];
      ChainPrefix(roles, above, n);
      assert above[..n] == path[..n];
    } else if n > 0 {
      var above := path[..|path| - 1];
      assert path[..n] == path == above + [path[|path| - 1]];
      ChainPrefix(roles, above, |above|);
      assert above[..|above|] == above;
    } else {
      assert path[..0] == [];
    }
  }

  /** The termination argument: a chain repeats no role, even when other roles form parent cycles. */
  lemma ChainRepeatsNothing(roles: seq<Role>, path: seq<Role>)
    requires UniqueIds(roles) && Chain(roles, path)
    ensures Distinct(path)
  {
    forall i, j | 0 <= i < j < |path| ensures path[i] != path[j] {
      ChainPrefix(roles, path, i + 1);
      ChainPrefix(roles, path, j + 1);
      var p, q := path[..i + 1], path[..j + 1];
      assert p[|p| - 1] == path[i] && q[|q| - 1] == path[j] && |p| < |q|;
      if path[i] == path[j] {
        ChainUnique(roles, p, q);
      }
    }
  }

  lemma ChainFits(roles: seq<Role>, path: seq<Role>)
    requires UniqueIds(roles) && Chain(roles, path)
    ensures |path| <= |roles|
  {
    ChainRepeatsNothing(roles, path);
    ChainPrefix(roles, path, |path|);
    assert path[..|path|] == path;
    DistinctFits(path, Elements(roles));
    ElementsFit(roles);
  }

  lemma {:induction false} ChildrenMembers(roles: seq<Role>, parent: Option<string>, r: Role)
    ensures r in ChildrenOf(roles, parent) <==> r in roles && r.parent == parent
  {
    if roles != [] {
      ChildrenMembers(roles[1..], parent, r);
    }
  }

  lemma ChainExtends(roles: seq<Role>, path: seq<Role>, r: Role)
    requires Chain(roles, path) && r in ChildrenOf(roles, Tip(path))
    ensures Chain(roles, path + [r])
  {
    ChildrenMembers(roles, Tip(path), r);
    assert (path + [r])[..|path|] == path;
  }

  // ---------- The recursion ----------

  /** `buildTree(Tip(path))`; the path exists for the termination argument only. */
  function BuildTree(roles: seq<Role>, ghost path: seq<Role>, parent: Option<string>): seq<Tree>
    requires UniqueIds(roles) && Chain(roles, path) && parent == Tip(path)
    decreases |roles| - |path|, 1, 0
  {
    ChainFits(roles, path);
    BuildNodes(roles, path, ChildrenOf(roles, parent))
  }

  /** `map(role => ({...role, children: buildTree(role.id)}))` */
  function BuildNodes(roles: seq<Role>, ghost path: seq<Role>, kids: seq<Role>): seq<Tree>
    requires UniqueIds(roles) && Chain(roles, path)
    requires forall r | r in kids :: r in ChildrenOf(roles, Tip(path))
    decreases |roles| - |path|, 0, |kids|
  {
    if kids == [] then [] else
    assert kids[0] in kids;
    ChainExtends(roles, path, kids[0]);
    ChainFits(roles, path + [kids[0]]);
    [Node(kids[0], BuildTree(roles, path + [kids[0]], Some(kids[0].id)))] + BuildNodes(roles, path, kids[1..])
  }

  /** `getHierarchy`, on the active roles in the order of the query. */
  function Active(table: seq<Role>): (roles: seq<Role>)
    ensures forall r :: r in roles <==> r in table && r.isActive
  {
    if table == [] then []
    else (if table[0].isActive then [table[0]] else []) + Active(table[1..])
  }

  lemma FirstNotAgain(roles: seq<Role>)
    requires UniqueIds(roles) && roles != []
    ensures forall r | r in roles[1..] :: r.id != roles[0].id
  {
    forall r | r in roles[1..] ensures r.id != roles[0].id {
      var i :| 0 <= i < |roles[1..]| && roles[1..][i] == r;
      assert roles[i + 1] == r;
    }
  }

  lemma {:induction false} ActiveKeepsIds(table: seq<Role>)
    requires UniqueIds(table)
    ensures UniqueIds(Active(table))
  {
    if table != [] {
      ActiveKeepsIds(table[1..]);
      FirstNotAgain(table);
    }
  }

  function GetHierarchy(table: seq<Role>): seq<Tree>
    requires UniqueIds(table)
  {
    ActiveKeepsIds(table);
    BuildTree(Active(table), [], None)
  }

  // ---------- What the forest holds ----------

  /** How many nodes of the forest are for `r`. */
  function Occurrences(forest: seq<Tree>, r: Role): nat {
    if forest == [] then 0
    else (if forest[0].role == r then 1 else 0) + Occurrences(forest[0].children, r) + Occurrences(forest[1..], r)
  }

  /** The parent chain of `r` runs through the list up to a role without parent. */
  ghost predicate Rooted(roles: seq<Role>, r: Role) {
    exists path :: Chain(roles, path) && path != [] && path[|path| - 1] == r
  }

  ghost predicate Extends(q: seq<Role>, path: seq<Role>) {
    |path| < |q| && q[..|path|] == path
  }

  /** How often `r` occurs below `path`, given its chain `q`. */
  ghost function Expected(q: seq<Role>, path: seq<Role>): nat {
    if Extends(q, path) then 1 else 0
  }

  lemma OccurrencesCons(t: Tree, forest: seq<Tree>, r: Role)
    ensures Occurrences([t] + forest, r)
         == (if t.role == r then 1 else 0) + Occurrences(t.children, r) + Occurrences(forest, r)
  {
    assert ([t] + forest)[1..] == forest;
  }

  /** The next role on the way to the end of `q` is one of the children. */
  lemma NextIsChild(roles: seq<Role>, path: seq<Role>, q: seq<Role>)
    requires Chain(roles, q) && Extends(q, path)
    ensures q[|path|] in ChildrenOf(roles, Tip(path))
  {
    var k := q[|path|];
    ChainPrefix(roles, q, |path| + 1);
    assert q[..|path| + 1] == path + [k];
    assert (path + [k])[..|path|] == path;
    ChildrenMembers(roles, Tip(path), k);
  }

  lemma {:induction false} ChildrenOnce(roles: seq<Role>, parent: Option<string>)
    requires UniqueIds(roles)
    ensures Distinct(ChildrenOf(roles, parent))
  {
    if roles != [] {
      var rest := roles[1..];
      ChildrenOnce(rest, parent);
      FirstNotAgain(roles);
      ChildrenMembers(rest, parent, roles[0]);
    }
  }

  lemma {:induction false} CountBelow(roles: seq<Role>, path: seq<Role>, q: seq<Role>)
    requires UniqueIds(roles) && Chain(roles, path) && Chain(roles, q) && q != []
    ensures Occurrences(BuildTree(roles, path, Tip(path)), q[|q| - 1]) == Expected(q, path)
    decreases |roles| - |path|, 1, 0
  {
    ChainFits(roles, path);
    ChildrenOnce(roles, Tip(path));
    CountNodes(roles, path, ChildrenOf(roles, Tip(path)), q);
    if Extends(q, path) {
      NextIsChild(roles, path, q);
    }
  }

  /** The first child's node and subtree, and the other children. */
  lemma NodesStep(roles: seq<Role>, path: seq<Role>, kids: seq<Role>, r: Role)
    requires UniqueIds(roles) && Chain(roles, path) && kids != [] && Chain(roles, path + [kids[0]])
    requires forall x | x in kids :: x in ChildrenOf(roles, Tip(path))
    ensures Occurrences(BuildNodes(roles, path, kids), r)
         == (if kids[0] == r then 1 else 0)
          + Occurrences(BuildTree(roles, path + [kids[0]], Tip(path + [kids[0]])), r)
          + Occurrences(BuildNodes(roles, path, kids[1..]), r)
  {
    var k := kids[0];
    OccurrencesCons(Node(k, BuildTree(roles, path + [k], Some(k.id))), BuildNodes(roles, path, kids[1..]), r);
  }

  lemma ExtendsMore(q: seq<Role>, path: seq<Role>, k: Role)
    ensures Extends(q, path + [k]) <==> Extends(q, path) && q[|path|] == k && |q| > |path| + 1
  {
    if |q| > |path| + 1 {
      assert q[..|path| + 1] == q[..|path|] + [q[|path|]];
    }
  }

  /** The node of `k` itself and the subtree below it account for the chains through `k`. */
  lemma HeadCount(roles: seq<Role>, path: seq<Role>, k: Role, q: seq<Role>)
    requires UniqueIds(roles) && Chain(roles, path + [k]) && Chain(roles, q) && q != []
    ensures (if q[|q| - 1] == k then 1 else 0) + Expected(q, path + [k])
         == if Extends(q, path) && q[|path|] == k then 1 else 0
  {
    ExtendsMore(q, path, k);
    var p := path + [k];
    if q[|q| - 1] == k {
      ChainUnique(roles, q, p);
      assert q[..|path|] == path;
    }
  }

  lemma {:induction false} CountNodes(roles: seq<Role>, path: seq<Role>, kids: seq<Role>, q: seq<Role>)
    requires UniqueIds(roles) && Chain(roles, path) && Chain(roles, q) && q != []
    requires forall r | r in kids :: r in ChildrenOf(roles, Tip(path))
    requires Distinct(kids)
    ensures Occurrences(BuildNodes(roles, path, kids), q[|q| - 1])
         == if Extends(q, path) && q[|path|] in kids then 1 else 0
    decreases |roles| - |path|, 0, |kids|
  {
    if kids != [] {
      var k := kids[0];
      assert k in kids;
      ChainExtends(roles, path, k);
      ChainFits(roles, path + [k]);
      CountBelow(roles, path + [k], q);
      CountNodes(roles, path, kids[1..], q);
      HeadCount(roles, path, k, q);
      NodesStep(roles, path, kids, q[|q| - 1]);
    }
  }

  /** Whatever is in the forest got there along a chain. */
  lemma {:induction false} OnlyChains(roles: seq<Role>, path: seq<Role>, kids: seq<Role>, r: Role)
    requires UniqueIds(roles) && Chain(roles, path)
    requires forall x | x in kids :: x in ChildrenOf(roles, Tip(path))
    ensures Occurrences(BuildNodes(roles, path, kids), r) > 0 ==> Rooted(roles, r)
    decreases |roles| - |path|, |kids|
  {
    if kids != [] {
      var k := kids[0];
      assert k in kids;
      ChainExtends(roles, path, k);
      ChainFits(roles, path + [k]);
      NodesStep(roles, path, kids, r);
      OnlyChains(roles, path + [k], ChildrenOf(roles, Some(k.id)), r);
      OnlyChains(roles, path, kids[1..], r);
      if r == k {
        assert (path + [k])[|path + [k]| - 1] == r;
      }
    }
  }

  /**
   * `buildTree(null)` ends on every list, and its forest holds each role whose
   * parent chain reaches null through the list exactly once, and no other role.
   */
  lemma ForestHoldsRootedOnce(roles: seq<Role>, r: Role)
    requires UniqueIds(roles)
    ensures Occurrences(BuildTree(roles, [], None), r) == if Rooted(roles, r) then 1 else 0
  {
    if Rooted(roles, r) {
      var q :| Chain(roles, q) && q != [] && q[|q| - 1] == r;
      CountBelow(roles, [], q);
    } else {
      OnlyChains(roles, [], ChildrenOf(roles, None), r);
    }
  }

  /** A role is in the hierarchy, once, exactly when its parent chain runs through active roles up to a root. */
  lemma HierarchyHoldsActiveChains(table: seq<Role>, r: Role)
    requires UniqueIds(table)
    ensures Occurrences(GetHierarchy(table), r) == if Rooted(Active(table), r) then 1 else 0
    ensures Occurrences(GetHierarchy(table), r) > 0 ==> r in table && r.isActive
  {
    ActiveKeepsIds(table);
    ForestHoldsRootedOnce(Active(table), r);
    if Rooted(Active(table), r) {
      var q :| Chain(Active(table), q) && q != [] && q[|q| - 1] == r;
      TipInRoles(Active(table), q);
    }
  }

  // ---------- The shape of the forest ----------

  /** Siblings stand in the order of the list. */
  lemma {:induction false} ChildrenKeepOrder(roles: seq<Role>, parent: Option<string>)
    ensures Subsequence(ChildrenOf(roles, parent), roles)
    ensures forall r :: r in ChildrenOf(roles, parent) <==> r in roles && r.parent == parent
  {
    if roles != [] {
      ChildrenKeepOrder(roles[1..], parent);
      assert roles == [roles[0]] + roles[1..];
      var rest := ChildrenOf(roles[1..], parent);
      assert ([roles[0]] + rest)[1..] == rest && [] + rest == rest;
    }
  }

  /** The active roles stand in the order of the query. */
  lemma {:induction false} ActiveKeepsOrder(table: seq<Role>)
    ensures Subsequence(Active(table), table)
  {
    if table != [] {
      ActiveKeepsOrder(table[1..]);
      var rest := Active(table[1..]);
      assert ([table[0]] + rest)[1..] == rest && [] + rest == rest;
    }
  }

  /** Every node's children are the roles that name it as parent, in list order. */
  ghost predicate Shaped(roles: seq<Role>, forest: seq<Tree>, parent: Option<string>) {
    && |forest| == |ChildrenOf(roles, parent)|
    && forall i | 0 <= i < |forest| ::
         forest[i].role == ChildrenOf(roles, parent)[i] && Shaped(roles, forest[i].children, Some(forest[i].role.id))
  }

  lemma {:induction false} ForestIsShaped(roles: seq<Role>, path: seq<Role>)
    requires UniqueIds(roles) && Chain(roles, path)
    ensures Shaped(roles, BuildTree(roles, path, Tip(path)), Tip(path))
    decreases |roles| - |path|, 1, 0
  {
    ChainFits(roles, path);
    NodesAreShaped(roles, path, ChildrenOf(roles, Tip(path)));
  }

  lemma {:induction false} NodesAreShaped(roles: seq<Role>, path: seq<Role>, kids: seq<Role>)
    requires UniqueIds(roles) && Chain(roles, path)
    requires forall r | r in kids :: r in ChildrenOf(roles, Tip(path))
    ensures var nodes := BuildNodes(roles, path, kids);
            |nodes| == |kids| && forall i | 0 <= i < |kids| ::
              nodes[i].role == kids[i] && Shaped(roles, nodes[i].children, Some(kids[i].id))
    decreases |roles| - |path|, 0, |kids|
  {
    if kids != [] {
      assert kids[0] in kids;
      ChainExtends(roles, path, kids[0]);
      ChainFits(roles, path + [kids[0]]);
      ForestIsShaped(roles, path + [kids[0]]);
      NodesAreShaped(roles, path, kids[1..]);
    }
  }
}
