/** The device-group tree (internal/api/handlers_group.go:272-324). Groups come
    as a flat list whose parent links may form cycles or dangle, because an
    update stores any parent it is given (lines 111-161). */
module GroupTree {
  import opened Options

  datatype Group = Group(id: int, name: string, parentId: int, level: int, sortOrder: int)

  /** A node carries its group's fields and its children. */
  datatype Node = Node(group: Group, children: seq<Node>)

  /** Database ids: a primary key, and 0 is no group but the root's parent. */
  ghost predicate Keyed(groups: seq<Group>) {
    && (forall i, j | 0 <= i < j < |groups| :: groups[i].id != groups[j].id)
    && (forall i | 0 <= i < |groups| :: groups[i].id != 0)
  }

  // ---------------------------------------------------- chains of parents

  ghost predicate Link(groups: seq<Group>, parent: int, id: int) {
    exists i | 0 <= i < |groups| :: groups[i].id == id && groups[i].parentId == parent
  }

  function Tip(path: seq<int>): int {
    if path == [] then 0 else path[|path| - 1]
  }

  function Up(path: seq<int>): seq<int>
    requires path != []
  {
    path[..|path| - 1]
  }

  /** The ids from a top-level group down to the last one, each the parent of
      the next. */
  ghost predicate Chain(groups: seq<Group>, path: seq<int>) {
    path == [] || (Chain(groups, Up(path)) && Link(groups, Tip(Up(path)), Tip(path)))
  }

  /** The parent chain of this id reaches 0. */
  ghost predicate Reaches(groups: seq<Group>, id: int) {
    exists path :: IsChainTo(groups, path, id)
  }

  ghost predicate IsChainTo(groups: seq<Group>, path: seq<int>, id: int) {
    Chain(groups, path) && path != [] && Tip(path) == id
  }

  lemma {:induction false} ChainPrefix(groups: seq<Group>, path: seq<int>, k: nat)
    requires Chain(groups, path) && k <= |path|
    ensures Chain(groups, path[..k])
  {
    if k == |path| {
      assert path[..k] == path;
    } else {
      ChainPrefix(groups, Up(path), k);
      assert Up(path)[..k] == path[..k];
    }
  }

  lemma ChainExtend(groups: seq<Group>, path: seq<int>, id: int)
    requires Chain(groups, path) && Link(groups, Tip(path), id)
    ensures Chain(groups, path + [id])
  {
    assert Up(path + [id]) == path;
  }

  /** A group has one parent, so there is at most one chain down to it. */
  lemma {:induction false} ChainUnique(groups: seq<Group>, p: seq<int>, q: seq<int>)
    requires Keyed(groups) && Chain(groups, p) && Chain(groups, q)
    requires Tip(p) == Tip(q)
    ensures p == q
  {
    if p != [] && q != [] {
      ChainUnique(groups, Up(p), Up(q));
      assert p == Up(p) + [Tip(p)] && q == Up(q) + [Tip(q)];
    }
  }

  /** So no id repeats along a chain: a cycle is never reached from 0. */
  lemma ChainDistinct(groups: seq<Group>, path: seq<int>, i: nat, j: nat)
    requires Keyed(groups) && Chain(groups, path)
    requires i < j < |path|
    ensures path[i] != path[j]
  {
    var p, q := path[..i + 1], path[..j + 1];
    ChainPrefix(groups, path, i + 1);
    ChainPrefix(groups, path, j + 1);
    assert |p| != |q| && Tip(p) == path[i] && Tip(q) == path[j];
    if Tip(p) == Tip(q) {
      ChainUnique(groups, p, q);
    }
  }

  function Ids(groups: seq<Group>): set<int> {
    set i | 0 <= i < |groups| :: groups[i].id
  }

  function Elements(path: seq<int>): set<int> {
    set i | 0 <= i < |path| :: path[i]
  }

  /** Descending by one link leaves fewer groups that are not on the path. */
  lemma DescentDecreases(groups: seq<Group>, path: seq<int>, id: int)
    requires Keyed(groups) && Chain(groups, path) && Link(groups, Tip(path), id)
    ensures Chain(groups, path + [id])
    ensures Ids(groups) - Elements(path + [id]) < Ids(groups) - Elements(path)
  {
    ChainExtend(groups, path, id);
    var longer := path + [id];
    assert id in Ids(groups);
    assert id !in Elements(path) by {
      forall k | 0 <= k < |path| ensures path[k] != id {
        ChainDistinct(groups, longer, k, |path|);
      }
    }
    assert longer[|path|] in Elements(longer);
    assert Elements(longer) == Elements(path) + {id};
  }

  // ------------------------------------------------------- specification

  /** The forest below the tip of a chain, from the n-th group of the list on. */
  ghost function Forest(groups: seq<Group>, path: seq<int>, n: nat): seq<Node>
    requires Keyed(groups) && Chain(groups, path) && n <= |groups|
    decreases Ids(groups) - Elements(path), |groups| - n
  {
    if n == |groups| then []
    else if groups[n].parentId != Tip(path) then Forest(groups, path, n + 1)
    else
      DescentDecreases(groups, path, groups[n].id);
      [Node(groups[n], Forest(groups, path + [groups[n].id], 0))] + Forest(groups, path, n + 1)
  }

  // ------------------------------------------------------------ the program

  /** The source recurses on the parent id; the chain to it is what makes the
      recursion end. */
  method BuildGroupTree(groups: seq<Group>, parentId: int, ghost path: seq<int>) returns (nodes: seq<Node>)
    requires Keyed(groups) && Chain(groups, path) && parentId == Tip(path)
    ensures nodes == Forest(groups, path, 0)
    decreases Ids(groups) - Elements(path)
  {
    nodes := [];
    for n := 0 to |groups|
      invariant nodes + Forest(groups, path, n) == Forest(groups, path, 0)
    {
      var g := groups[n];
      if g.parentId == parentId {
        DescentDecreases(groups, path, g.id);
        var children := BuildGroupTree(groups, g.id, path + [g.id]);
        nodes := nodes + [Node(g, children)];
      }
    }
  }

  method GetGroupTree(groups: seq<Group>) returns (tree: seq<Node>)
    requires Keyed(groups)
    ensures tree == Forest(groups, [], 0)
  {
    tree := BuildGroupTree(groups, 0, []);
  }

  // ------------------------------------------------- each under its parent

  function Roots(nodes: seq<Node>): seq<Group> {
    if nodes == [] then [] else [nodes[0].group] + Roots(nodes[1..])
  }

  function ChildrenOf(groups: seq<Group>, parent: int): seq<Group> {
    if groups == [] then []
    else (if groups[0].parentId == parent then [groups[0]] else []) + ChildrenOf(groups[1..], parent)
  }

  /** Siblings are all the groups with this parent, in list order, and so on below. */
  ghost predicate Placed(groups: seq<Group>, nodes: seq<Node>, parent: int) {
    && Roots(nodes) == ChildrenOf(groups, parent)
    && forall i | 0 <= i < |nodes| :: Placed(groups, nodes[i].children, nodes[i].group.id)
  }

  lemma {:induction false} ForestRoots(groups: seq<Group>, path: seq<int>, n: nat)
    requires Keyed(groups) && Chain(groups, path) && n <= |groups|
    ensures Roots(Forest(groups, path, n)) == ChildrenOf(groups[n..], Tip(path))
    decreases |groups| - n
  {
    if n < |groups| {
      ForestRoots(groups, path, n + 1);
      assert groups[n..][1..] == groups[n + 1..];
    }
  }

  lemma {:induction false} ForestNodes(groups: seq<Group>, path: seq<int>, n: nat)
    requires Keyed(groups) && Chain(groups, path) && n <= |groups|
    ensures forall i | 0 <= i < |Forest(groups, path, n)| :: IsNodeBelow(groups, path, Forest(groups, path, n)[i])
    decreases |groups| - n
  {
    if n < |groups| {
      ForestNodes(groups, path, n + 1);
      if groups[n].parentId == Tip(path) {
        DescentDecreases(groups, path, groups[n].id);
        assert Forest(groups, path, n)[1..] == Forest(groups, path, n + 1);
      }
    }
  }

  ghost predicate IsNodeBelow(groups: seq<Group>, path: seq<int>, node: Node)
    requires Keyed(groups)
  {
    && Chain(groups, path) && Link(groups, Tip(path), node.group.id)
    && Chain(groups, path + [node.group.id])
    && node.children == Forest(groups, path + [node.group.id], 0)
  }

  /** Cycles and dangling links or not, every node of the tree has all its
      children and only those, in list order. */
  lemma {:induction false} ForestPlaced(groups: seq<Group>, path: seq<int>)
    requires Keyed(groups) && Chain(groups, path)
    ensures Placed(groups, Forest(groups, path, 0), Tip(path))
    decreases Ids(groups) - Elements(path)
  {
    var nodes := Forest(groups, path, 0);
    ForestRoots(groups, path, 0);
    ForestNodes(groups, path, 0);
    assert groups[0..] == groups;
    forall i | 0 <= i < |nodes| ensures Placed(groups, nodes[i].children, nodes[i].group.id) {
      var id := nodes[i].group.id;
      assert IsNodeBelow(groups, path, nodes[i]);
      DescentDecreases(groups, path, id);
      ForestPlaced(groups, path + [id]);
    }
  }

  // ------------------------------------------------------ each exactly once

  /** All groups of a forest, each before its descendants. */
  function Flatten(nodes: seq<Node>): seq<int> {
    if nodes == [] then []
    else [nodes[0].group.id] + Flatten(nodes[0].children) + Flatten(nodes[1..])
  }

  /** What hangs below the path in the forest, from the n-th group on, are the
      ids whose chain passes through the path and then one of these groups. */
  ghost predicate Below(groups: seq<Group>, path: seq<int>, n: nat, id: int) {
    exists c :: IsChainTo(groups, c, id) && Through(groups, path, n, c)
  }

  ghost predicate Through(groups: seq<Group>, path: seq<int>, n: nat, c: seq<int>) {
    |path| < |c| && path <= c && exists i | n <= i < |groups| :: groups[i].id == c[|path|]
  }

  ghost predicate NoRepeats(ids: seq<int>) {
    forall i, j | 0 <= i < j < |ids| :: ids[i] != ids[j]
  }

  /** A chain through group n or a later one ends at group n, passes through it,
      or passes through a later one. */
  lemma ThroughSplit(groups: seq<Group>, path: seq<int>, n: nat, c: seq<int>)
    requires Keyed(groups) && Chain(groups, c) && n < |groups|
    ensures var p := path + [groups[n].id];
      && (Through(groups, path, n, c) <==> c == p || Through(groups, p, 0, c) || Through(groups, path, n + 1, c))
      && !(c == p && Through(groups, p, 0, c))
      && !((c == p || Through(groups, p, 0, c)) && Through(groups, path, n + 1, c))
  {
    var p := path + [groups[n].id];
    if p <= c && p != c {
      StepOfChain(groups, p, c);
    }
    if |path| < |c| && path <= c && c[|path|] == groups[n].id {
      assert p <= c;
    }
  }

  /** The element after a prefix of a chain is a child of the prefix's tip. */
  lemma StepOfChain(groups: seq<Group>, path: seq<int>, c: seq<int>)
    requires Chain(groups, c) && |path| < |c| && path <= c
    ensures Link(groups, Tip(path), c[|path|])
  {
    ChainPrefix(groups, c, |path| + 1);
    assert Up(c[..|path| + 1]) == path;
  }

  /** The same for ids: chains being unique, the three cases stay exclusive. */
  lemma BelowSplit(groups: seq<Group>, path: seq<int>, n: nat, id: int)
    requires Keyed(groups) && n < |groups|
    requires Chain(groups, path + [groups[n].id])
    ensures var g := groups[n].id;
      && (Below(groups, path, n, id) <==> id == g || Below(groups, path + [g], 0, id) || Below(groups, path, n + 1, id))
      && !(id == g && (Below(groups, path + [g], 0, id) || Below(groups, path, n + 1, id)))
      && !(Below(groups, path + [g], 0, id) && Below(groups, path, n + 1, id))
  {
    var p := path + [groups[n].id];
    assert IsChainTo(groups, p, groups[n].id);
    if c :| IsChainTo(groups, c, id) {
      forall d | IsChainTo(groups, d, id) ensures d == c {
        ChainUnique(groups, c, d);
      }
      ThroughSplit(groups, path, n, c);
      if id == groups[n].id {
        ChainUnique(groups, c, p);
      }
    }
  }

  /** A group whose parent is another starts nothing below this path. */
  lemma BelowSkip(groups: seq<Group>, path: seq<int>, n: nat, id: int)
    requires Keyed(groups) && n < |groups|
    requires groups[n].parentId != Tip(path)
    ensures Below(groups, path, n, id) <==> Below(groups, path, n + 1, id)
  {
    if c :| IsChainTo(groups, c, id) && Through(groups, path, n, c) {
      StepOfChain(groups, path, c);
      assert Through(groups, path, n + 1, c);
    }
  }

  lemma NoRepeatsJoin(g: int, under: seq<int>, rest: seq<int>)
    requires NoRepeats(under) && NoRepeats(rest)
    requires g !in under && g !in rest
    requires forall id :: !(id in under && id in rest)
    ensures NoRepeats([g] + under + rest)
  {
    var all := [g] + under + rest;
    forall i, j | 0 <= i < j < |all| ensures all[i] != all[j] {
      var k := |under| + 1;
      assert all[j] == if j < k then under[j - 1] else rest[j - k];
      assert i > 0 ==> all[i] == if i < k then under[i - 1] else rest[i - k];
      assert j < k ==> all[j] in under;
      assert j >= k ==> all[j] in rest;
      assert 0 < i < k ==> all[i] in under;
    }
  }

  /** The forest below a path holds exactly the ids whose chains pass through
      it, each once. */
  lemma {:induction false} FlattenForest(groups: seq<Group>, path: seq<int>, n: nat)
    requires Keyed(groups) && Chain(groups, path) && n <= |groups|
    ensures forall id :: id in Flatten(Forest(groups, path, n)) <==> Below(groups, path, n, id)
    ensures NoRepeats(Flatten(Forest(groups, path, n)))
    decreases Ids(groups) - Elements(path), |groups| - n
  {
    if n == |groups| {
    } else if groups[n].parentId != Tip(path) {
      FlattenForest(groups, path, n + 1);
      forall id { BelowSkip(groups, path, n, id); }
    } else {
      var g := groups[n].id;
      DescentDecreases(groups, path, g);
      FlattenForest(groups, path + [g], 0);
      FlattenForest(groups, path, n + 1);
      forall id { BelowSplit(groups, path, n, id); }
      NoRepeatsJoin(g, Flatten(Forest(groups, path + [g], 0)), Flatten(Forest(groups, path, n + 1)));
    }
  }

  /** The tree holds a group exactly once if its parent chain reaches 0, and not
      at all otherwise: groups on or below a cycle, or below a dangling link. */
  lemma TreeHoldsReachable(groups: seq<Group>)
    requires Keyed(groups)
    ensures forall id :: id in Flatten(Forest(groups, [], 0)) <==> Reaches(groups, id)
    ensures NoRepeats(Flatten(Forest(groups, [], 0)))
  {
    FlattenForest(groups, [], 0);
    forall id, c | IsChainTo(groups, c, id) ensures Through(groups, [], 0, c) {
      StepOfChain(groups, [], c);
    }
  }

  // --------------------------------------------------------------- updates

  /** The body of an update; absent fields are left alone. */
  datatype Request = Request(name: string, parentId: Option<int>, sortOrder: Option<int>)

  /** The index of a group with this id, or the number of groups. */
  method Find(groups: seq<Group>, id: int) returns (i: nat)
    ensures i <= |groups| && (forall j | 0 <= j < i :: groups[j].id != id)
    ensures i < |groups| ==> groups[i].id == id
  {
    i := 0;
    while i < |groups| && groups[i].id != id
      invariant 0 <= i <= |groups| && forall j | 0 <= j < i :: groups[j].id != id
    {
      i := i + 1;
    }
  }

  /** handleUpdateGroup: the stored parent is whatever was asked for, and the
      other groups stay as they are. */
  method UpdateGroup(groups: seq<Group>, id: int, req: Request) returns (updated: Option<seq<Group>>)
    requires Keyed(groups)
    ensures updated == None <==> forall i | 0 <= i < |groups| :: groups[i].id != id
    ensures updated.Some? ==> exists i | 0 <= i < |groups| :: groups[i].id == id && IsUpdate(groups, i, req, updated.value)
  {
    var i := Find(groups, id);
    if i == |groups| {
      return None;
    }
    var group := groups[i];
    if req.name != "" {
      group := group.(name := req.name);
    }
    if req.parentId.Some? {
      group := group.(parentId := req.parentId.value);
      if req.parentId.value > 0 {
        var p := Find(groups, req.parentId.value);
        assert p < |groups| ==> HasId(groups, p, req.parentId.value);
        if p < |groups| {
          group := group.(level := groups[p].level + 1);
        }
      } else {
        group := group.(level := 0);
      }
    }
    if req.sortOrder.Some? {
      group := group.(sortOrder := req.sortOrder.value);
    }
    assert IsUpdate(groups, i, req, groups[i := group]);
    updated := Some(groups[i := group]);
  }

  ghost predicate IsUpdate(groups: seq<Group>, i: nat, req: Request, updated: seq<Group>)
    requires i < |groups|
  {
    && |updated| == |groups| && updated == groups[i := updated[i]]
    && updated[i].id == groups[i].id
    && updated[i].name == (if req.name != "" then req.name else groups[i].name)
    && updated[i].sortOrder == (if req.sortOrder.Some? then req.sortOrder.value else groups[i].sortOrder)
    && match req.parentId
       case None => updated[i].parentId == groups[i].parentId && updated[i].level == groups[i].level
       case Some(p) =>
         && updated[i].parentId == p
         && (p <= 0 ==> updated[i].level == 0)
         && (p > 0 ==> if exists j :: HasId(groups, j, p) then exists j :: HasId(groups, j, p) && updated[i].level == groups[j].level + 1
                       else updated[i].level == groups[i].level)
  }

  ghost predicate HasId(groups: seq<Group>, j: int, id: int) { 0 <= j < |groups| && groups[j].id == id }

  ghost predicate StoredParent(groups: seq<Group>, i: nat, parent: int, updated: seq<Group>)
    requires i < |groups|
  {
    && |updated| == |groups| && updated == groups[i := updated[i]]
    && updated[i].id == groups[i].id && updated[i].parentId == parent
  }

  /** Any links whatever, cycles and dangling ones included, arise by updates. */
  method Relink(groups: seq<Group>, parents: seq<int>) returns (linked: seq<Group>)
    requires Keyed(groups) && |parents| == |groups|
    ensures Keyed(linked) && |linked| == |groups|
    ensures forall i | 0 <= i < |groups| :: linked[i].id == groups[i].id && linked[i].parentId == parents[i]
  {
    linked := groups;
    for k := 0 to |groups|
      invariant Keyed(linked) && |linked| == |groups|
      invariant forall i | 0 <= i < |groups| :: linked[i].id == groups[i].id
      invariant forall i | 0 <= i < k :: linked[i].parentId == parents[i]
    {
      var updated := UpdateGroup(linked, groups[k].id, Request("", Some(parents[k]), None));
      assert linked[k].id == groups[k].id;
      linked := updated.value;
    }
  }

  /** A chain to this id that does not pass through that one. */
  ghost predicate ReachesAvoiding(groups: seq<Group>, id: int, avoid: int) {
    exists path :: IsChainTo(groups, path, id) && avoid !in path
  }

  lemma {:induction false} ChainElsewhere(groups: seq<Group>, i: nat, parent: int, updated: seq<Group>, path: seq<int>)
    requires i < |groups| && StoredParent(groups, i, parent, updated)
    requires groups[i].id !in path
    ensures Chain(groups, path) <==> Chain(updated, path)
  {
    if path != [] {
      ChainElsewhere(groups, i, parent, updated, Up(path));
      LinkElsewhere(groups, i, parent, updated, Tip(Up(path)), Tip(path));
    }
  }

  lemma LinkElsewhere(groups: seq<Group>, i: nat, parent: int, updated: seq<Group>, from: int, id: int)
    requires i < |groups| && StoredParent(groups, i, parent, updated)
    requires groups[i].id != id
    ensures Link(groups, from, id) <==> Link(updated, from, id)
  {
    forall j | 0 <= j < |groups| && j != i ensures updated[j] == groups[j] {}
  }

  /** After an update a group is in the tree exactly when its new parent is the
      root, or was in the tree and not below the group itself. */
  lemma UpdatedInTreeIff(groups: seq<Group>, i: nat, parent: int, updated: seq<Group>)
    requires Keyed(groups) && i < |groups| && StoredParent(groups, i, parent, updated)
    ensures Keyed(updated)
    ensures groups[i].id in Flatten(Forest(updated, [], 0)) <==>
            parent == 0 || ReachesAvoiding(groups, parent, groups[i].id)
  {
    var id := groups[i].id;
    TreeHoldsReachable(updated);
    if path :| IsChainTo(updated, path, id) {
      var up := Up(path);
      assert path == up + [id];
      assert id !in up by {
        forall k | 0 <= k < |up| ensures up[k] != id { ChainDistinct(updated, path, k, |up|); }
      }
      assert Tip(up) == parent;
      ChainElsewhere(groups, i, parent, updated, up);
      if up != [] {
        assert IsChainTo(groups, up, parent);
      }
    }
    assert updated[i].id == id && updated[i].parentId == parent;
    if parent == 0 {
      ChainExtend(updated, [], id);
      assert IsChainTo(updated, [] + [id], id);
    } else if path :| IsChainTo(groups, path, parent) && id !in path {
      ChainElsewhere(groups, i, parent, updated, path);
      ChainExtend(updated, path, id);
      assert IsChainTo(updated, path + [id], id);
    }
  }

  /** So an update that makes a group its own parent takes it out of the tree. */
  lemma OwnParentVanishes(groups: seq<Group>, i: nat, updated: seq<Group>)
    requires Keyed(groups) && i < |groups| && StoredParent(groups, i, groups[i].id, updated)
    ensures Keyed(updated) && groups[i].id !in Flatten(Forest(updated, [], 0))
  {
    UpdatedInTreeIff(groups, i, groups[i].id, updated);
  }
}
