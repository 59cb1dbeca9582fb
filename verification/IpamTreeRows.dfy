/** Which rows the flattened address tree holds: a prefix has a row exactly when its VRF group and
    all its proper ancestors are expanded, and then it has one row. */
module IpamTreeRows {
  import opened Wrappers
  import opened Sorting
  import opened InventoryModel
  import opened Keyed
  import opened PrefixForest
  import opened PrefixUtilization
  import opened IpamTree

  ghost predicate ChildrenListedOnce(nodes: map<string, PrefixNode>) {
    forall id :: id in nodes ==> NoDuplicates(nodes[id].childIds)
  }

  ghost predicate ChildrenPresent(nodes: map<string, PrefixNode>) {
    forall id, c :: id in nodes && c in nodes[id].childIds ==> c in nodes
  }

  ghost predicate SingleParents(nodes: map<string, PrefixNode>) {
    forall id, other, c ::
      (id in nodes && other in nodes && c in nodes[id].childIds && c in nodes[other].childIds) ==> id == other
  }

  /** What a forest with non-empty ids gives: children are nodes, listed once, with one parent. */
  ghost predicate Arboreal(nodes: map<string, PrefixNode>) {
    Layered(nodes) && "" !in nodes && ChildrenListedOnce(nodes) && ChildrenPresent(nodes) && SingleParents(nodes)
  }

  /** The tree's nodes carry the ids, depths and children of the forest's. */
  ghost predicate Mirrors(nodes: map<string, PrefixNode>, forest: map<string, Node>) {
    && (forall id :: id in nodes <==> id in forest)
    && (forall id :: id in nodes ==>
          nodes[id].id == id && nodes[id].depth == forest[id].depth && nodes[id].childIds == forest[id].childPrefixIds)
  }

  lemma NodesMirror(tree: Tree, utilization: map<string, Utilization>, xs: seq<IpAddress>)
    requires Filed(tree)
    ensures Mirrors(NodesFor(tree.nodes, utilization, xs), tree.nodes)
  {
    hide DirectCount;
  }

  lemma MirrorChildren(nodes: map<string, PrefixNode>, forest: map<string, Node>)
    requires WellFormed(forest) && Mirrors(nodes, forest)
    ensures Layered(nodes) && ChildrenListedOnce(nodes) && ChildrenPresent(nodes)
  {
    forall id, c | id in nodes && c in nodes[id].childIds ensures c in nodes && nodes[c].depth == nodes[id].depth + 1 {
      assert c in forest[id].childPrefixIds;
    }
  }

  lemma MirrorParents(nodes: map<string, PrefixNode>, forest: map<string, Node>)
    requires WellFormed(forest) && Mirrors(nodes, forest)
    ensures SingleParents(nodes)
  {
    forall id, other, c | id in nodes && other in nodes && c in nodes[id].childIds && c in nodes[other].childIds
      ensures id == other
    {
      assert c in forest[id].childPrefixIds && c in forest[other].childPrefixIds;
    }
  }

  lemma ForestIsArboreal(tree: Tree, utilization: map<string, Utilization>, xs: seq<IpAddress>)
    requires WellFormed(tree.nodes) && Filed(tree) && "" !in tree.nodes
    ensures Arboreal(NodesFor(tree.nodes, utilization, xs))
  {
    var nodes := NodesFor(tree.nodes, utilization, xs);
    hide NodesFor, WellFormed, Filed, Layered, ChildrenListedOnce, ChildrenPresent, SingleParents;
    NodesMirror(tree, utilization, xs);
    MirrorChildren(nodes, tree.nodes);
    MirrorParents(nodes, tree.nodes);
  }

  lemma ChildFacts(nodes: map<string, PrefixNode>, id: string, k: nat)
    requires Arboreal(nodes) && id in nodes && k < |nodes[id].childIds|
    ensures nodes[id].childIds[k] in nodes
    ensures nodes[nodes[id].childIds[k]].depth == nodes[id].depth + 1
  {
    assert nodes[id].childIds[k] in nodes[id].childIds;
  }

  // ----- being shown below a node

  /** `p` is `r`, or lies below it with every node from `r` down to its parent expanded. */
  ghost predicate Shown(nodes: map<string, PrefixNode>, expanded: set<string>, r: string, p: string)
    requires Arboreal(nodes) && r in nodes
    decreases LevelBound(nodes, RowDepth) - nodes[r].depth
  {
    r == p || (r in expanded && exists k :: 0 <= k < |nodes[r].childIds| && ShownBelow(nodes, expanded, r, k, p))
  }

  ghost predicate ShownBelow(nodes: map<string, PrefixNode>, expanded: set<string>, r: string, k: nat, p: string)
    requires Arboreal(nodes) && r in nodes && k < |nodes[r].childIds|
    decreases LevelBound(nodes, RowDepth) - nodes[r].depth, 0
  {
    ChildFacts(nodes, r, k);
    Shown(nodes, expanded, nodes[r].childIds[k], p)
  }

  lemma {:induction false} ShownDepth(nodes: map<string, PrefixNode>, expanded: set<string>, r: string, p: string)
    requires Arboreal(nodes) && r in nodes && Shown(nodes, expanded, r, p)
    ensures p in nodes && nodes[r].depth <= nodes[p].depth
    ensures nodes[r].depth == nodes[p].depth ==> r == p
    decreases LevelBound(nodes, RowDepth) - nodes[r].depth
  {
    hide Arboreal;
    if r != p {
      var k :| 0 <= k < |nodes[r].childIds| && ShownBelow(nodes, expanded, r, k, p);
      ChildFacts(nodes, r, k);
      ShownDepth(nodes, expanded, nodes[r].childIds[k], p);
    }
  }

  /** The last step down to a shown node comes from an expanded parent that is shown too. */
  lemma {:induction false} LastEdge(nodes: map<string, PrefixNode>, expanded: set<string>, r: string,
                                    p: string) returns (q: string)
    requires Arboreal(nodes) && r in nodes && r != p && Shown(nodes, expanded, r, p)
    ensures q in nodes && q in expanded && p in nodes[q].childIds && Shown(nodes, expanded, r, q)
    decreases LevelBound(nodes, RowDepth) - nodes[r].depth
  {
    hide Arboreal;
    var k :| 0 <= k < |nodes[r].childIds| && ShownBelow(nodes, expanded, r, k, p);
    ChildFacts(nodes, r, k);
    var c := nodes[r].childIds[k];
    if c == p {
      q := r;
    } else {
      q := LastEdge(nodes, expanded, c, p);
      assert ShownBelow(nodes, expanded, r, k, q);
    }
  }

  lemma {:induction false} ExtendShown(nodes: map<string, PrefixNode>, expanded: set<string>, r: string, q: string,
                                       p: string)
    requires Arboreal(nodes) && r in nodes && q in nodes && Shown(nodes, expanded, r, q)
    requires q in expanded && p in nodes[q].childIds
    ensures Shown(nodes, expanded, r, p)
    decreases LevelBound(nodes, RowDepth) - nodes[r].depth
  {
    hide Arboreal;
    if r == q {
      var k :| 0 <= k < |nodes[r].childIds| && nodes[r].childIds[k] == p;
      ChildFacts(nodes, r, k);
      assert ShownBelow(nodes, expanded, r, k, p);
    } else {
      var k :| 0 <= k < |nodes[r].childIds| && ShownBelow(nodes, expanded, r, k, q);
      ChildFacts(nodes, r, k);
      ExtendShown(nodes, expanded, nodes[r].childIds[k], q, p);
      assert ShownBelow(nodes, expanded, r, k, p);
    }
  }

  lemma OneParent(nodes: map<string, PrefixNode>, a: string, b: string, c: string)
    requires Arboreal(nodes) && a in nodes && b in nodes && c in nodes[a].childIds && c in nodes[b].childIds
    ensures a == b && c in nodes && nodes[c].depth == nodes[a].depth + 1
  {
  }

  /** Two nodes of one level do not show the same node. */
  lemma {:induction false} ShownFromOne(nodes: map<string, PrefixNode>, expanded: set<string>, a: string,
                                        b: string, p: string)
    requires Arboreal(nodes) && a in nodes && b in nodes && p in nodes && nodes[a].depth == nodes[b].depth
    requires Shown(nodes, expanded, a, p) && Shown(nodes, expanded, b, p)
    ensures a == b
    decreases nodes[p].depth
  {
    hide Arboreal, Shown;
    ShownDepth(nodes, expanded, a, p);
    ShownDepth(nodes, expanded, b, p);
    if a != p && b != p {
      var q := LastEdge(nodes, expanded, a, p);
      var s := LastEdge(nodes, expanded, b, p);
      OneParent(nodes, q, s, p);
      ShownFromOne(nodes, expanded, a, b, q);
    }
  }

  // ----- counting rows

  /** The number of prefix rows with a given id. */
  function RowCount(rows: seq<Row>, id: string): nat {
    if rows == [] then 0
    else
      var last := rows[|rows| - 1];
      RowCount(rows[..|rows| - 1], id) + if last.kind.PrefixLine? && last.id == id then 1 else 0
  }

  lemma {:induction false} CountOfConcat(a: seq<Row>, b: seq<Row>, id: string)
    ensures RowCount(a + b, id) == RowCount(a, id) + RowCount(b, id)
    decreases |b|
  {
    if b == [] {
      assert a + b == a;
    } else {
      assert (a + b)[..|a + b| - 1] == a + b[..|b| - 1];
      CountOfConcat(a, b[..|b| - 1], id);
    }
  }

  lemma {:induction false} CountOfRow(row: Row, id: string)
    ensures RowCount([row], id) == if row.kind.PrefixLine? && row.id == id then 1 else 0
  {
  }

  function Once(b: bool): nat {
    if b then 1 else 0
  }

  ghost predicate ShownFromChild(nodes: map<string, PrefixNode>, expanded: set<string>, r: string, k: nat, p: string)
    requires Arboreal(nodes) && r in nodes
  {
    exists j :: k <= j < |nodes[r].childIds| && ShownBelow(nodes, expanded, r, j, p)
  }

  /** A node's own row and its children's rows never both belong to one id. */
  lemma {:induction false} TreeCount(nodes: map<string, PrefixNode>, group: VrfGroup, expanded: set<string>,
                                     r: string, p: string)
    requires Arboreal(nodes) && r in nodes
    ensures RowCount(TreeRows(nodes, group, expanded, r), p) == Once(Shown(nodes, expanded, r, p))
    decreases LevelBound(nodes, RowDepth) - nodes[r].depth, 1, 0
  {
    assert Layered(nodes);
    hide Arboreal, Layered, Shown, ChildRows, ShownBelow;
    OwnRows(nodes, group, expanded, r);
    var row := PrefixRow(nodes[r], group, expanded);
    CountOfRow(row, p);
    ShownCases(nodes, expanded, r, p);
    if r in expanded {
      ChildCount(nodes, group, expanded, r, 0, p);
      CountOfConcat([row], ChildRows(nodes, group, expanded, r, 0), p);
    }
  }

  lemma {:induction false} OwnRows(nodes: map<string, PrefixNode>, group: VrfGroup, expanded: set<string>, r: string)
    requires Arboreal(nodes) && r in nodes
    ensures TreeRows(nodes, group, expanded, r)
         == [PrefixRow(nodes[r], group, expanded)]
            + if r in expanded then ChildRows(nodes, group, expanded, r, 0) else []
    ensures nodes[r].id == r
  {
    hide ChildRows, PrefixRow;
  }

  lemma {:induction false} ShownCases(nodes: map<string, PrefixNode>, expanded: set<string>, r: string, p: string)
    requires Arboreal(nodes) && r in nodes
    ensures Shown(nodes, expanded, r, p) <==> r == p || (r in expanded && ShownFromChild(nodes, expanded, r, 0, p))
    ensures r == p ==> !ShownFromChild(nodes, expanded, r, 0, p)
  {
    hide Arboreal;
    forall j | 0 <= j < |nodes[r].childIds| && ShownBelow(nodes, expanded, r, j, p) ensures r != p {
      ChildFacts(nodes, r, j);
      ShownDepth(nodes, expanded, nodes[r].childIds[j], p);
    }
  }

  lemma {:induction false} ChildCount(nodes: map<string, PrefixNode>, group: VrfGroup, expanded: set<string>,
                                      r: string, k: nat, p: string)
    requires Arboreal(nodes) && r in nodes && k <= |nodes[r].childIds|
    ensures RowCount(ChildRows(nodes, group, expanded, r, k), p) == Once(ShownFromChild(nodes, expanded, r, k, p))
    decreases LevelBound(nodes, RowDepth) - nodes[r].depth, 0, |nodes[r].childIds| - k
  {
    assert Layered(nodes);
    hide Arboreal, Layered, Shown, TreeRows;
    if k < |nodes[r].childIds| {
      ChildFacts(nodes, r, k);
      var c := nodes[r].childIds[k];
      TreeCount(nodes, group, expanded, c, p);
      ChildCount(nodes, group, expanded, r, k + 1, p);
      CountOfConcat(TreeRows(nodes, group, expanded, c), ChildRows(nodes, group, expanded, r, k + 1), p);
      FromOneChild(nodes, expanded, r, k, p);
    }
  }

  lemma FromOneChild(nodes: map<string, PrefixNode>, expanded: set<string>, r: string, k: nat, p: string)
    requires Arboreal(nodes) && r in nodes && k < |nodes[r].childIds|
    ensures ShownFromChild(nodes, expanded, r, k, p) <==>
            ShownBelow(nodes, expanded, r, k, p) || ShownFromChild(nodes, expanded, r, k + 1, p)
    ensures ShownBelow(nodes, expanded, r, k, p) ==> !ShownFromChild(nodes, expanded, r, k + 1, p)
  {
    DistinctChildren(nodes, r);
    hide Arboreal, Shown;
    forall j | k < j < |nodes[r].childIds| && ShownBelow(nodes, expanded, r, j, p)
      ensures !ShownBelow(nodes, expanded, r, k, p)
    {
      if ShownBelow(nodes, expanded, r, k, p) {
        ChildFacts(nodes, r, k);
        ChildFacts(nodes, r, j);
        ShownDepth(nodes, expanded, nodes[r].childIds[k], p);
        ShownFromOne(nodes, expanded, nodes[r].childIds[k], nodes[r].childIds[j], p);
      }
    }
  }

  lemma DistinctChildren(nodes: map<string, PrefixNode>, r: string)
    requires Arboreal(nodes) && r in nodes
    ensures forall i, j :: 0 <= i < j < |nodes[r].childIds| ==> nodes[r].childIds[i] != nodes[r].childIds[j]
  {
  }

  // ----- counting over the roots of a group

  ghost predicate ShownFromList(nodes: map<string, PrefixNode>, expanded: set<string>, ids: seq<string>, p: string)
    requires Arboreal(nodes)
  {
    exists r :: r in ids && r in nodes && Shown(nodes, expanded, r, p)
  }

  ghost predicate AreRoots(nodes: map<string, PrefixNode>, ids: seq<string>) {
    NoDuplicates(ids) && forall r :: r in ids ==> r in nodes && nodes[r].depth == 0
  }

  lemma {:induction false} ForestCount(nodes: map<string, PrefixNode>, group: VrfGroup, expanded: set<string>,
                                       ids: seq<string>, p: string)
    requires Arboreal(nodes) && AreRoots(nodes, ids)
    ensures RowCount(ForestRows(nodes, group, expanded, ids), p) == Once(ShownFromList(nodes, expanded, ids, p))
    decreases |ids|
  {
    assert Layered(nodes);
    hide Arboreal, Layered, Shown, TreeRows;
    if ids != [] {
      var r, rest := ids[0], ids[1..];
      assert r in ids;
      assert AreRoots(nodes, rest);
      TreeCount(nodes, group, expanded, r, p);
      ForestCount(nodes, group, expanded, rest, p);
      CountOfConcat(TreeRows(nodes, group, expanded, r), ForestRows(nodes, group, expanded, rest), p);
      forall s | s in rest && Shown(nodes, expanded, s, p) ensures !Shown(nodes, expanded, r, p) {
        if Shown(nodes, expanded, r, p) {
          ShownDepth(nodes, expanded, r, p);
          ShownFromOne(nodes, expanded, r, s, p);
        }
      }
    }
  }

  // ----- counting over the groups

  ghost predicate GroupsDisjoint(groups: seq<VrfGroup>) {
    forall g, h, r :: 0 <= g < h < |groups| && r in groups[g].rootNodeIds ==> r !in groups[h].rootNodeIds
  }

  ghost predicate GroupsOfRoots(nodes: map<string, PrefixNode>, groups: seq<VrfGroup>) {
    GroupsDisjoint(groups) && forall g :: 0 <= g < |groups| ==> AreRoots(nodes, groups[g].rootNodeIds)
  }

  ghost predicate ShownInGroup(model: Model, expanded: set<string>, g: nat, p: string)
    requires Arboreal(model.nodes) && g < |model.vrfs|
  {
    model.vrfs[g].id in expanded && ShownFromList(model.nodes, expanded, model.vrfs[g].rootNodeIds, p)
  }

  ghost predicate ShownInSome(model: Model, expanded: set<string>, n: nat, p: string)
    requires Arboreal(model.nodes) && n <= |model.vrfs|
  {
    exists g :: 0 <= g < n && ShownInGroup(model, expanded, g, p)
  }

  lemma {:induction false} GroupCount(nodes: map<string, PrefixNode>, group: VrfGroup, expanded: set<string>, p: string)
    requires Arboreal(nodes) && AreRoots(nodes, group.rootNodeIds)
    ensures RowCount(GroupRows(nodes, group, expanded), p)
         == Once(group.id in expanded && ShownFromList(nodes, expanded, group.rootNodeIds, p))
  {
    assert Layered(nodes);
    hide Arboreal, Layered, AreRoots, ForestRows, ShownFromList;
    CountOfRow(GroupRow(group, expanded), p);
    if group.id in expanded {
      ForestCount(nodes, group, expanded, group.rootNodeIds, p);
      CountOfConcat([GroupRow(group, expanded)], ForestRows(nodes, group, expanded, group.rootNodeIds), p);
    }
  }

  lemma FromOneGroup(model: Model, expanded: set<string>, g: nat, h: nat, p: string)
    requires Arboreal(model.nodes) && GroupsOfRoots(model.nodes, model.vrfs) && g < h < |model.vrfs|
    requires ShownInGroup(model, expanded, g, p)
    ensures !ShownInGroup(model, expanded, h, p)
  {
    hide Arboreal, Shown;
    var nodes := model.nodes;
    var r :| r in model.vrfs[g].rootNodeIds && r in nodes && Shown(nodes, expanded, r, p);
    ShownDepth(nodes, expanded, r, p);
    forall s | s in model.vrfs[h].rootNodeIds && s in nodes ensures !Shown(nodes, expanded, s, p) {
      assert AreRoots(nodes, model.vrfs[g].rootNodeIds) && AreRoots(nodes, model.vrfs[h].rootNodeIds);
      if Shown(nodes, expanded, s, p) {
        ShownFromOne(nodes, expanded, r, s, p);
      }
    }
  }

  lemma SomeGroupSplit(model: Model, expanded: set<string>, n: nat, p: string)
    requires Arboreal(model.nodes) && GroupsOfRoots(model.nodes, model.vrfs) && 0 < n <= |model.vrfs|
    ensures ShownInSome(model, expanded, n, p) <==>
            ShownInSome(model, expanded, n - 1, p) || ShownInGroup(model, expanded, n - 1, p)
    ensures ShownInSome(model, expanded, n - 1, p) ==> !ShownInGroup(model, expanded, n - 1, p)
  {
    hide Arboreal, GroupsOfRoots, ShownInGroup;
    forall g | 0 <= g < n - 1 && ShownInGroup(model, expanded, g, p) ensures !ShownInGroup(model, expanded, n - 1, p) {
      FromOneGroup(model, expanded, g, n - 1, p);
    }
  }

  lemma {:induction false} AllCount(model: Model, expanded: set<string>, n: nat, p: string)
    requires Arboreal(model.nodes) && GroupsOfRoots(model.nodes, model.vrfs) && n <= |model.vrfs|
    ensures RowCount(AllRows(model, expanded, n), p) == Once(ShownInSome(model, expanded, n, p))
    decreases n
  {
    assert Layered(model.nodes);
    AllRowsStep(model, expanded, n);
    hide *;
    if n > 0 {
      AllCount(model, expanded, n - 1, p);
      GroupAt(model, expanded, n - 1, p);
      CountOfConcat(AllRows(model, expanded, n - 1), GroupRows(model.nodes, model.vrfs[n - 1], expanded), p);
      SomeGroupSplit(model, expanded, n, p);
      OnceEither(ShownInSome(model, expanded, n - 1, p), ShownInGroup(model, expanded, n - 1, p));
    } else {
      NoRowsCount(model, expanded, p);
    }
  }

  lemma AllRowsStep(model: Model, expanded: set<string>, n: nat)
    requires Layered(model.nodes) && n <= |model.vrfs|
    ensures AllRows(model, expanded, n)
         == if n == 0 then [] else AllRows(model, expanded, n - 1) + GroupRows(model.nodes, model.vrfs[n - 1], expanded)
  {
    hide Layered, GroupRows;
  }

  lemma OnceEither(a: bool, b: bool)
    requires a ==> !b
    ensures Once(a || b) == Once(a) + Once(b)
  {
  }

  lemma {:induction false} NoRowsCount(model: Model, expanded: set<string>, p: string)
    requires Arboreal(model.nodes) && GroupsOfRoots(model.nodes, model.vrfs)
    ensures RowCount([], p) == 0 && !ShownInSome(model, expanded, 0, p) && Once(false) == 0
  {
  }

  lemma {:induction false} GroupAt(model: Model, expanded: set<string>, g: nat, p: string)
    requires Arboreal(model.nodes) && GroupsOfRoots(model.nodes, model.vrfs) && g < |model.vrfs|
    ensures RowCount(GroupRows(model.nodes, model.vrfs[g], expanded), p) == Once(ShownInGroup(model, expanded, g, p))
  {
    hide Arboreal, ShownFromList, GroupRows;
    GroupCount(model.nodes, model.vrfs[g], expanded, p);
  }

  // ----- the groups of a forest

  lemma {:induction false} RootsOfFacts(tree: Tree, n: nat, vrfId: Option<string>)
    requires n <= |tree.roots|
    ensures forall id :: id in RootsOf(tree, n, vrfId) <==>
                         id in tree.roots[..n] && id in tree.nodes && tree.nodes[id].prefix.vrfId == vrfId
    ensures NoDuplicates(tree.roots) ==> NoDuplicates(RootsOf(tree, n, vrfId))
  {
    if n > 0 {
      RootsOfFacts(tree, n - 1, vrfId);
      assert tree.roots[..n] == tree.roots[..n - 1] + [tree.roots[n - 1]];
    }
  }

  lemma {:induction false} VrfKeysFacts(tree: Tree, n: nat)
    requires n <= |tree.roots|
    ensures NoDuplicates(VrfKeys(tree, n))
    ensures forall id :: id in tree.roots[..n] && id in tree.nodes ==> tree.nodes[id].prefix.vrfId in VrfKeys(tree, n)
  {
    if n > 0 {
      VrfKeysFacts(tree, n - 1);
      assert tree.roots[..n] == tree.roots[..n - 1] + [tree.roots[n - 1]];
    }
  }

  /** Each group holds the roots of one VRF, and no two groups hold the same VRF's. */
  ghost predicate HoldsRootsOf(tree: Tree, group: VrfGroup, key: Option<string>) {
    && group.id == GroupId(key)
    && NoDuplicates(group.rootNodeIds)
    && (forall id :: id in group.rootNodeIds <==>
                       id in tree.roots && id in tree.nodes && tree.nodes[id].prefix.vrfId == key)
  }

  lemma {:induction false} GroupHolds(tree: Tree, vrfs: seq<VrfSource>, collate: (string, string) -> int, g: nat)
    requires NoDuplicates(tree.roots) && g < |GroupsFor(tree, vrfs, collate)|
    ensures HoldsRootsOf(tree, GroupsFor(tree, vrfs, collate)[g], VrfKeys(tree, |tree.roots|)[g])
  {
    hide VrfKeys, Index;
    var n, key := |tree.roots|, VrfKeys(tree, |tree.roots|)[g];
    RootsOfFacts(tree, n, key);
    assert tree.roots[..n] == tree.roots;
    SortByFacts(RootsOf(tree, n, key), Collated(collate));
  }

  /** Every key of the map of root lists has at least one root. */
  lemma {:induction false} KeyHasRoot(tree: Tree, n: nat, key: Option<string>)
    requires n <= |tree.roots| && key in VrfKeys(tree, n)
    ensures exists id :: id in tree.roots && id in tree.nodes && tree.nodes[id].prefix.vrfId == key
  {
    if n > 0 && key in VrfKeys(tree, n - 1) {
      KeyHasRoot(tree, n - 1, key);
    } else if n > 0 {
      assert tree.roots[n - 1] in tree.roots;
    }
  }

  /** Groups of different keys share no root; as each has one, they differ. */
  lemma GroupsApart(tree: Tree, vrfs: seq<VrfSource>, collate: (string, string) -> int, g: nat, h: nat)
    requires NoDuplicates(tree.roots) && g < h < |GroupsFor(tree, vrfs, collate)|
    ensures var groups := GroupsFor(tree, vrfs, collate);
            && groups[g] != groups[h]
            && forall r :: r in groups[g].rootNodeIds ==> r !in groups[h].rootNodeIds
  {
    GroupHolds(tree, vrfs, collate, g);
    GroupHolds(tree, vrfs, collate, h);
    VrfKeysFacts(tree, |tree.roots|);
    var groups, keys := GroupsFor(tree, vrfs, collate), VrfKeys(tree, |tree.roots|);
    assert keys[g] != keys[h];
    assert keys[g] in keys;
    KeyHasRoot(tree, |tree.roots|, keys[g]);
    hide VrfKeys, GroupsFor, NoDuplicates;
    var id :| id in tree.roots && id in tree.nodes && tree.nodes[id].prefix.vrfId == keys[g];
    assert id in groups[g].rootNodeIds && id !in groups[h].rootNodeIds;
  }

  ghost predicate GroupsMatch(tree: Tree, groups: seq<VrfGroup>) {
    && GroupsDisjoint(groups)
    && (forall group :: group in groups ==>
          NoDuplicates(group.rootNodeIds)
          && forall r :: r in group.rootNodeIds ==>
               r in tree.roots && r in tree.nodes && group.id == GroupId(tree.nodes[r].prefix.vrfId))
    && (forall r :: r in tree.roots && r in tree.nodes ==> exists group :: group in groups && r in group.rootNodeIds)
  }

  lemma RootHasGroup(tree: Tree, vrfs: seq<VrfSource>, collate: (string, string) -> int, r: string)
    requires NoDuplicates(tree.roots) && r in tree.roots && r in tree.nodes
    ensures exists g :: 0 <= g < |GroupsFor(tree, vrfs, collate)| && r in GroupsFor(tree, vrfs, collate)[g].rootNodeIds
  {
    var keys, key := VrfKeys(tree, |tree.roots|), tree.nodes[r].prefix.vrfId;
    VrfKeysFacts(tree, |tree.roots|);
    assert tree.roots[..|tree.roots|] == tree.roots;
    hide VrfKeys, GroupsFor;
    assert key in keys;
    var g :| 0 <= g < |keys| && keys[g] == key;
    GroupHolds(tree, vrfs, collate, g);
  }

  lemma UnsortedMatch(tree: Tree, vrfs: seq<VrfSource>, collate: (string, string) -> int)
    requires NoDuplicates(tree.roots)
    ensures GroupsMatch(tree, GroupsFor(tree, vrfs, collate)) && NoDuplicates(GroupsFor(tree, vrfs, collate))
  {
    hide GroupsFor;
    var groups := GroupsFor(tree, vrfs, collate);
    forall g, h | 0 <= g < h < |groups|
      ensures groups[g] != groups[h] && forall r :: r in groups[g].rootNodeIds ==> r !in groups[h].rootNodeIds
    {
      GroupsApart(tree, vrfs, collate, g, h);
    }
    forall group | group in groups
      ensures NoDuplicates(group.rootNodeIds)
      ensures forall r :: r in group.rootNodeIds ==>
                r in tree.roots && r in tree.nodes && group.id == GroupId(tree.nodes[r].prefix.vrfId)
    {
      var g :| 0 <= g < |groups| && groups[g] == group;
      GroupHolds(tree, vrfs, collate, g);
    }
    forall r | r in tree.roots && r in tree.nodes ensures exists group :: group in groups && r in group.rootNodeIds {
      RootHasGroup(tree, vrfs, collate, r);
      var g :| 0 <= g < |groups| && r in groups[g].rootNodeIds;
      assert groups[g] in groups;
    }
  }

  /** Two different members of a matched list share no root. */
  lemma MembersDisjoint(groups: seq<VrfGroup>, a: VrfGroup, b: VrfGroup, r: string)
    requires GroupsDisjoint(groups) && a in groups && b in groups && a != b && r in a.rootNodeIds
    ensures r !in b.rootNodeIds
  {
    var g :| 0 <= g < |groups| && groups[g] == a;
    var h :| 0 <= h < |groups| && groups[h] == b;
  }

  lemma {:induction false} SortingKeepsMatch(tree: Tree, groups: seq<VrfGroup>, before: (VrfGroup, VrfGroup) -> bool)
    requires GroupsMatch(tree, groups) && NoDuplicates(groups)
    ensures GroupsMatch(tree, SortBy(groups, before))
  {
    SortByFacts(groups, before);
    var sorted := SortBy(groups, before);
    hide SortBy;
    forall g, h, r | 0 <= g < h < |sorted| && r in sorted[g].rootNodeIds ensures r !in sorted[h].rootNodeIds {
      assert sorted[g] in sorted && sorted[h] in sorted;
      MembersDisjoint(groups, sorted[g], sorted[h], r);
    }
  }

  /** The groups of the model partition the roots by VRF. */
  lemma ModelGroupsMatch(tree: Tree, vrfs: seq<VrfSource>, utilization: map<string, Utilization>, xs: seq<IpAddress>,
                         collate: (string, string) -> int)
    requires NoDuplicates(tree.roots)
    ensures GroupsMatch(tree, ModelFor(vrfs, tree, utilization, xs, collate).vrfs)
  {
    hide GroupsFor, GroupsMatch, SortBy, ByName, NoDuplicates;
    UnsortedMatch(tree, vrfs, collate);
    SortingKeepsMatch(tree, GroupsFor(tree, vrfs, collate), ByName(collate));
  }
}
