/** The address tree view (packages/ui/src/ipam-tree/index.ts): grouping the prefix forest by VRF
    and flattening the expanded part of it into rows. */
module IpamTree {
  import opened Wrappers
  import opened Sorting
  import opened InventoryModel
  import opened Keyed
  import opened PrefixForest
  import opened PrefixUtilization

  datatype VrfSource = VrfSource(id: string, name: string, rd: Option<string>)

  datatype PrefixNode = PrefixNode(
    id: string, vrfId: Option<string>, cidr: string, status: string, allocationMode: string,
    depth: nat, childIds: seq<string>, utilization: Option<Utilization>, addressCount: nat)

  datatype VrfGroup = VrfGroup(id: string, name: string, rd: Option<string>, rootNodeIds: seq<string>)

  datatype Model = Model(vrfs: seq<VrfGroup>, nodes: map<string, PrefixNode>)

  /** The entries of the forest's map are there to be iterated, and each is filed under its
      prefix's id. */
  ghost predicate Filed(tree: Tree) {
    && (forall id :: id in tree.order <==> id in tree.nodes)
    && (forall id :: id in tree.nodes ==> tree.nodes[id].prefix.id == id)
  }

  // ----- the model

  function NodeFor(node: Node, utilization: map<string, Utilization>, xs: seq<IpAddress>): PrefixNode {
    var p := node.prefix;
    PrefixNode(
      p.id, p.vrfId, p.cidr, p.status, p.allocationMode, node.depth, node.childPrefixIds,
      if p.id in utilization then Some(utilization[p.id]) else None,
      DirectCount(xs, p.id))
  }

  function NodesFor(nodes: map<string, Node>, utilization: map<string, Utilization>,
                    xs: seq<IpAddress>): map<string, PrefixNode> {
    map id | id in nodes :: NodeFor(nodes[id], utilization, xs)
  }

  function VrfId(vrf: VrfSource): string { vrf.id }

  /** The roots among the first `n` that belong to one VRF, in order. */
  function RootsOf(tree: Tree, n: nat, vrfId: Option<string>): seq<string>
    requires n <= |tree.roots|
  {
    if n == 0 then []
    else
      var id := tree.roots[n - 1];
      RootsOf(tree, n - 1, vrfId) + if id in tree.nodes && tree.nodes[id].prefix.vrfId == vrfId then [id] else []
  }

  /** The VRFs of the first `n` roots, each where it first occurs. */
  function VrfKeys(tree: Tree, n: nat): seq<Option<string>>
    requires n <= |tree.roots|
  {
    if n == 0 then []
    else
      var id, earlier := tree.roots[n - 1], VrfKeys(tree, n - 1);
      if id in tree.nodes && tree.nodes[id].prefix.vrfId !in earlier then earlier + [tree.nodes[id].prefix.vrfId]
      else earlier
  }

  function GroupId(vrfId: Option<string>): string {
    OrElse(vrfId, "vrf-unscoped")
  }

  function Collated(collate: (string, string) -> int): (string, string) -> bool {
    (left: string, right: string) => collate(left, right) <= 0
  }

  function ByName(collate: (string, string) -> int): (VrfGroup, VrfGroup) -> bool {
    (left: VrfGroup, right: VrfGroup) => collate(left.name, right.name) <= 0
  }

  function GroupFor(vrfId: Option<string>, roots: seq<string>, vrfs: map<string, VrfSource>,
                    collate: (string, string) -> int): VrfGroup {
    var known := Truthy(vrfId) && vrfId.value in vrfs;
    VrfGroup(
      GroupId(vrfId),
      if known then vrfs[vrfId.value].name else "Unscoped",
      if known then vrfs[vrfId.value].rd else None,
      SortBy(roots, Collated(collate)))
  }

  /** The groups before they are sorted by name, one for each VRF of a root. */
  function GroupsFor(tree: Tree, vrfs: seq<VrfSource>, collate: (string, string) -> int): (groups: seq<VrfGroup>)
    ensures |groups| == |VrfKeys(tree, |tree.roots|)|
    ensures forall g :: 0 <= g < |groups| ==>
              var key := VrfKeys(tree, |tree.roots|)[g];
              groups[g] == GroupFor(key, RootsOf(tree, |tree.roots|, key), Index(vrfs, VrfId), collate)
  {
    var keys := VrfKeys(tree, |tree.roots|);
    seq(|keys|, g requires 0 <= g < |keys| =>
      GroupFor(keys[g], RootsOf(tree, |tree.roots|, keys[g]), Index(vrfs, VrfId), collate))
  }

  function ModelFor(vrfs: seq<VrfSource>, tree: Tree, utilization: map<string, Utilization>, xs: seq<IpAddress>,
                    collate: (string, string) -> int): Model {
    Model(SortBy(GroupsFor(tree, vrfs, collate), ByName(collate)), NodesFor(tree.nodes, utilization, xs))
  }

  method CountAddresses(xs: seq<IpAddress>) returns (directory: map<string, nat>)
    ensures forall id :: (if id in directory then directory[id] else 0) == DirectCount(xs, id)
    ensures forall id :: (if id in directory then directory[id] else 0) == Attached(xs, id)
  {
    forall id ensures DirectCount(xs, id) == Attached(xs, id) {
      DirectCountIs(xs, id);
    }
    hide Attached;
    directory := map[];
    for i := 0 to |xs|
      invariant forall id :: (if id in directory then directory[id] else 0) == |DirectAddresses(xs, i, id)|
    {
      if Truthy(xs[i].prefixId) {
        var id := xs[i].prefixId.value;
        directory := directory[id := (if id in directory then directory[id] else 0) + 1];
      }
    }
  }

  ghost predicate Bucketed(vrfRoots: map<Option<string>, seq<string>>, tree: Tree, n: nat)
    requires n <= |tree.roots|
  {
    forall key :: (if key in vrfRoots then vrfRoots[key] else []) == RootsOf(tree, n, key)
  }

  /** The next root goes to the end of its VRF's bucket; a root without a node goes nowhere. */
  lemma BucketStep(vrfRoots: map<Option<string>, seq<string>>, tree: Tree, i: nat)
    requires i < |tree.roots| && Bucketed(vrfRoots, tree, i)
    ensures tree.roots[i] !in tree.nodes ==> Bucketed(vrfRoots, tree, i + 1)
    ensures tree.roots[i] in tree.nodes ==>
              var key := tree.nodes[tree.roots[i]].prefix.vrfId;
              Bucketed(vrfRoots[key := (if key in vrfRoots then vrfRoots[key] else []) + [tree.roots[i]]], tree, i + 1)
  {
    forall key ensures RootsOf(tree, i, key) == if key in vrfRoots then vrfRoots[key] else [] {
    }
  }

  method GroupRoots(tree: Tree) returns (keys: seq<Option<string>>, vrfRoots: map<Option<string>, seq<string>>)
    ensures keys == VrfKeys(tree, |tree.roots|)
    ensures forall key :: key in keys <==> key in vrfRoots
    ensures forall key :: (if key in vrfRoots then vrfRoots[key] else []) == RootsOf(tree, |tree.roots|, key)
  {
    hide RootsOf, Bucketed;
    keys, vrfRoots := [], map[];
    NothingBucketed(tree);
    for i := 0 to |tree.roots|
      invariant keys == VrfKeys(tree, i)
      invariant forall key :: key in keys <==> key in vrfRoots
      invariant Bucketed(vrfRoots, tree, i)
    {
      BucketStep(vrfRoots, tree, i);
      var rootId := tree.roots[i];
      if rootId in tree.nodes {
        var vrfId := tree.nodes[rootId].prefix.vrfId;
        var currentRoots := if vrfId in vrfRoots then vrfRoots[vrfId] else [];
        if vrfId !in vrfRoots {
          keys := keys + [vrfId];
        }
        vrfRoots := vrfRoots[vrfId := currentRoots + [rootId]];
      }
    }
    BucketsOf(vrfRoots, tree);
  }

  lemma NothingBucketed(tree: Tree)
    ensures Bucketed(map[], tree, 0)
  {
  }

  lemma {:induction false} BucketsOf(vrfRoots: map<Option<string>, seq<string>>, tree: Tree)
    requires Bucketed(vrfRoots, tree, |tree.roots|)
    ensures forall key :: (if key in vrfRoots then vrfRoots[key] else []) == RootsOf(tree, |tree.roots|, key)
  {
  }

  method BuildNodes(tree: Tree, utilization: map<string, Utilization>, xs: seq<IpAddress>)
    returns (nodes: map<string, PrefixNode>)
    requires Filed(tree)
    ensures nodes == NodesFor(tree.nodes, utilization, xs)
  {
    hide DirectCount;
    var addressDirectory := CountAddresses(xs);
    nodes := map[];
    for i := 0 to |tree.order|
      invariant forall id :: id in nodes <==> id in tree.order[..i]
      invariant forall id :: id in nodes ==> id in tree.nodes && nodes[id] == NodeFor(tree.nodes[id], utilization, xs)
    {
      var node := tree.nodes[tree.order[i]];
      var p := node.prefix;
      nodes := nodes[p.id := PrefixNode(
        p.id, p.vrfId, p.cidr, p.status, p.allocationMode, node.depth, node.childPrefixIds,
        if p.id in utilization then Some(utilization[p.id]) else None,
        if p.id in addressDirectory then addressDirectory[p.id] else 0)];
    }
    assert tree.order[..|tree.order|] == tree.order;
  }

  method BuildVrfMap(vrfs: seq<VrfSource>) returns (vrfMap: map<string, VrfSource>)
    ensures vrfMap == Index(vrfs, VrfId)
  {
    vrfMap := map[];
    for i := 0 to |vrfs|
      invariant vrfMap == Index(vrfs[..i], VrfId)
    {
      assert vrfs[..i + 1][..i] == vrfs[..i];
      vrfMap := vrfMap[vrfs[i].id := vrfs[i]];
    }
    assert vrfs[..|vrfs|] == vrfs;
  }

  method MakeGroup(vrfId: Option<string>, rootNodeIds: seq<string>, vrfMap: map<string, VrfSource>,
                   collate: (string, string) -> int) returns (group: VrfGroup)
    ensures multiset(group.rootNodeIds) == multiset(rootNodeIds)
    ensures PreorderOn((set id | id in rootNodeIds), Collated(collate)) ==> Sorted(group.rootNodeIds, Collated(collate))
    ensures group.id == "vrf-unscoped" <==> vrfId == None || vrfId == Some("vrf-unscoped")
    ensures (forall id :: vrfId == Some(id) ==> id == "" || id !in vrfMap) ==>
              group.name == "Unscoped" && group.rd == None
    ensures forall id :: vrfId == Some(id) && id != "" && id in vrfMap ==>
              group.name == vrfMap[id].name && group.rd == vrfMap[id].rd
    ensures vrfId.Some? ==> group.id == vrfId.value
    ensures group == GroupFor(vrfId, rootNodeIds, vrfMap, collate)
  {
    SortByPermutes(rootNodeIds, Collated(collate));
    if PreorderOn((set id | id in rootNodeIds), Collated(collate)) {
      SortBySorts(rootNodeIds, Collated(collate), set id | id in rootNodeIds);
    }
    var vrf := if Truthy(vrfId) && vrfId.value in vrfMap then Some(vrfMap[vrfId.value]) else None;
    var id, name, rd := "vrf-unscoped", "Unscoped", None;
    if vrfId.Some? {
      id := vrfId.value;
    }
    if vrf.Some? {
      name, rd := vrf.value.name, vrf.value.rd;
    }
    return VrfGroup(id, name, rd, SortBy(rootNodeIds, Collated(collate)));
  }

  method CreateIpamTreeModel(vrfs: seq<VrfSource>, tree: Tree, utilization: map<string, Utilization>,
                             xs: seq<IpAddress>,
                             collate: (string, string) -> int) returns (model: Model)
    requires Filed(tree)
    ensures model == ModelFor(vrfs, tree, utilization, xs, collate)
    ensures forall id :: id in model.nodes <==> id in tree.nodes
    ensures forall id :: id in tree.nodes ==> NodeShows(tree.nodes[id], utilization, xs, model.nodes[id])
    ensures PreorderOn((set group | group in model.vrfs), ByName(collate)) ==> Sorted(model.vrfs, ByName(collate))
  {
    ModelShows(vrfs, tree, utilization, xs, collate);
    hide NodeShows, PreorderOn, Sorted;
    hide VrfKeys, RootsOf, Index, NodesFor, Filed, GroupFor;
    var nodes := BuildNodes(tree, utilization, xs);
    var vrfMap := BuildVrfMap(vrfs);
    var keys, vrfRoots := GroupRoots(tree);
    var groups: seq<VrfGroup> := [];
    for g := 0 to |keys|
      invariant groups == GroupsFor(tree, vrfs, collate)[..g]
    {
      var vrfId := keys[g];
      assert vrfId in keys;
      var group := MakeGroup(vrfId, vrfRoots[vrfId], vrfMap, collate);
      groups := groups + [group];
    }
    assert groups == GroupsFor(tree, vrfs, collate);
    return Model(SortBy(groups, ByName(collate)), nodes);
  }

  /** A node of the model shows its prefix, its place in the forest, its utilization and the number of
      addresses that name it. */
  ghost predicate NodeShows(node: Node, utilization: map<string, Utilization>, xs: seq<IpAddress>, x: PrefixNode) {
    var p := node.prefix;
    && x.id == p.id && x.vrfId == p.vrfId && x.cidr == p.cidr
    && x.status == p.status && x.allocationMode == p.allocationMode
    && x.depth == node.depth && x.childIds == node.childPrefixIds
    && x.addressCount == Attached(xs, p.id)
    && (p.id in utilization ==> x.utilization == Some(utilization[p.id]))
    && (p.id !in utilization ==> x.utilization == None)
  }

  lemma ModelShows(vrfs: seq<VrfSource>, tree: Tree, utilization: map<string, Utilization>, xs: seq<IpAddress>,
                   collate: (string, string) -> int)
    ensures var model := ModelFor(vrfs, tree, utilization, xs, collate);
            && (forall id :: id in model.nodes <==> id in tree.nodes)
            && (forall id :: id in tree.nodes ==> NodeShows(tree.nodes[id], utilization, xs, model.nodes[id]))
            && (PreorderOn((set group | group in model.vrfs), ByName(collate)) ==>
                  Sorted(model.vrfs, ByName(collate)))
  {
    hide DirectCount, Attached, GroupsFor;
    var model, groups := ModelFor(vrfs, tree, utilization, xs, collate), GroupsFor(tree, vrfs, collate);
    forall id | id in tree.nodes ensures NodeShows(tree.nodes[id], utilization, xs, model.nodes[id]) {
      DirectCountIs(xs, tree.nodes[id].prefix.id);
    }
    hide NodesFor, NodeShows;
    SortByFacts(groups, ByName(collate));
    if PreorderOn((set group | group in model.vrfs), ByName(collate)) {
      SortBySorts(groups, ByName(collate), set group | group in model.vrfs);
    }
  }

  // ----- rows

  datatype Kind = VrfLine | PrefixLine

  datatype Row = Row(
    id: string, kind: Kind, depth: nat, expanded: bool, hasChildren: bool, name: string,
    prefixNode: Option<PrefixNode>, vrfGroup: VrfGroup)

  function GroupRow(group: VrfGroup, expanded: set<string>): Row {
    Row(group.id, VrfLine, 0, group.id in expanded, |group.rootNodeIds| > 0, group.name, None, group)
  }

  function PrefixRow(node: PrefixNode, group: VrfGroup, expanded: set<string>): Row {
    Row(node.id, PrefixLine, node.depth + 1, node.id in expanded, |node.childIds| > 0, node.cidr, Some(node), group)
  }

  /** Nodes are filed under their ids and children lie one level below. */
  ghost predicate Layered(nodes: map<string, PrefixNode>) {
    && (forall id :: id in nodes ==> nodes[id].id == id)
    && (forall id, c :: id in nodes && c in nodes[id].childIds && c in nodes ==> nodes[c].depth == nodes[id].depth + 1)
  }

  function RowDepth(node: PrefixNode): nat { node.depth }

  /** The rows of a node and, where it is expanded, of everything below it, in pre-order. Empty ids
      and ids without a node give no row. */
  ghost function TreeRows(nodes: map<string, PrefixNode>, group: VrfGroup, expanded: set<string>, id: string): seq<Row>
    requires Layered(nodes)
    decreases if id in nodes then LevelBound(nodes, RowDepth) - nodes[id].depth + 1 else 0, 1, 0
  {
    if id == "" || id !in nodes then []
    else
      [PrefixRow(nodes[id], group, expanded)]
      + if id in expanded then ChildRows(nodes, group, expanded, id, 0) else []
  }

  /** The rows of the children of a node, from the `k`th on. */
  ghost function ChildRows(nodes: map<string, PrefixNode>, group: VrfGroup, expanded: set<string>, id: string,
                           k: nat): seq<Row>
    requires Layered(nodes) && id in nodes && k <= |nodes[id].childIds|
    decreases LevelBound(nodes, RowDepth) - nodes[id].depth + 1, 0, |nodes[id].childIds| - k
  {
    if k == |nodes[id].childIds| then []
    else
      assert nodes[id].childIds[k] in nodes[id].childIds;
      TreeRows(nodes, group, expanded, nodes[id].childIds[k]) + ChildRows(nodes, group, expanded, id, k + 1)
  }

  ghost function ForestRows(nodes: map<string, PrefixNode>, group: VrfGroup, expanded: set<string>,
                            ids: seq<string>): seq<Row>
    requires Layered(nodes)
    decreases |ids|
  {
    if ids == [] then [] else TreeRows(nodes, group, expanded, ids[0]) + ForestRows(nodes, group, expanded, ids[1..])
  }

  ghost function GroupRows(nodes: map<string, PrefixNode>, group: VrfGroup, expanded: set<string>): seq<Row>
    requires Layered(nodes)
  {
    [GroupRow(group, expanded)]
    + if group.id in expanded then ForestRows(nodes, group, expanded, group.rootNodeIds) else []
  }

  ghost function AllRows(model: Model, expanded: set<string>, n: nat): seq<Row>
    requires Layered(model.nodes) && n <= |model.vrfs|
    decreases n
  {
    if n == 0 then [] else AllRows(model, expanded, n - 1) + GroupRows(model.nodes, model.vrfs[n - 1], expanded)
  }

  // ----- the stack

  function Reversed(s: seq<string>): (r: seq<string>)
    ensures |r| == |s| && forall i :: 0 <= i < |s| ==> r[i] == s[|s| - 1 - i]
  {
    seq(|s|, i requires 0 <= i < |s| => s[|s| - 1 - i])
  }

  lemma {:induction false} ForestOfConcat(nodes: map<string, PrefixNode>, group: VrfGroup, expanded: set<string>,
                                          a: seq<string>, b: seq<string>)
    requires Layered(nodes)
    ensures ForestRows(nodes, group, expanded, a + b)
         == ForestRows(nodes, group, expanded, a) + ForestRows(nodes, group, expanded, b)
    decreases |a|
  {
    hide Layered, TreeRows;
    if a == [] {
      assert a + b == b;
    } else {
      ForestOfConcat(nodes, group, expanded, a[1..], b);
      assert (a + b)[1..] == a[1..] + b;
    }
  }

  lemma {:induction false} ChildRowsAreForest(nodes: map<string, PrefixNode>, group: VrfGroup,
                                              expanded: set<string>, id: string, k: nat)
    requires Layered(nodes) && id in nodes && k <= |nodes[id].childIds|
    ensures ChildRows(nodes, group, expanded, id, k) == ForestRows(nodes, group, expanded, nodes[id].childIds[k..])
    decreases |nodes[id].childIds| - k
  {
    hide Layered, TreeRows;
    if k < |nodes[id].childIds| {
      ChildRowsAreForest(nodes, group, expanded, id, k + 1);
      assert nodes[id].childIds[k..][1..] == nodes[id].childIds[k + 1..];
    }
  }

  /** The top of the stack gives the first rows. */
  lemma {:induction false} StackTop(nodes: map<string, PrefixNode>, group: VrfGroup, expanded: set<string>,
                                    stack: seq<string>, id: string)
    requires Layered(nodes)
    ensures ForestRows(nodes, group, expanded, Reversed(stack + [id]))
         == TreeRows(nodes, group, expanded, id) + ForestRows(nodes, group, expanded, Reversed(stack))
  {
    hide Layered, TreeRows;
    assert Reversed(stack + [id]) == [id] + Reversed(stack);
  }

  /** Pushing the children of an expanded node in reverse leaves, after its own row, the rows of the
      new stack. */
  lemma {:induction false} StackPush(nodes: map<string, PrefixNode>, group: VrfGroup, expanded: set<string>,
                                     stack: seq<string>, id: string)
    requires Layered(nodes) && id != "" && id in nodes && id in expanded
    ensures TreeRows(nodes, group, expanded, id) + ForestRows(nodes, group, expanded, Reversed(stack))
         == [PrefixRow(nodes[id], group, expanded)]
            + ForestRows(nodes, group, expanded, Reversed(stack + Reversed(nodes[id].childIds)))
  {
    hide *;
    var children := nodes[id].childIds;
    ExpandedRows(nodes, group, expanded, id);
    PushReversed(stack, children);
    ForestOfConcat(nodes, group, expanded, children, Reversed(stack));
    var row, below, rest := [PrefixRow(nodes[id], group, expanded)], ForestRows(nodes, group, expanded, children),
      ForestRows(nodes, group, expanded, Reversed(stack));
    assert (row + below) + rest == row + (below + rest);
  }

  lemma PushReversed(stack: seq<string>, children: seq<string>)
    ensures Reversed(stack + Reversed(children)) == children + Reversed(stack)
  {
  }

  lemma {:induction false} ExpandedRows(nodes: map<string, PrefixNode>, group: VrfGroup, expanded: set<string>,
                                        id: string)
    requires Layered(nodes) && id != "" && id in nodes && id in expanded
    ensures TreeRows(nodes, group, expanded, id)
         == [PrefixRow(nodes[id], group, expanded)] + ForestRows(nodes, group, expanded, nodes[id].childIds)
  {
    hide Layered, PrefixRow, ChildRows, ForestRows;
    ChildRowsAreForest(nodes, group, expanded, id, 0);
    assert nodes[id].childIds[0..] == nodes[id].childIds;
  }

  /** The rows of one expanded group: a walk with an explicit stack. It stops because every turn
      either emits one of the remaining rows or drops an id. */
  method FlattenGroup(nodes: map<string, PrefixNode>, group: VrfGroup, expanded: set<string>) returns (rows: seq<Row>)
    requires Layered(nodes)
    ensures rows == ForestRows(nodes, group, expanded, group.rootNodeIds)
  {
    hide Layered, TreeRows, ForestRows;
    rows := [];
    var stack := Reversed(group.rootNodeIds);
    assert Reversed(stack) == group.rootNodeIds;
    while |stack| > 0
      invariant rows + ForestRows(nodes, group, expanded, Reversed(stack))
             == ForestRows(nodes, group, expanded, group.rootNodeIds)
      decreases |ForestRows(nodes, group, expanded, Reversed(stack))|, |stack|
    {
      var nodeId := stack[|stack| - 1];
      ghost var before := stack;
      stack := stack[..|stack| - 1];
      assert before == stack + [nodeId];
      StackTop(nodes, group, expanded, stack, nodeId);
      OwnRow(nodes, group, expanded, nodeId);
      if nodeId == "" || nodeId !in nodes {
        continue;
      }
      var node := nodes[nodeId];
      var nodeExpanded := node.id in expanded;
      rows := rows + [Row(
        node.id, PrefixLine, node.depth + 1, nodeExpanded, |node.childIds| > 0, node.cidr, Some(node), group)];
      if nodeExpanded {
        StackPush(nodes, group, expanded, stack, nodeId);
        stack := stack + Reversed(node.childIds);
      }
    }
    NoIdsNoRows(nodes, group, expanded);
    assert Reversed(stack) == [];
  }

  lemma {:induction false} NoIdsNoRows(nodes: map<string, PrefixNode>, group: VrfGroup, expanded: set<string>)
    requires Layered(nodes)
    ensures ForestRows(nodes, group, expanded, []) == []
  {
  }

  lemma {:induction false} OwnRow(nodes: map<string, PrefixNode>, group: VrfGroup, expanded: set<string>, id: string)
    requires Layered(nodes)
    ensures id == "" || id !in nodes ==> TreeRows(nodes, group, expanded, id) == []
    ensures id in nodes ==> nodes[id].id == id
    ensures id != "" && id in nodes && id !in expanded ==>
              TreeRows(nodes, group, expanded, id) == [PrefixRow(nodes[id], group, expanded)]
  {
  }

  method FlattenIpamTree(model: Model, expanded: set<string>) returns (rows: seq<Row>)
    requires Layered(model.nodes)
    ensures rows == AllRows(model, expanded, |model.vrfs|)
  {
    hide Layered, ForestRows;
    rows := [];
    for g := 0 to |model.vrfs|
      invariant rows == AllRows(model, expanded, g)
    {
      var group := model.vrfs[g];
      var groupExpanded := group.id in expanded;
      rows := rows + [Row(
        group.id, VrfLine, 0, groupExpanded, |group.rootNodeIds| > 0, group.name, None, group)];
      if groupExpanded {
        var below := FlattenGroup(model.nodes, group, expanded);
        rows := rows + below;
      }
    }
  }
}
