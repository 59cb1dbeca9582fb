/** What the rows of the flattened tree say and in which order they stand: read back, they give the
    visible part of the tree. */
module IpamTreeOrder {
  import opened Wrappers
  import opened IpamTree

  /** Every row shows its group or its node. */
  ghost predicate RowReads(model: Model, expanded: set<string>, row: Row) {
    && row.vrfGroup in model.vrfs && (row.expanded <==> row.id in expanded)
    && match row.kind
       case VrfLine =>
         && row.id == row.vrfGroup.id && row.name == row.vrfGroup.name && row.depth == 0 && row.prefixNode == None
         && (row.hasChildren <==> row.vrfGroup.rootNodeIds != [])
       case PrefixLine =>
         && row.id in model.nodes && row.prefixNode == Some(model.nodes[row.id])
         && row.name == model.nodes[row.id].cidr && row.depth == model.nodes[row.id].depth + 1
         && (row.hasChildren <==> model.nodes[row.id].childIds != [])
  }

  /** The ids that are not empty and have a node. */
  function Present(nodes: map<string, PrefixNode>, ids: seq<string>): seq<string> {
    if ids == [] then []
    else (if ids[0] != "" && ids[0] in nodes then [ids[0]] else []) + Present(nodes, ids[1..])
  }

  /** The ids that an expanded row lists below itself. */
  function Listed(nodes: map<string, PrefixNode>, row: Row): seq<string> {
    if !row.expanded then []
    else
      match row.prefixNode
      case None => Present(nodes, row.vrfGroup.rootNodeIds)
      case Some(node) => Present(nodes, node.childIds)
  }

  /** The ids of the rows at a depth, in order. */
  function IdsAt(rows: seq<Row>, depth: nat): seq<string> {
    if rows == [] then []
    else (if rows[0].depth == depth then [rows[0].id] else []) + IdsAt(rows[1..], depth)
  }

  /** The rows up to `end` are exactly those below the `j`th. */
  ghost predicate BlockEnds(rows: seq<Row>, j: nat, end: nat) {
    && j < end <= |rows|
    && (forall m :: j < m < end ==> rows[m].depth > rows[j].depth)
    && (end < |rows| ==> rows[end].depth <= rows[j].depth)
  }

  /** Directly below the `j`th row stand exactly the ids it lists, in their order. */
  ghost predicate BlockReads(nodes: map<string, PrefixNode>, rows: seq<Row>, j: nat)
    requires j < |rows|
  {
    exists end: nat :: BlockEnds(rows, j, end) && IdsAt(rows[j + 1..end], rows[j].depth + 1) == Listed(nodes, rows[j])
  }

  ghost predicate AllBlocksRead(nodes: map<string, PrefixNode>, rows: seq<Row>) {
    forall j :: 0 <= j < |rows| ==> BlockReads(nodes, rows, j)
  }

  /** Rows of one level and everything below them: none is shallower, the first is of the level. */
  ghost predicate Level(rows: seq<Row>, depth: nat) {
    && (forall m :: 0 <= m < |rows| ==> rows[m].depth >= depth)
    && (rows != [] ==> rows[0].depth == depth)
  }

  lemma {:induction false} IdsAtConcat(a: seq<Row>, b: seq<Row>, depth: nat)
    ensures IdsAt(a + b, depth) == IdsAt(a, depth) + IdsAt(b, depth)
  {
    if a == [] {
      assert a + b == b;
    } else {
      assert (a + b)[1..] == a[1..] + b;
      IdsAtConcat(a[1..], b, depth);
    }
  }

  lemma {:induction false} IdsDeeper(rows: seq<Row>, depth: nat)
    requires forall m :: 0 <= m < |rows| ==> rows[m].depth > depth
    ensures IdsAt(rows, depth) == []
  {
    if rows != [] {
      IdsDeeper(rows[1..], depth);
    }
  }

  lemma {:induction false} BlockAfter(nodes: map<string, PrefixNode>, a: seq<Row>, b: seq<Row>, k: nat)
    requires k < |b| && BlockReads(nodes, b, k)
    ensures BlockReads(nodes, a + b, |a| + k)
  {
    hide IdsAt, Listed;
    var rows, j := a + b, |a| + k;
    var end: nat :| BlockEnds(b, k, end) && IdsAt(b[k + 1..end], b[k].depth + 1) == Listed(nodes, b[k]);
    assert rows[j + 1..|a| + end] == b[k + 1..end];
    assert BlockEnds(rows, j, |a| + end);
  }

  lemma {:induction false} BlockBefore(nodes: map<string, PrefixNode>, a: seq<Row>, b: seq<Row>, depth: nat, j: nat)
    requires j < |a| && BlockReads(nodes, a, j) && Level(a, depth) && Level(b, depth)
    ensures BlockReads(nodes, a + b, j)
  {
    hide IdsAt, Listed;
    var rows := a + b;
    var end: nat :| BlockEnds(a, j, end) && IdsAt(a[j + 1..end], a[j].depth + 1) == Listed(nodes, a[j]);
    assert rows[j + 1..end] == a[j + 1..end];
    assert BlockEnds(rows, j, end);
  }

  /** Blocks stay blocks when rows of the same level follow. */
  lemma {:induction false} ConcatBlocks(nodes: map<string, PrefixNode>, a: seq<Row>, b: seq<Row>, depth: nat)
    requires AllBlocksRead(nodes, a) && AllBlocksRead(nodes, b) && Level(a, depth) && Level(b, depth)
    ensures AllBlocksRead(nodes, a + b) && Level(a + b, depth)
  {
    hide BlockReads;
    forall j | 0 <= j < |a + b| ensures BlockReads(nodes, a + b, j) {
      if j < |a| {
        BlockBefore(nodes, a, b, depth, j);
      } else {
        BlockAfter(nodes, a, b, j - |a|);
      }
    }
  }

  /** A row with all of its rows below it is a block. */
  lemma {:induction false} OwnBlock(nodes: map<string, PrefixNode>, own: Row, below: seq<Row>)
    requires AllBlocksRead(nodes, below) && Level(below, own.depth + 1)
    requires IdsAt(below, own.depth + 1) == Listed(nodes, own)
    ensures AllBlocksRead(nodes, [own] + below) && Level([own] + below, own.depth)
    ensures IdsAt([own] + below, own.depth) == [own.id]
  {
    var rows := [own] + below;
    IdsDeeper(below, own.depth);
    assert rows[1..] == below;
    hide IdsAt, Listed;
    assert rows[1..|rows|] == below && BlockEnds(rows, 0, |rows|);
    assert BlockReads(nodes, rows, 0);
    hide BlockReads, BlockEnds;
    forall j | 0 <= j < |rows| ensures BlockReads(nodes, rows, j) {
      if j > 0 {
        BlockAfter(nodes, [own], below, j - 1);
      }
    }
  }

  ghost predicate AtDepth(nodes: map<string, PrefixNode>, ids: seq<string>, depth: nat) {
    forall id :: id in ids && id in nodes ==> nodes[id].depth == depth
  }

  // ----- the rows of a tree, of a forest, of a group and of the whole model

  lemma {:induction false} TreeReads(nodes: map<string, PrefixNode>, group: VrfGroup, expanded: set<string>, id: string)
    requires Layered(nodes) && id != "" && id in nodes
    ensures var rows := TreeRows(nodes, group, expanded, id);
            && AllBlocksRead(nodes, rows) && Level(rows, nodes[id].depth + 1)
            && IdsAt(rows, nodes[id].depth + 1) == [id]
    decreases LevelBound(nodes, RowDepth) - nodes[id].depth + 1, 0
  {
    var own, children := PrefixRow(nodes[id], group, expanded), nodes[id].childIds;
    hide AllBlocksRead, Level, IdsAt, ForestRows, TreeRows, Layered, AtDepth, LevelBound;
    if id in expanded {
      ExpandedRows(nodes, group, expanded, id);
      ChildDepths(nodes, id);
      if forall child :: child in children ==> child !in nodes {
        NoRowsBelow(nodes, group, expanded, children);
        NothingPresent(nodes, children);
        EmptyLevel(nodes, own.depth + 1);
      } else {
        var child :| child in children && child in nodes;
        ForestReads(nodes, group, expanded, children, nodes[id].depth + 1);
      }
      OwnBlock(nodes, own, ForestRows(nodes, group, expanded, children));
    } else {
      OwnRow(nodes, group, expanded, id);
      EmptyLevel(nodes, own.depth + 1);
      assert [own] + [] == [own];
      OwnBlock(nodes, own, []);
    }
  }

  lemma {:induction false} ChildDepths(nodes: map<string, PrefixNode>, id: string)
    requires Layered(nodes) && id in nodes
    ensures AtDepth(nodes, nodes[id].childIds, nodes[id].depth + 1)
    ensures forall child :: child in nodes[id].childIds && child in nodes ==>
                nodes[id].depth + 1 <= LevelBound(nodes, RowDepth)
  {
    forall child | child in nodes[id].childIds && child in nodes
      ensures nodes[id].depth + 1 <= LevelBound(nodes, RowDepth)
    {
      assert nodes[child].depth <= LevelBound(nodes, RowDepth);
    }
  }

  lemma {:induction false} EmptyLevel(nodes: map<string, PrefixNode>, depth: nat)
    ensures AllBlocksRead(nodes, []) && Level([], depth) && IdsAt([], depth) == []
  {
  }

  lemma {:induction false} NothingPresent(nodes: map<string, PrefixNode>, ids: seq<string>)
    requires forall id :: id in ids ==> id !in nodes
    ensures Present(nodes, ids) == []
  {
    if ids != [] {
      NothingPresent(nodes, ids[1..]);
    }
  }

  lemma {:induction false} NoRowsBelow(nodes: map<string, PrefixNode>, group: VrfGroup, expanded: set<string>,
                                       ids: seq<string>)
    requires Layered(nodes) && forall id :: id in ids ==> id !in nodes
    ensures ForestRows(nodes, group, expanded, ids) == []
    decreases |ids|
  {
    hide Layered;
    if ids != [] {
      NoRowsBelow(nodes, group, expanded, ids[1..]);
    }
  }

  lemma {:induction false} ForestReads(nodes: map<string, PrefixNode>, group: VrfGroup, expanded: set<string>,
                                       ids: seq<string>, depth: nat)
    requires Layered(nodes) && AtDepth(nodes, ids, depth) && depth <= LevelBound(nodes, RowDepth)
    ensures var rows := ForestRows(nodes, group, expanded, ids);
            && AllBlocksRead(nodes, rows) && Level(rows, depth + 1)
            && IdsAt(rows, depth + 1) == Present(nodes, ids)
    decreases LevelBound(nodes, RowDepth) - depth + 1, 1, |ids|
  {
    hide Layered, AllBlocksRead, Level, IdsAt, TreeRows;
    EmptyLevel(nodes, depth + 1);
    if ids != [] {
      ForestReads(nodes, group, expanded, ids[1..], depth);
      OwnRow(nodes, group, expanded, ids[0]);
      var first, rest := TreeRows(nodes, group, expanded, ids[0]), ForestRows(nodes, group, expanded, ids[1..]);
      if ids[0] != "" && ids[0] in nodes {
        TreeReads(nodes, group, expanded, ids[0]);
      }
      ConcatBlocks(nodes, first, rest, depth + 1);
      IdsAtConcat(first, rest, depth + 1);
    }
  }

  /** The roots of every group are at depth 0. */
  ghost predicate RootsOnTop(model: Model) {
    forall group :: group in model.vrfs ==> AtDepth(model.nodes, group.rootNodeIds, 0)
  }

  lemma {:induction false} GroupReads(nodes: map<string, PrefixNode>, group: VrfGroup, expanded: set<string>)
    requires Layered(nodes) && AtDepth(nodes, group.rootNodeIds, 0)
    ensures var rows := GroupRows(nodes, group, expanded);
            AllBlocksRead(nodes, rows) && Level(rows, 0) && IdsAt(rows, 0) == [group.id]
  {
    hide Layered, AllBlocksRead, Level, IdsAt, ForestRows, AtDepth;
    var own := GroupRow(group, expanded);
    EmptyLevel(nodes, 1);
    if group.id in expanded {
      ForestReads(nodes, group, expanded, group.rootNodeIds, 0);
      OwnBlock(nodes, own, ForestRows(nodes, group, expanded, group.rootNodeIds));
    } else {
      assert [own] + [] == [own];
      OwnBlock(nodes, own, []);
    }
  }

  function GroupIds(groups: seq<VrfGroup>): (ids: seq<string>)
    ensures |ids| == |groups| && forall i :: 0 <= i < |groups| ==> ids[i] == groups[i].id
  {
    seq(|groups|, i requires 0 <= i < |groups| => groups[i].id)
  }

  /** Read back, the rows give the visible part of the tree: at the top stand the groups in order, and
      directly below every row exactly what it lists if it is expanded, in order, and nothing if not. */
  lemma {:induction false} RowsReadBack(model: Model, expanded: set<string>, n: nat)
    requires Layered(model.nodes) && RootsOnTop(model) && n <= |model.vrfs|
    ensures var rows := AllRows(model, expanded, n);
            AllBlocksRead(model.nodes, rows) && Level(rows, 0) && IdsAt(rows, 0) == GroupIds(model.vrfs[..n])
    decreases n
  {
    hide Layered, AllBlocksRead, Level, IdsAt, GroupRows, AtDepth;
    EmptyLevel(model.nodes, 0);
    if n > 0 {
      var front, group := AllRows(model, expanded, n - 1), model.vrfs[n - 1];
      RowsReadBack(model, expanded, n - 1);
      GroupReads(model.nodes, group, expanded);
      ConcatBlocks(model.nodes, front, GroupRows(model.nodes, group, expanded), 0);
      IdsAtConcat(front, GroupRows(model.nodes, group, expanded), 0);
      assert model.vrfs[..n] == model.vrfs[..n - 1] + [group];
    }
  }

  // ----- the fields of the rows

  lemma {:induction false} TreeRowsShow(model: Model, group: VrfGroup, expanded: set<string>, id: string)
    requires Layered(model.nodes) && group in model.vrfs
    ensures forall row :: row in TreeRows(model.nodes, group, expanded, id) ==> RowReads(model, expanded, row)
    decreases if id in model.nodes then LevelBound(model.nodes, RowDepth) - model.nodes[id].depth + 1 else 0, 1, 0
  {
    hide ChildRows;
    if id != "" && id in model.nodes {
      ChildRowsShow(model, group, expanded, id, 0);
    }
  }

  lemma {:induction false} ChildRowsShow(model: Model, group: VrfGroup, expanded: set<string>, id: string, k: nat)
    requires Layered(model.nodes) && group in model.vrfs && id in model.nodes && k <= |model.nodes[id].childIds|
    ensures forall row :: row in ChildRows(model.nodes, group, expanded, id, k) ==> RowReads(model, expanded, row)
    decreases LevelBound(model.nodes, RowDepth) - model.nodes[id].depth + 1, 0, |model.nodes[id].childIds| - k
  {
    hide TreeRows, RowReads;
    if k < |model.nodes[id].childIds| {
      assert model.nodes[id].childIds[k] in model.nodes[id].childIds;
      TreeRowsShow(model, group, expanded, model.nodes[id].childIds[k]);
      ChildRowsShow(model, group, expanded, id, k + 1);
    }
  }

  lemma {:induction false} ForestRowsShow(model: Model, group: VrfGroup, expanded: set<string>, ids: seq<string>)
    requires Layered(model.nodes) && group in model.vrfs
    ensures forall row :: row in ForestRows(model.nodes, group, expanded, ids) ==> RowReads(model, expanded, row)
    decreases |ids|
  {
    hide Layered, TreeRows, RowReads;
    if ids != [] {
      TreeRowsShow(model, group, expanded, ids[0]);
      ForestRowsShow(model, group, expanded, ids[1..]);
    }
  }

  /** Every row shows its group, or its node and its depth, and whether it is expanded. */
  lemma {:induction false} RowsShow(model: Model, expanded: set<string>, n: nat)
    requires Layered(model.nodes) && n <= |model.vrfs|
    ensures forall row :: row in AllRows(model, expanded, n) ==> RowReads(model, expanded, row)
    decreases n
  {
    hide Layered, ForestRows;
    if n > 0 {
      var group := model.vrfs[n - 1];
      RowsShow(model, expanded, n - 1);
      ForestRowsShow(model, group, expanded, group.rootNodeIds);
      assert RowReads(model, expanded, GroupRow(group, expanded));
    }
  }
}
