/** The rows of the address tree in terms of the prefixes themselves. */
module IpamTreeVisibility {
  import opened Wrappers
  import opened Sorting
  import opened InventoryModel
  import opened PrefixHierarchy
  import opened PrefixForest
  import opened PrefixWalk
  import opened PrefixUtilization
  import opened IpamTree
  import opened IpamTreeRows

  ghost predicate NonEmptyIds(prefixes: seq<Prefix>) {
    forall p :: p in prefixes ==> p.id != ""
  }

  ghost predicate ExpandedAncestor(prefixes: seq<Prefix>, expanded: set<string>, p: Prefix, k: nat) {
    Ancestor(prefixes, p, k).Some? && Ancestor(prefixes, p, k).value.id in expanded
  }

  /** The nearest `n` proper ancestors exist and are expanded. */
  ghost predicate AncestorsExpanded(prefixes: seq<Prefix>, expanded: set<string>, p: Prefix, n: nat) {
    forall k :: 0 < k <= n ==> ExpandedAncestor(prefixes, expanded, p, k)
  }

  /** The chain of declared parents ends at a root, every proper ancestor is expanded, and so is
      the group of the root's VRF. */
  ghost predicate Visible(prefixes: seq<Prefix>, expanded: set<string>, p: Prefix) {
    exists d: nat :: VisibleAt(prefixes, expanded, p, d)
  }

  ghost predicate VisibleAt(prefixes: seq<Prefix>, expanded: set<string>, p: Prefix, d: nat) {
    && ChainLength(prefixes, p, d) && AncestorsExpanded(prefixes, expanded, p, d)
    && Ancestor(prefixes, p, d).Some? && GroupId(Ancestor(prefixes, p, d).value.vrfId) in expanded
  }

  // ----- one step up the chain

  /** The ancestors of `p` are `q` and the ancestors of `q`. */
  ghost predicate OneAbove(prefixes: seq<Prefix>, p: Prefix, q: Prefix) {
    forall k: nat :: Ancestor(prefixes, p, k + 1) == Ancestor(prefixes, q, k)
  }

  lemma AncestorAbove(prefixes: seq<Prefix>, p: Prefix, q: Prefix, k: nat)
    requires k > 0 && OneAbove(prefixes, p, q)
    ensures Ancestor(prefixes, p, k) == Ancestor(prefixes, q, k - 1)
  {
    hide Ancestor;
    assert Ancestor(prefixes, p, (k - 1) + 1) == Ancestor(prefixes, q, k - 1);
  }

  lemma ChainParent(prefixes: seq<Prefix>, p: Prefix, d: nat) returns (q: Prefix)
    requires UniquePrefixes(prefixes) && p in prefixes && ChainLength(prefixes, p, d) && d > 0
    ensures q in prefixes && ChainLength(prefixes, q, d - 1) && IsChildOf(p, q.id)
    ensures OneAbove(prefixes, p, q)
  {
    PrefixIndexUnique(prefixes);
    q := PrefixIndex(prefixes)[p.parentPrefixId.value];
  }

  lemma ParentLink(prefixes: seq<Prefix>, before: (Prefix, Prefix) -> bool, tree: Tree, p: Prefix,
                   d: nat) returns (q: Prefix)
    requires UniquePrefixes(prefixes) && IsForest(prefixes, before, tree)
    requires p in prefixes && ChainLength(prefixes, p, d) && d > 0
    ensures q in prefixes && ChainLength(prefixes, q, d - 1) && IsChildOf(p, q.id)
    ensures OneAbove(prefixes, p, q)
    ensures q.id in tree.nodes && p.id in tree.nodes[q.id].childPrefixIds
  {
    hide *;
    q := ChainParent(prefixes, p, d);
    ForestNode(prefixes, before, tree, q, d - 1);
    DeclaredIsListed(prefixes, before, tree, q.id, p);
  }

  lemma DeclaredIsListed(prefixes: seq<Prefix>, before: (Prefix, Prefix) -> bool, tree: Tree, id: string, p: Prefix)
    requires UniquePrefixes(prefixes) && IsForest(prefixes, before, tree)
    requires id in tree.nodes && p in prefixes && IsChildOf(p, id)
    ensures p.id in tree.nodes[id].childPrefixIds
  {
    hide ChildrenAmong, RootsAmong, ChainLength;
    DeclaredChildren(prefixes, id, before);
    var ordered := SortBy(prefixes, before);
    var children := ChildrenAmong(ordered, |ordered|, id, before);
    assert NodeOk(prefixes, ordered, before, id, tree.nodes[id]);
    var k :| 0 <= k < |children| && children[k] == p;
    assert Ids(children)[k] == p.id;
  }

  lemma ExpandedStep(prefixes: seq<Prefix>, expanded: set<string>, p: Prefix, q: Prefix, n: nat)
    requires n > 0 && OneAbove(prefixes, p, q)
    ensures AncestorsExpanded(prefixes, expanded, p, n) <==>
            q.id in expanded && AncestorsExpanded(prefixes, expanded, q, n - 1)
  {
    assert Ancestor(prefixes, q, 0) == Some(q);
    hide Ancestor, OneAbove;
    AncestorAbove(prefixes, p, q, 1);
    forall k | 0 < k <= n
      ensures ExpandedAncestor(prefixes, expanded, p, k) <==>
              if k == 1 then q.id in expanded else ExpandedAncestor(prefixes, expanded, q, k - 1)
    {
      AncestorAbove(prefixes, p, q, k);
    }
    if AncestorsExpanded(prefixes, expanded, p, n) {
      assert ExpandedAncestor(prefixes, expanded, p, 1);
      forall k | 0 < k <= n - 1 ensures ExpandedAncestor(prefixes, expanded, q, k) {
        assert ExpandedAncestor(prefixes, expanded, p, k + 1);
      }
    }
  }

  // ----- ancestors and shown nodes

  /** Expanded ancestors show the prefix. */
  lemma {:induction false} Descend(prefixes: seq<Prefix>, before: (Prefix, Prefix) -> bool, tree: Tree,
                                   nodes: map<string, PrefixNode>, expanded: set<string>, p: Prefix, d: nat)
    requires UniquePrefixes(prefixes) && IsForest(prefixes, before, tree)
    requires Arboreal(nodes) && Mirrors(nodes, tree.nodes)
    requires p in prefixes && ChainLength(prefixes, p, d) && AncestorsExpanded(prefixes, expanded, p, d)
    ensures Ancestor(prefixes, p, d).Some?
    ensures var r := Ancestor(prefixes, p, d).value;
            r in prefixes && ChainLength(prefixes, r, 0) && r.id in nodes && Shown(nodes, expanded, r.id, p.id)
    decreases d
  {
    hide IsForest, Arboreal, AncestorsExpanded, OneAbove;
    ForestNode(prefixes, before, tree, p, d);
    if d > 0 {
      var q := ParentLink(prefixes, before, tree, p, d);
      ExpandedStep(prefixes, expanded, p, q, d);
      Descend(prefixes, before, tree, nodes, expanded, q, d - 1);
      AncestorAbove(prefixes, p, q, d);
      hide Shown, Ancestor, ChainLength;
      ExtendShown(nodes, expanded, Ancestor(prefixes, q, d - 1).value.id, q.id, p.id);
    }
  }

  /** A root that shows the prefix is its topmost ancestor, and the ancestors are expanded. */
  lemma {:induction false} Climb(prefixes: seq<Prefix>, before: (Prefix, Prefix) -> bool, tree: Tree,
                                 nodes: map<string, PrefixNode>, expanded: set<string>, p: Prefix, d: nat, r: string)
    requires UniquePrefixes(prefixes) && IsForest(prefixes, before, tree)
    requires Arboreal(nodes) && Mirrors(nodes, tree.nodes)
    requires p in prefixes && ChainLength(prefixes, p, d)
    requires r in nodes && nodes[r].depth == 0 && Shown(nodes, expanded, r, p.id)
    ensures Ancestor(prefixes, p, d).Some? && Ancestor(prefixes, p, d).value.id == r
    ensures AncestorsExpanded(prefixes, expanded, p, d)
    decreases d
  {
    hide IsForest, Arboreal, AncestorsExpanded, Shown, OneAbove;
    ForestNode(prefixes, before, tree, p, d);
    ShownDepth(nodes, expanded, r, p.id);
    if d > 0 {
      var q := ParentLink(prefixes, before, tree, p, d);
      var s := LastEdge(nodes, expanded, r, p.id);
      OneParent(nodes, q.id, s, p.id);
      Climb(prefixes, before, tree, nodes, expanded, q, d - 1, r);
      ExpandedStep(prefixes, expanded, p, q, d);
      AncestorAbove(prefixes, p, q, d);
    } else {
      NoneExpanded(prefixes, expanded, p);
    }
  }

  lemma NoneExpanded(prefixes: seq<Prefix>, expanded: set<string>, p: Prefix)
    ensures AncestorsExpanded(prefixes, expanded, p, 0)
  {
  }

  // ----- the rows

  lemma ForestFiled(prefixes: seq<Prefix>, before: (Prefix, Prefix) -> bool, tree: Tree)
    requires IsForest(prefixes, before, tree) && NonEmptyIds(prefixes)
    ensures Filed(tree) && "" !in tree.nodes
  {
    hide ChildrenAmong, RootsAmong, ChainLength;
    forall id | id in tree.nodes ensures tree.nodes[id].prefix.id == id && id != "" {
      assert NodeOk(prefixes, SortBy(prefixes, before), before, id, tree.nodes[id]);
    }
  }

  /** The roots of every group are nodes of depth 0. */
  lemma GroupsAreRoots(prefixes: seq<Prefix>, before: (Prefix, Prefix) -> bool, tree: Tree,
                       nodes: map<string, PrefixNode>, groups: seq<VrfGroup>)
    requires UniquePrefixes(prefixes) && IsForest(prefixes, before, tree)
    requires Mirrors(nodes, tree.nodes) && GroupsMatch(tree, groups)
    ensures GroupsOfRoots(nodes, groups)
  {
    hide IsForest, NoDuplicates, GroupsDisjoint;
    ForestRoots(prefixes, before, tree);
    forall g | 0 <= g < |groups| ensures AreRoots(nodes, groups[g].rootNodeIds) {
      assert groups[g] in groups;
    }
  }

  lemma {:induction false} RootShows(tree: Tree, model: Model, expanded: set<string>, r: string, id: string)
    requires Arboreal(model.nodes) && GroupsMatch(tree, model.vrfs)
    requires r in tree.roots && r in tree.nodes && r in model.nodes
    requires GroupId(tree.nodes[r].prefix.vrfId) in expanded && Shown(model.nodes, expanded, r, id)
    ensures ShownInSome(model, expanded, |model.vrfs|, id)
  {
    hide Arboreal, Shown, GroupsDisjoint, NoDuplicates;
    var group :| group in model.vrfs && r in group.rootNodeIds;
    var g :| 0 <= g < |model.vrfs| && model.vrfs[g] == group;
    assert ShownFromList(model.nodes, expanded, group.rootNodeIds, id);
    assert ShownInGroup(model, expanded, g, id);
  }

  lemma VisibleIsShown(prefixes: seq<Prefix>, before: (Prefix, Prefix) -> bool, tree: Tree, model: Model,
                       expanded: set<string>, p: Prefix, d: nat)
    requires UniquePrefixes(prefixes) && IsForest(prefixes, before, tree)
    requires Arboreal(model.nodes) && Mirrors(model.nodes, tree.nodes) && GroupsMatch(tree, model.vrfs)
    requires p in prefixes && VisibleAt(prefixes, expanded, p, d)
    ensures ShownInSome(model, expanded, |model.vrfs|, p.id)
  {
    Descend(prefixes, before, tree, model.nodes, expanded, p, d);
    var r := Ancestor(prefixes, p, d).value;
    ForestNode(prefixes, before, tree, r, 0);
    ForestRoots(prefixes, before, tree);
    hide IsForest, Arboreal, AncestorsExpanded, Shown, Ancestor, ChainLength, NoDuplicates, UniquePrefixes;
    hide GroupsMatch, ShownInSome;
    RootShows(tree, model, expanded, r.id, p.id);
  }

  lemma ShownIsVisible(prefixes: seq<Prefix>, before: (Prefix, Prefix) -> bool, tree: Tree, model: Model,
                       expanded: set<string>, p: Prefix)
    requires UniquePrefixes(prefixes) && IsForest(prefixes, before, tree)
    requires Arboreal(model.nodes) && Mirrors(model.nodes, tree.nodes) && GroupsMatch(tree, model.vrfs)
    requires p in prefixes && ShownInSome(model, expanded, |model.vrfs|, p.id)
    ensures Visible(prefixes, expanded, p)
  {
    hide Arboreal, AncestorsExpanded, Shown, Ancestor, ChainLength, GroupsDisjoint, NoDuplicates, IsForest;
    hide UniquePrefixes;
    var g :| 0 <= g < |model.vrfs| && ShownInGroup(model, expanded, g, p.id);
    var group := model.vrfs[g];
    assert group in model.vrfs;
    var r :| r in group.rootNodeIds && r in model.nodes && Shown(model.nodes, expanded, r, p.id);
    ForestRoots(prefixes, before, tree);
    ShownDepth(model.nodes, expanded, r, p.id);
    var d := tree.nodes[p.id].depth;
    NodeIsPrefix(prefixes, before, tree, p);
    Climb(prefixes, before, tree, model.nodes, expanded, p, d, r);
    AncestorNode(prefixes, before, tree, p, d);
    assert VisibleAt(prefixes, expanded, p, d);
  }

  lemma {:induction false} NodeIsPrefix(prefixes: seq<Prefix>, before: (Prefix, Prefix) -> bool, tree: Tree, p: Prefix)
    requires UniquePrefixes(prefixes) && IsForest(prefixes, before, tree) && p in prefixes && p.id in tree.nodes
    ensures tree.nodes[p.id].prefix == p && ChainLength(prefixes, p, tree.nodes[p.id].depth)
  {
    hide ChildrenAmong, RootsAmong, ChainLength;
    assert NodeOk(prefixes, SortBy(prefixes, before), before, p.id, tree.nodes[p.id]);
  }

  /** The topmost ancestor is filed under its id. */
  lemma {:induction false} AncestorNode(prefixes: seq<Prefix>, before: (Prefix, Prefix) -> bool, tree: Tree,
                                        p: Prefix, d: nat)
    requires UniquePrefixes(prefixes) && IsForest(prefixes, before, tree)
    requires p in prefixes && ChainLength(prefixes, p, d)
    ensures Ancestor(prefixes, p, d).Some?
    ensures var r := Ancestor(prefixes, p, d).value; r.id in tree.nodes && tree.nodes[r.id].prefix == r
    decreases d
  {
    hide IsForest, OneAbove;
    if d == 0 {
      ForestNode(prefixes, before, tree, p, 0);
    } else {
      var q := ParentLink(prefixes, before, tree, p, d);
      AncestorNode(prefixes, before, tree, q, d - 1);
      AncestorAbove(prefixes, p, q, d);
    }
  }

  /** In the rows of the flattened tree a prefix has exactly one row if it is visible, and none if
      it is not, whatever set of ids is expanded. */
  lemma {:induction false} RowShownIff(prefixes: seq<Prefix>, before: (Prefix, Prefix) -> bool, tree: Tree,
                                       vrfs: seq<VrfSource>,
                    utilization: map<string, Utilization>, xs: seq<IpAddress>, collate: (string, string) -> int,
                    expanded: set<string>, p: Prefix)
    requires UniquePrefixes(prefixes) && NonEmptyIds(prefixes) && IsForest(prefixes, before, tree) && p in prefixes
    ensures var model := ModelFor(vrfs, tree, utilization, xs, collate);
            && Layered(model.nodes)
            && RowCount(AllRows(model, expanded, |model.vrfs|), p.id) == Once(Visible(prefixes, expanded, p))
  {
    var model := ModelFor(vrfs, tree, utilization, xs, collate);
    assert model.nodes == NodesFor(tree.nodes, utilization, xs);
    ForestFiled(prefixes, before, tree);
    ForestIsWellFormed(prefixes, before, tree);
    ForestIsArboreal(tree, utilization, xs);
    assert Layered(model.nodes);
    NodesMirror(tree, utilization, xs);
    ForestRoots(prefixes, before, tree);
    ModelGroupsMatch(tree, vrfs, utilization, xs, collate);
    hide *;
    GroupsAreRoots(prefixes, before, tree, model.nodes, model.vrfs);
    AllCount(model, expanded, |model.vrfs|, p.id);
    if Visible(prefixes, expanded, p) {
      PickDepth(prefixes, before, tree, model, expanded, p);
    } else if ShownInSome(model, expanded, |model.vrfs|, p.id) {
      ShownIsVisible(prefixes, before, tree, model, expanded, p);
    }
  }

  lemma PickDepth(prefixes: seq<Prefix>, before: (Prefix, Prefix) -> bool, tree: Tree, model: Model,
                  expanded: set<string>, p: Prefix)
    requires UniquePrefixes(prefixes) && IsForest(prefixes, before, tree)
    requires Arboreal(model.nodes) && Mirrors(model.nodes, tree.nodes) && GroupsMatch(tree, model.vrfs)
    requires p in prefixes && Visible(prefixes, expanded, p)
    ensures ShownInSome(model, expanded, |model.vrfs|, p.id)
  {
    hide IsForest, Arboreal, Mirrors, GroupsMatch, VisibleAt, UniquePrefixes, ShownInSome;
    var d: nat :| VisibleAt(prefixes, expanded, p, d);
    VisibleIsShown(prefixes, before, tree, model, expanded, p, d);
  }

  /** From the prefix list to the rows: building the forest, the model and the rows. */
  method PrefixListRows(prefixes: seq<Prefix>, before: (Prefix, Prefix) -> bool, vrfs: seq<VrfSource>,
                        utilization: map<string, Utilization>, xs: seq<IpAddress>, collate: (string, string) -> int,
                        expanded: set<string>)
    returns (rows: seq<Row>)
    requires UniquePrefixes(prefixes) && NonEmptyIds(prefixes)
    ensures forall p :: p in prefixes ==> RowCount(rows, p.id) == Once(Visible(prefixes, expanded, p))
  {
    hide IsForest, ModelFor, Visible, RowCount, Once, NonEmptyIds, UniquePrefixes, Layered, AllRows;
    UniqueHasNoCircle(prefixes);
    var tree := BuildPrefixHierarchy(prefixes, before);
    ForestFiled(prefixes, before, tree);
    var model := CreateIpamTreeModel(vrfs, tree, utilization, xs, collate);
    ModelLayered(prefixes, before, tree, vrfs, utilization, xs, collate);
    rows := FlattenIpamTree(model, expanded);
    forall p | p in prefixes ensures RowCount(rows, p.id) == Once(Visible(prefixes, expanded, p)) {
      RowShownIff(prefixes, before, tree, vrfs, utilization, xs, collate, expanded, p);
    }
  }

  lemma ModelLayered(prefixes: seq<Prefix>, before: (Prefix, Prefix) -> bool, tree: Tree, vrfs: seq<VrfSource>,
                     utilization: map<string, Utilization>, xs: seq<IpAddress>, collate: (string, string) -> int)
    requires UniquePrefixes(prefixes) && NonEmptyIds(prefixes) && IsForest(prefixes, before, tree)
    ensures Layered(ModelFor(vrfs, tree, utilization, xs, collate).nodes)
  {
    hide IsForest, NodesFor, GroupsFor, Layered, NonEmptyIds, UniquePrefixes, WellFormed, Filed;
    ForestFiled(prefixes, before, tree);
    ForestIsWellFormed(prefixes, before, tree);
    ForestIsArboreal(tree, utilization, xs);
  }
}
