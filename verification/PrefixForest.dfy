/** The prefix forest: what the builder returns, told from the declared parents. */
module PrefixForest {
  import opened Wrappers
  import opened Sorting
  import opened InventoryModel

  datatype Node = Node(prefix: Prefix, depth: nat, childPrefixIds: seq<string>)

  function NodeDepth(node: Node): nat { node.depth }

  /** `order` lists the keys of `nodes` in insertion order, which is the map's iteration order. */
  datatype Tree = Tree(roots: seq<string>, order: seq<string>, nodes: map<string, Node>)

  predicate IsChildOf(p: Prefix, id: string) {
    Truthy(p.parentPrefixId) && p.parentPrefixId.value == id
  }

  function RootsAmong(ordered: seq<Prefix>, n: nat): seq<Prefix>
    requires n <= |ordered|
  {
    if n == 0 then []
    else RootsAmong(ordered, n - 1) + (if Truthy(ordered[n - 1].parentPrefixId) then [] else [ordered[n - 1]])
  }

  /** The bucket of `id` after the first `n` prefixes: each push is followed by a sort. */
  function ChildrenAmong(ordered: seq<Prefix>, n: nat, id: string, before: (Prefix, Prefix) -> bool): seq<Prefix>
    requires n <= |ordered|
  {
    if n == 0 then []
    else
      var earlier := ChildrenAmong(ordered, n - 1, id, before);
      if IsChildOf(ordered[n - 1], id) then SortBy(earlier + [ordered[n - 1]], before) else earlier
  }

  function Ids(ps: seq<Prefix>): (ids: seq<string>)
    ensures |ids| == |ps|
    ensures forall i :: 0 <= i < |ps| ==> ids[i] == ps[i].id
  {
    seq(|ps|, i requires 0 <= i < |ps| => ps[i].id)
  }

  /** The chain of declared parents of `p` reaches a parentless prefix in exactly `n` steps. */
  ghost predicate ChainLength(prefixes: seq<Prefix>, p: Prefix, n: nat)
    decreases n
  {
    if n == 0 then !Truthy(p.parentPrefixId)
    else
      && Truthy(p.parentPrefixId) && p.parentPrefixId.value in PrefixIndex(prefixes)
      && ChainLength(prefixes, PrefixIndex(prefixes)[p.parentPrefixId.value], n - 1)
  }

  ghost predicate ReachesRoot(prefixes: seq<Prefix>, p: Prefix) {
    exists n: nat :: ChainLength(prefixes, p, n)
  }

  lemma {:induction false} ChainLengthUnique(prefixes: seq<Prefix>, p: Prefix, m: nat, n: nat)
    requires ChainLength(prefixes, p, m) && ChainLength(prefixes, p, n)
    ensures m == n
    decreases n
  {
    if m > 0 && n > 0 {
      ChainLengthUnique(prefixes, PrefixIndex(prefixes)[p.parentPrefixId.value], m - 1, n - 1);
    }
  }

  ghost predicate NodeOk(prefixes: seq<Prefix>, ordered: seq<Prefix>, before: (Prefix, Prefix) -> bool,
                         id: string, node: Node) {
    && node.prefix in prefixes && node.prefix.id == id
    && ChainLength(prefixes, node.prefix, node.depth)
    && node.childPrefixIds == Ids(ChildrenAmong(ordered, |ordered|, id, before))
  }

  /** The forest of a prefix list: its nodes are exactly the prefixes whose parent chain reaches
      a root, at the depth of that chain, each with its declared children. */
  ghost predicate IsForest(prefixes: seq<Prefix>, before: (Prefix, Prefix) -> bool, tree: Tree) {
    var ordered := SortBy(prefixes, before);
    && tree.roots == Ids(RootsAmong(ordered, |ordered|))
    && (forall id :: id in tree.nodes ==> NodeOk(prefixes, ordered, before, id, tree.nodes[id]))
    && (forall p :: p in prefixes && ReachesRoot(prefixes, p) ==> p.id in tree.nodes)
    && NoDuplicates(tree.order)
    && (forall id :: id in tree.order <==> id in tree.nodes)
  }

  datatype Entry = Entry(prefix: Prefix, depth: nat)

  /** The children in the order they are pushed, last child first. */
  function Pushed(children: seq<Prefix>, depth: nat): (s: seq<Entry>)
    ensures |s| == |children|
    ensures forall i :: 0 <= i < |s| ==> s[i] == Entry(children[|children| - 1 - i], depth)
  {
    seq(|children|, i requires 0 <= i < |children| => Entry(children[|children| - 1 - i], depth))
  }

  /** The roots found so far and the buckets of children. */
  method GroupByParent(ordered: seq<Prefix>, before: (Prefix, Prefix) -> bool)
    returns (roots: seq<Prefix>, directory: map<string, seq<Prefix>>)
    ensures roots == RootsAmong(ordered, |ordered|)
    ensures forall id ::
              (if id in directory then directory[id] else []) == ChildrenAmong(ordered, |ordered|, id, before)
  {
    roots, directory := [], map[];
    for i := 0 to |ordered|
      invariant roots == RootsAmong(ordered, i)
      invariant forall id :: (if id in directory then directory[id] else []) == ChildrenAmong(ordered, i, id, before)
    {
      var prefix := ordered[i];
      if !Truthy(prefix.parentPrefixId) {
        roots := roots + [prefix];
      } else {
        var parentId := prefix.parentPrefixId.value;
        var currentChildren := if parentId in directory then directory[parentId] else [];
        currentChildren := SortBy(currentChildren + [prefix], before);
        directory := directory[parentId := currentChildren];
      }
    }
  }

  lemma {:induction false} RootsFacts(ordered: seq<Prefix>, n: nat)
    requires n <= |ordered|
    ensures forall p :: p in RootsAmong(ordered, n) <==> p in ordered[..n] && !Truthy(p.parentPrefixId)
    ensures UniquePrefixes(ordered) ==> UniquePrefixes(RootsAmong(ordered, n))
  {
    if n > 0 {
      RootsFacts(ordered, n - 1);
      assert ordered[..n] == ordered[..n - 1] + [ordered[n - 1]];
    }
  }

  lemma {:induction false} ChildrenFacts(ordered: seq<Prefix>, n: nat, id: string, before: (Prefix, Prefix) -> bool)
    requires n <= |ordered|
    ensures forall p :: p in ChildrenAmong(ordered, n, id, before) <==> p in ordered[..n] && IsChildOf(p, id)
    ensures NoDuplicates(ordered) ==> NoDuplicates(ChildrenAmong(ordered, n, id, before))
  {
    if n > 0 {
      ChildrenFacts(ordered, n - 1, id, before);
      assert ordered[..n] == ordered[..n - 1] + [ordered[n - 1]];
      if IsChildOf(ordered[n - 1], id) {
        SortByFacts(ChildrenAmong(ordered, n - 1, id, before) + [ordered[n - 1]], before);
      }
    }
  }

  /** Sorting keeps a list of unique ids unique. */
  lemma {:induction false} SortedStaysUnique(prefixes: seq<Prefix>, before: (Prefix, Prefix) -> bool)
    requires UniquePrefixes(prefixes)
    ensures UniquePrefixes(SortBy(prefixes, before))
    ensures forall p :: p in SortBy(prefixes, before) <==> p in prefixes
  {
    SortByFacts(prefixes, before);
    var r := SortBy(prefixes, before);
    forall i, j | 0 <= i < j < |r| ensures r[i].id != r[j].id {
      assert r[i] in prefixes && r[j] in prefixes && r[i] != r[j];
    }
  }

  /** The children of one prefix are exactly the prefixes that declare it, each once. */
  lemma {:induction false} DeclaredChildren(prefixes: seq<Prefix>, id: string, before: (Prefix, Prefix) -> bool)
    requires UniquePrefixes(prefixes)
    ensures var ordered := SortBy(prefixes, before); var children := ChildrenAmong(ordered, |ordered|, id, before);
            && UniquePrefixes(children)
            && (forall p :: p in children <==> p in prefixes && IsChildOf(p, id))
  {
    var ordered := SortBy(prefixes, before);
    SortedStaysUnique(prefixes, before);
    ChildrenFacts(ordered, |ordered|, id, before);
    assert ordered[..|ordered|] == ordered;
    var children := ChildrenAmong(ordered, |ordered|, id, before);
    forall i, j | 0 <= i < j < |children| ensures children[i].id != children[j].id {
      assert children[i] in ordered && children[j] in ordered && children[i] != children[j];
    }
  }

  // ----- the shape of a forest

  /** What walks over the finished forest rely on: children are nodes one level below, and no
      node is the child of two. */
  ghost predicate WellFormed(nodes: map<string, Node>) {
    && (forall id :: id in nodes ==> NoDuplicates(nodes[id].childPrefixIds))
    && (forall id, c :: id in nodes && c in nodes[id].childPrefixIds ==>
          c in nodes && nodes[c].depth == nodes[id].depth + 1)
    && (forall id, other, c ::
          (id in nodes && other in nodes && c in nodes[id].childPrefixIds && c in nodes[other].childPrefixIds) ==>
            id == other)
  }

  /** In a forest, a prefix at the end of a chain is a node at the depth of the chain. */
  lemma {:induction false} ForestNode(prefixes: seq<Prefix>, before: (Prefix, Prefix) -> bool, tree: Tree,
                                      p: Prefix, n: nat)
    requires UniquePrefixes(prefixes) && IsForest(prefixes, before, tree)
    requires p in prefixes && ChainLength(prefixes, p, n)
    ensures p.id in tree.nodes && tree.nodes[p.id].depth == n && tree.nodes[p.id].prefix == p
  {
    hide ChildrenAmong;
    hide RootsAmong;
    PrefixIndexUnique(prefixes);
    assert ReachesRoot(prefixes, p);
    assert NodeOk(prefixes, SortBy(prefixes, before), before, p.id, tree.nodes[p.id]);
    ChainLengthUnique(prefixes, p, n, tree.nodes[p.id].depth);
  }

  lemma {:induction false} SameNode(prefixes: seq<Prefix>, before: (Prefix, Prefix) -> bool, t: Tree, u: Tree,
                                    id: string)
    requires UniquePrefixes(prefixes) && IsForest(prefixes, before, t) && IsForest(prefixes, before, u)
    requires id in t.nodes
    ensures id in u.nodes && u.nodes[id] == t.nodes[id]
  {
    var ordered := SortBy(prefixes, before);
    assert NodeOk(prefixes, ordered, before, id, t.nodes[id]);
    hide ChildrenAmong, RootsAmong, ChainLength, UniquePrefixes;
    ForestNode(prefixes, before, u, t.nodes[id].prefix, t.nodes[id].depth);
    assert NodeOk(prefixes, ordered, before, id, u.nodes[id]);
  }

  /** A prefix list of unique ids has one forest: the same nodes and the same roots. */
  lemma {:induction false} ForestUnique(prefixes: seq<Prefix>, before: (Prefix, Prefix) -> bool, t: Tree, u: Tree)
    requires UniquePrefixes(prefixes) && IsForest(prefixes, before, t) && IsForest(prefixes, before, u)
    ensures t.nodes == u.nodes && t.roots == u.roots
  {
    assert t.roots == u.roots;
    hide IsForest;
    forall id | id in t.nodes ensures id in u.nodes && u.nodes[id] == t.nodes[id] {
      SameNode(prefixes, before, t, u, id);
    }
    forall id | id in u.nodes ensures id in t.nodes {
      SameNode(prefixes, before, u, t, id);
    }
  }

  lemma ForestChild(prefixes: seq<Prefix>, before: (Prefix, Prefix) -> bool, tree: Tree, id: string, c: string)
    requires UniquePrefixes(prefixes) && IsForest(prefixes, before, tree)
    requires id in tree.nodes && c in tree.nodes[id].childPrefixIds
    ensures c in tree.nodes && tree.nodes[c].depth == tree.nodes[id].depth + 1
    ensures IsChildOf(tree.nodes[c].prefix, id)
  {
    hide ChainLength;
    hide RootsAmong;
    hide ReachesRoot;
    var ordered := SortBy(prefixes, before);
    var children := ChildrenAmong(ordered, |ordered|, id, before);
    DeclaredChildren(prefixes, id, before);
    assert NodeOk(prefixes, ordered, before, id, tree.nodes[id]);
    hide ChildrenAmong;
    var k :| 0 <= k < |children| && Ids(children)[k] == c;
    assert children[k] in children;
    ChildChain(prefixes, tree.nodes[id].prefix, children[k], tree.nodes[id].depth);
    ForestNode(prefixes, before, tree, children[k], tree.nodes[id].depth + 1);
  }

  lemma ChildChain(prefixes: seq<Prefix>, parent: Prefix, child: Prefix, n: nat)
    requires UniquePrefixes(prefixes) && parent in prefixes && child in prefixes
    requires IsChildOf(child, parent.id) && ChainLength(prefixes, parent, n)
    ensures ChainLength(prefixes, child, n + 1)
  {
    PrefixIndexUnique(prefixes);
  }

  lemma ForestIsWellFormed(prefixes: seq<Prefix>, before: (Prefix, Prefix) -> bool, tree: Tree)
    requires UniquePrefixes(prefixes) && IsForest(prefixes, before, tree)
    ensures WellFormed(tree.nodes)
  {
    hide IsForest;
    var nodes := tree.nodes;
    forall id, c | id in nodes && c in nodes[id].childPrefixIds
      ensures c in nodes && nodes[c].depth == nodes[id].depth + 1
    {
      ForestChild(prefixes, before, tree, id, c);
    }
    forall id | id in nodes ensures NoDuplicates(nodes[id].childPrefixIds) {
      ForestChildrenDistinct(prefixes, before, tree, id);
    }
    forall id, other, c | id in nodes && other in nodes
                          && c in nodes[id].childPrefixIds && c in nodes[other].childPrefixIds
      ensures id == other
    {
      ForestChild(prefixes, before, tree, id, c);
      ForestChild(prefixes, before, tree, other, c);
    }
  }

  lemma ForestChildrenDistinct(prefixes: seq<Prefix>, before: (Prefix, Prefix) -> bool, tree: Tree, id: string)
    requires UniquePrefixes(prefixes) && IsForest(prefixes, before, tree) && id in tree.nodes
    ensures NoDuplicates(tree.nodes[id].childPrefixIds)
  {
    DeclaredChildren(prefixes, id, before);
    assert NodeOk(prefixes, SortBy(prefixes, before), before, id, tree.nodes[id]);
  }

  /** The roots are nodes of depth 0, each listed once. */
  lemma ForestRoots(prefixes: seq<Prefix>, before: (Prefix, Prefix) -> bool, tree: Tree)
    requires UniquePrefixes(prefixes) && IsForest(prefixes, before, tree)
    ensures NoDuplicates(tree.roots)
    ensures forall id :: id in tree.roots <==> id in tree.nodes && tree.nodes[id].depth == 0
  {
    var ordered := SortBy(prefixes, before);
    SortedStaysUnique(prefixes, before);
    RootsFacts(ordered, |ordered|);
    assert ordered[..|ordered|] == ordered;
    var roots := RootsAmong(ordered, |ordered|);
    hide ChildrenAmong;
    PrefixIndexUnique(prefixes);
    forall id ensures id in tree.roots <==> id in tree.nodes && tree.nodes[id].depth == 0 {
      if id in tree.roots {
        var k :| 0 <= k < |roots| && roots[k].id == id;
        var root := roots[k];
        assert root in roots && ChainLength(prefixes, root, 0) && ReachesRoot(prefixes, root);
        assert NodeOk(prefixes, ordered, before, id, tree.nodes[id]);
        ChainLengthUnique(prefixes, root, 0, tree.nodes[id].depth);
      } else if id in tree.nodes && tree.nodes[id].depth == 0 {
        NodeAtDepthZero(prefixes, before, tree, id);
      }
    }
  }

  lemma NodeAtDepthZero(prefixes: seq<Prefix>, before: (Prefix, Prefix) -> bool, tree: Tree, id: string)
    requires UniquePrefixes(prefixes) && IsForest(prefixes, before, tree)
    requires id in tree.nodes && tree.nodes[id].depth == 0
    ensures id in tree.roots
  {
    var ordered := SortBy(prefixes, before);
    SortedStaysUnique(prefixes, before);
    RootsFacts(ordered, |ordered|);
    assert ordered[..|ordered|] == ordered;
    var roots := RootsAmong(ordered, |ordered|);
    assert NodeOk(prefixes, ordered, before, id, tree.nodes[id]);
    var k :| 0 <= k < |roots| && roots[k] == tree.nodes[id].prefix;
    assert tree.roots[k] == id;
  }
}
