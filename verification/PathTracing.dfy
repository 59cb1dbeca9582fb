/** Breadth-first path tracing over the topology, bounded by a depth. */
module PathTracing {
  import opened Sorting

  datatype EdgeKind = L2Adjacency | L3Adjacency | VlanPropagation | CableLink

  /** An edge of the topology; a step of a traced path repeats the same four fields. */
  datatype Edge = Edge(id: string, kind: EdgeKind, fromId: string, toId: string)

  datatype Request = Request(startNodeId: string, targetNodeId: string, allowedKinds: seq<EdgeKind>, maxDepth: int)

  datatype Result = Result(found: bool, visitedNodeIds: seq<string>, path: seq<Edge>)

  function KindText(kind: EdgeKind): string {
    match kind
    case L2Adjacency => "l2-adjacency"
    case L3Adjacency => "l3-adjacency"
    case VlanPropagation => "vlan-propagation"
    case CableLink => "cable-link"
  }

  function EdgeKey(e: Edge): string {
    e.fromId + ":" + e.toId + ":" + KindText(e.kind) + ":" + e.id
  }

  /** `compareSteps`, over a `localeCompare` passed in. */
  function ByKey(collate: (string, string) -> int): (Edge, Edge) -> bool {
    (left: Edge, right: Edge) => collate(EdgeKey(left), EdgeKey(right)) <= 0
  }

  // ----- the adjacency index

  function Bucket(adjacency: map<string, seq<Edge>>, nodeId: string): seq<Edge> {
    if nodeId in adjacency then adjacency[nodeId] else []
  }

  /** Each node's bucket holds exactly the edges that leave it. */
  ghost predicate Indexes(adjacency: map<string, seq<Edge>>, edges: seq<Edge>) {
    forall n, e :: e in Bucket(adjacency, n) <==> e in edges && e.fromId == n
  }

  lemma BucketFacts(adjacency: map<string, seq<Edge>>, edges: seq<Edge>, n: string)
    requires Indexes(adjacency, edges)
    ensures forall e :: e in Bucket(adjacency, n) <==> e in edges && e.fromId == n
  {
  }

  lemma IndexOneMore(adjacency: map<string, seq<Edge>>, edges: seq<Edge>, edge: Edge)
    requires Indexes(adjacency, edges)
    ensures Indexes(adjacency[edge.fromId := Bucket(adjacency, edge.fromId) + [edge]], edges + [edge])
  {
    var next := adjacency[edge.fromId := Bucket(adjacency, edge.fromId) + [edge]];
    forall n, e ensures e in Bucket(next, n) <==> e in edges + [edge] && e.fromId == n {
      assert e in Bucket(adjacency, n) <==> e in edges && e.fromId == n;
    }
  }

  method BuildAdjacencyIndex(edges: seq<Edge>, collate: (string, string) -> int)
    returns (adjacency: map<string, seq<Edge>>)
    ensures Indexes(adjacency, edges)
  {
    adjacency := map[];
    var ordered := SortBy(edges, ByKey(collate));
    SortByFacts(edges, ByKey(collate));
    for i := 0 to |ordered|
      invariant Indexes(adjacency, ordered[..i])
    {
      var edge := ordered[i];
      IndexOneMore(adjacency, ordered[..i], edge);
      assert ordered[..i + 1] == ordered[..i] + [edge];
      adjacency := adjacency[edge.fromId := Bucket(adjacency, edge.fromId) + [edge]];
    }
    assert ordered[..|ordered|] == ordered;
  }

  // ----- walks

  /** `w` leads from the start to `t` along input edges of allowed kinds. */
  ghost predicate IsWalk(edges: seq<Edge>, r: Request, t: string, w: seq<Edge>)
    decreases |w|
  {
    if w == [] then t == r.startNodeId
    else
      var last := w[|w| - 1];
      && last in edges && last.kind in r.allowedKinds && last.toId == t
      && IsWalk(edges, r, last.fromId, w[..|w| - 1])
  }

  function Bound(r: Request): nat {
    if r.maxDepth < 0 then 0 else r.maxDepth
  }

  /** The nodes a walk passes, the start first. */
  function NodesOf(r: Request, w: seq<Edge>): seq<string> {
    if w == [] then [r.startNodeId] else NodesOf(r, w[..|w| - 1]) + [w[|w| - 1].toId]
  }

  // ----- the search state

  datatype Entry = Entry(nodeId: string, path: seq<Edge>, depth: nat)

  /** Each visited node was reached by a walk without repeated nodes, all of them visited. */
  ghost predicate PathsOk(edges: seq<Edge>, r: Request, paths: map<string, seq<Edge>>) {
    && r.startNodeId in paths && paths[r.startNodeId] == []
    && forall v :: v in paths ==>
         && IsWalk(edges, r, v, paths[v])
         && |paths[v]| <= Bound(r)
         && NoDuplicates(NodesOf(r, paths[v]))
         && forall n :: n in NodesOf(r, paths[v]) ==> n in paths
  }

  /** The queue holds visited nodes once each, by increasing depth, on at most two levels. */
  ghost predicate QueueOk(paths: map<string, seq<Edge>>, queue: seq<Entry>) {
    && (forall i :: 0 <= i < |queue| ==>
          queue[i].nodeId in paths && queue[i].path == paths[queue[i].nodeId] && queue[i].depth == |queue[i].path|)
    && (forall i, j :: 0 <= i < j < |queue| ==>
          queue[i].nodeId != queue[j].nodeId && queue[i].depth <= queue[j].depth)
    && (|queue| > 0 ==> forall v :: v in paths ==> |paths[v]| <= queue[0].depth + 1)
  }

  ghost predicate Queued(queue: seq<Entry>, v: string) {
    exists i :: 0 <= i < |queue| && queue[i].nodeId == v
  }

  lemma QueuedAfterPush(queue: seq<Entry>, x: Entry)
    ensures Queued(queue + [x], x.nodeId)
    ensures forall v :: Queued(queue, v) ==> Queued(queue + [x], v)
  {
    var q := queue + [x];
    assert q[|queue|].nodeId == x.nodeId;
    forall v | Queued(queue, v) ensures Queued(q, v) {
      var i :| 0 <= i < |queue| && queue[i].nodeId == v;
      assert q[i].nodeId == v;
    }
  }

  lemma QueuedAfterShift(queue: seq<Entry>, x: Entry)
    ensures forall v :: Queued([x] + queue, v) ==> v == x.nodeId || Queued(queue, v)
  {
    var q := [x] + queue;
    forall v | Queued(q, v) ensures v == x.nodeId || Queued(queue, v) {
      var i :| 0 <= i < |q| && q[i].nodeId == v;
      assert i > 0 ==> queue[i - 1].nodeId == v;
    }
  }

  /** The end of `e` has been visited at most one level below `v`. */
  ghost predicate Followed(paths: map<string, seq<Edge>>, v: string, e: Edge)
    requires v in paths
  {
    e.toId in paths && |paths[e.toId]| <= |paths[v]| + 1
  }

  ghost predicate Expanded(edges: seq<Edge>, r: Request, paths: map<string, seq<Edge>>, v: string)
    requires v in paths
  {
    |paths[v]| < r.maxDepth ==>
      forall e :: e in edges && e.fromId == v && e.kind in r.allowedKinds ==> Followed(paths, v, e)
  }

  /** Nodes taken off the queue are not the target, and their allowed edges have been followed. */
  ghost predicate ProcessedOk(edges: seq<Edge>, r: Request, paths: map<string, seq<Edge>>, queue: seq<Entry>) {
    forall v :: v in paths && !Queued(queue, v) ==> v != r.targetNodeId && Expanded(edges, r, paths, v)
  }

  // ----- what the search state says about walks

  /** A walk shorter than every queued depth ends in a visited node, no later than the walk. */
  lemma {:induction false} ShortWalkVisited(edges: seq<Edge>, r: Request, paths: map<string, seq<Edge>>,
                                            queue: seq<Entry>, d: nat, x: string, w: seq<Edge>)
    requires PathsOk(edges, r, paths) && ProcessedOk(edges, r, paths, queue)
    requires forall i :: 0 <= i < |queue| ==> queue[i].nodeId in paths && |paths[queue[i].nodeId]| >= d
    requires d <= Bound(r) + 1 && IsWalk(edges, r, x, w) && |w| < d
    ensures x in paths && |paths[x]| <= |w|
    decreases |w|
  {
    if w != [] {
      var last := w[|w| - 1];
      ShortWalkVisited(edges, r, paths, queue, d, last.fromId, w[..|w| - 1]);
      assert Expanded(edges, r, paths, last.fromId);
      assert Followed(paths, last.fromId, last);
    }
  }

  /** The node at the head of the queue was reached by a shortest walk. */
  lemma {:induction false} HeadIsShortest(edges: seq<Edge>, r: Request, paths: map<string, seq<Edge>>,
                                          queue: seq<Entry>, w: seq<Edge>)
    requires PathsOk(edges, r, paths) && QueueOk(paths, queue) && ProcessedOk(edges, r, paths, queue)
    requires |queue| > 0 && IsWalk(edges, r, queue[0].nodeId, w)
    ensures queue[0].depth <= |w|
  {
    if |w| < queue[0].depth {
      ShortWalkVisited(edges, r, paths, queue, queue[0].depth, queue[0].nodeId, w);
    }
  }

  /** Some allowed walk of at most `n` edges leads to the node. */
  ghost predicate ReachedWithin(edges: seq<Edge>, r: Request, x: string, n: int) {
    exists w :: IsWalk(edges, r, x, w) && |w| <= n
  }

  lemma {:induction false} VisitedAreReached(edges: seq<Edge>, r: Request, paths: map<string, seq<Edge>>)
    requires PathsOk(edges, r, paths)
    ensures forall x :: x in paths ==> ReachedWithin(edges, r, x, Bound(r))
  {
    hide IsWalk, NodesOf;
    forall x | x in paths ensures ReachedWithin(edges, r, x, Bound(r)) {
      assert IsWalk(edges, r, x, paths[x]);
    }
  }

  /** When a node is taken from the queue, every node nearer than it has been visited, and none
      further than one edge beyond it. */
  lemma {:induction false} VisitedWhenFound(edges: seq<Edge>, r: Request, paths: map<string, seq<Edge>>,
                                            queue: seq<Entry>)
    requires PathsOk(edges, r, paths) && QueueOk(paths, queue) && ProcessedOk(edges, r, paths, queue)
    requires |queue| > 0
    ensures forall x, w :: IsWalk(edges, r, x, w) && |w| < queue[0].depth ==> x in paths
    ensures forall x :: x in paths ==> ReachedWithin(edges, r, x, queue[0].depth + 1)
    ensures forall x :: x in paths ==> ReachedWithin(edges, r, x, Bound(r))
  {
    hide IsWalk, NodesOf, ProcessedOk;
    VisitedAreReached(edges, r, paths);
    forall x, w | IsWalk(edges, r, x, w) && |w| < queue[0].depth ensures x in paths {
      ShortWalkVisited(edges, r, paths, queue, queue[0].depth, x, w);
    }
    forall x | x in paths ensures ReachedWithin(edges, r, x, queue[0].depth + 1) {
      assert IsWalk(edges, r, x, paths[x]);
    }
  }

  /** With an empty queue the visited nodes are exactly those within the depth bound, and the
      target is not among them. */
  lemma {:induction false} ExhaustedIsComplete(edges: seq<Edge>, r: Request, paths: map<string, seq<Edge>>)
    requires PathsOk(edges, r, paths) && ProcessedOk(edges, r, paths, [])
    ensures forall x :: x in paths <==> exists w :: IsWalk(edges, r, x, w) && |w| <= Bound(r)
    ensures forall w :: IsWalk(edges, r, r.targetNodeId, w) ==> |w| > Bound(r)
  {
    forall x, w | IsWalk(edges, r, x, w) && |w| <= Bound(r) ensures x in paths {
      ShortWalkVisited(edges, r, paths, [], Bound(r) + 1, x, w);
    }
    forall x | x in paths ensures exists w :: IsWalk(edges, r, x, w) && |w| <= Bound(r) {
      assert IsWalk(edges, r, x, paths[x]);
    }
    assert forall x :: x in paths ==> x != r.targetNodeId by {
      assert forall x :: x in paths ==> !Queued([], x);
    }
  }

  // ----- one edge

  /** Following an allowed edge to a new node keeps the search state in order. */
  lemma NewNodeKeepsPaths(edges: seq<Edge>, r: Request, paths: map<string, seq<Edge>>, v: string, e: Edge)
    requires PathsOk(edges, r, paths) && v in paths && |paths[v]| < r.maxDepth
    requires e in edges && e.fromId == v && e.kind in r.allowedKinds && e.toId !in paths
    ensures PathsOk(edges, r, paths[e.toId := paths[v] + [e]])
  {
    var w := paths[v] + [e];
    assert w[..|w| - 1] == paths[v];
    assert NodesOf(r, w) == NodesOf(r, paths[v]) + [e.toId];
  }

  /** The pending work of the search falls by one at each step. */
  ghost function Work(universe: set<string>, visited: set<string>, queue: seq<Entry>): nat {
    |universe - visited| + |queue|
  }

  lemma WorkOfPush(universe: set<string>, visited: set<string>, queue: seq<Entry>, x: Entry)
    requires x.nodeId in universe && x.nodeId !in visited
    ensures Work(universe, visited + {x.nodeId}, queue + [x]) == Work(universe, visited, queue)
  {
    assert universe - (visited + {x.nodeId}) == (universe - visited) - {x.nodeId};
  }

  ghost predicate Opened(edges: seq<Edge>, r: Request, paths: map<string, seq<Edge>>, queue: seq<Entry>,
                         current: Entry) {
    && PathsOk(edges, r, paths)
    && current.nodeId in paths && current.path == paths[current.nodeId] && current.depth == |current.path|
    && QueueOk(paths, [current] + queue)
    && ProcessedOk(edges, r, paths, [current] + queue)
  }

  /** The pushed node goes to the end of the queue, one level below its head. */
  lemma PushKeepsQueue(paths: map<string, seq<Edge>>, q: seq<Entry>, e: Edge)
    requires |q| > 0 && QueueOk(paths, q) && e.toId !in paths
    ensures QueueOk(paths[e.toId := q[0].path + [e]], q + [Entry(e.toId, q[0].path + [e], q[0].depth + 1)])
  {
    var pushed := Entry(e.toId, q[0].path + [e], q[0].depth + 1);
    var paths', q' := paths[e.toId := pushed.path], q + [pushed];
    forall i, j | 0 <= i < j < |q'| ensures q'[i].nodeId != q'[j].nodeId && q'[i].depth <= q'[j].depth {
      if j == |q| {
        assert q'[i] == q[i] && q[i].nodeId in paths && |paths[q[i].nodeId]| <= q[0].depth + 1;
      }
    }
  }

  lemma PushKeepsProcessed(edges: seq<Edge>, r: Request, paths: map<string, seq<Edge>>, q: seq<Entry>, pushed: Entry)
    requires ProcessedOk(edges, r, paths, q) && pushed.nodeId !in paths
    ensures ProcessedOk(edges, r, paths[pushed.nodeId := pushed.path], q + [pushed])
  {
    QueuedAfterPush(q, pushed);
    hide Queued;
    var paths' := paths[pushed.nodeId := pushed.path];
    forall v | v in paths' && !Queued(q + [pushed], v)
      ensures v != r.targetNodeId && Expanded(edges, r, paths', v)
    {
      assert Expanded(edges, r, paths, v);
      assert forall x :: Followed(paths, v, x) ==> Followed(paths', v, x);
    }
  }

  /** Pushing a newly visited node keeps the search state of the node being expanded. */
  lemma PushKeepsOpened(edges: seq<Edge>, r: Request, paths: map<string, seq<Edge>>, queue: seq<Entry>,
                        current: Entry, e: Edge)
    requires Opened(edges, r, paths, queue, current) && current.depth < r.maxDepth
    requires e in edges && e.fromId == current.nodeId && e.kind in r.allowedKinds && e.toId !in paths
    ensures Opened(edges, r, paths[e.toId := current.path + [e]],
                   queue + [Entry(e.toId, current.path + [e], current.depth + 1)], current)
  {
    NewNodeKeepsPaths(edges, r, paths, current.nodeId, e);
    hide PathsOk, QueueOk, ProcessedOk;
    var q, pushed := [current] + queue, Entry(e.toId, current.path + [e], current.depth + 1);
    assert [current] + (queue + [pushed]) == q + [pushed];
    PushKeepsQueue(paths, q, e);
    PushKeepsProcessed(edges, r, paths, q, pushed);
  }

  lemma ShiftKeepsQueue(paths: map<string, seq<Edge>>, queue: seq<Entry>, current: Entry)
    requires QueueOk(paths, [current] + queue)
    ensures QueueOk(paths, queue)
  {
    var q := [current] + queue;
    assert forall i :: 0 <= i < |queue| ==> queue[i] == q[i + 1];
    if |queue| > 0 {
      assert q[0].depth <= q[1].depth;
    }
  }

  /** Once its edges are followed the node is done with. */
  lemma CloseNode(edges: seq<Edge>, r: Request, paths: map<string, seq<Edge>>, queue: seq<Entry>, current: Entry)
    requires Opened(edges, r, paths, queue, current)
    requires current.nodeId != r.targetNodeId && Expanded(edges, r, paths, current.nodeId)
    ensures QueueOk(paths, queue) && ProcessedOk(edges, r, paths, queue)
  {
    hide PathsOk, QueueOk, Expanded, Queued;
    QueuedAfterShift(queue, current);
    ShiftKeepsQueue(paths, queue, current);
  }

  // ----- which of the shortest walks is found

  /** The collation tells all edges apart and orders them. */
  ghost predicate EdgesOrdered(edges: seq<Edge>, collate: (string, string) -> int) {
    && PreorderOn((set e | e in edges), ByKey(collate))
    && forall e, f :: e in edges && f in edges && ByKey(collate)(e, f) && ByKey(collate)(f, e) ==> e == f
  }

  /** Of two walks of one length the first is the same or, at the first edge in which they differ, has the
      edge that comes first. */
  ghost predicate Leads(collate: (string, string) -> int, a: seq<Edge>, b: seq<Edge>)
    requires |a| == |b|
  {
    if a == [] then true
    else
      var n := |a| - 1;
      if a[..n] == b[..n] then ByKey(collate)(a[n], b[n]) else Leads(collate, a[..n], b[..n])
  }

  /** A walk leads another exactly when it is the same or has the earlier edge where they first differ. */
  lemma {:induction false} LeadsIff(collate: (string, string) -> int, edges: seq<Edge>, a: seq<Edge>, b: seq<Edge>)
    requires EdgesOrdered(edges, collate) && |a| == |b|
    requires (forall e :: e in a ==> e in edges) && forall e :: e in b ==> e in edges
    ensures Leads(collate, a, b) <==>
            a == b || exists k :: 0 <= k < |a| && FirstDifference(a, b, k) && ByKey(collate)(a[k], b[k])
    decreases |a|
  {
    hide ByKey;
    if a != [] {
      var n := |a| - 1;
      LeadsIff(collate, edges, a[..n], b[..n]);
      assert a == a[..n] + [a[n]] && b == b[..n] + [b[n]];
      assert a[n] in edges && b[n] in edges;
      if a[..n] == b[..n] {
        assert a[n] != b[n] ==> FirstDifference(a, b, n);
        assert forall k :: 0 <= k < |a| && FirstDifference(a, b, k) ==> k == n;
      } else {
        DifferenceWithin(a, b);
      }
    }
  }

  ghost predicate FirstDifference(a: seq<Edge>, b: seq<Edge>, k: nat)
    requires k < |a| == |b|
  {
    a[k] != b[k] && forall m :: 0 <= m < k ==> a[m] == b[m]
  }

  lemma DifferenceWithin(a: seq<Edge>, b: seq<Edge>)
    requires |a| == |b| > 0 && a[..|a| - 1] != b[..|a| - 1]
    ensures forall k :: 0 <= k < |a| - 1 ==>
              (FirstDifference(a[..|a| - 1], b[..|a| - 1], k) <==> FirstDifference(a, b, k))
    ensures !FirstDifference(a, b, |a| - 1)
  {
  }

  /** The text by which the edges are ordered. */
  lemma EdgeKeys(id: string, fromId: string, toId: string)
    ensures EdgeKey(Edge(id, L2Adjacency, fromId, toId)) == fromId + ":" + toId + ":" + "l2-adjacency" + ":" + id
    ensures EdgeKey(Edge(id, L3Adjacency, fromId, toId)) == fromId + ":" + toId + ":" + "l3-adjacency" + ":" + id
    ensures EdgeKey(Edge(id, VlanPropagation, fromId, toId))
         == fromId + ":" + toId + ":" + "vlan-propagation" + ":" + id
    ensures EdgeKey(Edge(id, CableLink, fromId, toId)) == fromId + ":" + toId + ":" + "cable-link" + ":" + id
  {
  }

  /** The walks found are the leading ones of their length, the queue holds them in that order, and those
      one level down come from nodes before its head. */
  ghost predicate Leading(edges: seq<Edge>, r: Request, collate: (string, string) -> int,
                          paths: map<string, seq<Edge>>, q: seq<Entry>) {
    && (forall v, w :: v in paths && IsWalk(edges, r, v, w) && |w| == |paths[v]| ==> Leads(collate, paths[v], w))
    && (forall i, j :: 0 <= i < j < |q| && |q[i].path| == |q[j].path| ==> Leads(collate, q[i].path, q[j].path))
    && (forall j :: 0 <= j < |q| && |q[j].path| == |q[0].path| + 1 ==>
          Leads(collate, q[j].path[..|q[0].path|], q[0].path))
  }

  /** No queued node was reached from another queued one. */
  ghost predicate Unopened(queue: seq<Entry>) {
    forall j :: 0 <= j < |queue| && queue[j].path != [] ==> !Queued(queue, queue[j].path[|queue[j].path| - 1].fromId)
  }

  /** What was reached from the node being expanded was reached by an edge followed so far. */
  ghost predicate FromFollowed(queue: seq<Entry>, current: Entry, followed: seq<Edge>) {
    forall j :: 0 <= j < |queue| && queue[j].path != [] ==>
      var last := queue[j].path[|queue[j].path| - 1];
      last.fromId == current.nodeId ==> last in followed
  }

  ghost predicate RankedQueue(edges: seq<Edge>, r: Request, collate: (string, string) -> int,
                              paths: map<string, seq<Edge>>, queue: seq<Entry>) {
    EdgesOrdered(edges, collate) ==> Leading(edges, r, collate, paths, queue) && Unopened(queue)
  }

  ghost predicate RankedOpen(edges: seq<Edge>, r: Request, collate: (string, string) -> int,
                             paths: map<string, seq<Edge>>, queue: seq<Entry>, current: Entry, followed: seq<Edge>) {
    EdgesOrdered(edges, collate) ==>
      && Leading(edges, r, collate, paths, [current] + queue)
      && Unopened(queue) && FromFollowed(queue, current, followed)
  }

  lemma {:induction false} WalkEdges(edges: seq<Edge>, r: Request, t: string, w: seq<Edge>)
    requires IsWalk(edges, r, t, w)
    ensures Among(edges, w)
    decreases |w|
  {
    if w != [] {
      WalkEdges(edges, r, w[|w| - 1].fromId, w[..|w| - 1]);
      assert w == w[..|w| - 1] + [w[|w| - 1]];
    }
  }

  ghost predicate Among(edges: seq<Edge>, w: seq<Edge>) {
    forall e :: e in w ==> e in edges
  }

  lemma {:induction false} LeadsItself(collate: (string, string) -> int, edges: seq<Edge>, a: seq<Edge>)
    requires EdgesOrdered(edges, collate) && Among(edges, a)
    ensures Leads(collate, a, a)
  {
  }

  lemma {:induction false} LeadsBothWays(collate: (string, string) -> int, edges: seq<Edge>, a: seq<Edge>, b: seq<Edge>)
    requires EdgesOrdered(edges, collate) && Among(edges, a) && Among(edges, b) && |a| == |b|
    requires Leads(collate, a, b) && Leads(collate, b, a)
    ensures a == b
    decreases |a|
  {
    hide PreorderOn;
    if a != [] {
      var n := |a| - 1;
      assert a == a[..n] + [a[n]] && b == b[..n] + [b[n]];
      if a[..n] != b[..n] {
        LeadsBothWays(collate, edges, a[..n], b[..n]);
      }
    }
  }

  lemma {:induction false} LeadsOn(collate: (string, string) -> int, edges: seq<Edge>, a: seq<Edge>, b: seq<Edge>,
                                   c: seq<Edge>)
    requires EdgesOrdered(edges, collate) && Among(edges, a) && Among(edges, b) && Among(edges, c)
    requires |a| == |b| == |c| && Leads(collate, a, b) && Leads(collate, b, c)
    ensures Leads(collate, a, c)
    decreases |a|
  {
    if a != [] {
      var n := |a| - 1;
      assert a[n] in edges && b[n] in edges && c[n] in edges;
      if a[..n] == c[..n] {
        if a[..n] != b[..n] {
          LeadsBothWays(collate, edges, a[..n], b[..n]);
        }
      } else if a[..n] != b[..n] && b[..n] != c[..n] {
        LeadsOn(collate, edges, a[..n], b[..n], c[..n]);
      }
    }
  }

  lemma RankedStarts(edges: seq<Edge>, r: Request, collate: (string, string) -> int)
    ensures RankedQueue(edges, r, collate, map[r.startNodeId := []], [Entry(r.startNodeId, [], 0)])
  {
  }

  /** The head of the queue is taken off: nothing queued was reached from it. */
  lemma {:induction false} RankedOpens(edges: seq<Edge>, r: Request, collate: (string, string) -> int,
                                       paths: map<string, seq<Edge>>, q: seq<Entry>)
    requires |q| > 0 && RankedQueue(edges, r, collate, paths, q)
    ensures RankedOpen(edges, r, collate, paths, q[1..], q[0], [])
  {
    assert [q[0]] + q[1..] == q;
    hide Leading, EdgesOrdered;
    var queue := q[1..];
    QueuedIn(queue, q);
    assert q[0].nodeId == q[0].nodeId && Queued(q, q[0].nodeId);
    forall j | 0 <= j < |queue| ensures queue[j] == q[j + 1] {
    }
  }

  lemma QueuedIn(queue: seq<Entry>, q: seq<Entry>)
    requires |q| > 0 && queue == q[1..]
    ensures forall v :: Queued(queue, v) ==> Queued(q, v)
  {
    forall v | Queued(queue, v) ensures Queued(q, v) {
      var i :| 0 <= i < |queue| && queue[i].nodeId == v;
      assert q[i + 1].nodeId == v;
    }
  }

  /** A walk as long as the head's is deep ends in a visited node, no later than the walk. */
  lemma {:induction false} LevelVisited(edges: seq<Edge>, r: Request, paths: map<string, seq<Edge>>, q: seq<Entry>,
                                        x: string, w: seq<Edge>)
    requires PathsOk(edges, r, paths) && QueueOk(paths, q) && ProcessedOk(edges, r, paths, q) && |q| > 0
    requires IsWalk(edges, r, x, w) && |w| == q[0].depth <= r.maxDepth
    ensures x in paths && |paths[x]| <= |w|
  {
    if w != [] {
      var last := w[|w| - 1];
      hide IsWalk, PathsOk, Queued, Followed;
      assert IsWalk(edges, r, last.fromId, w[..|w| - 1]) && last in edges && last.kind in r.allowedKinds by {
        WalkEnds(edges, r, x, w);
      }
      WalkEnds(edges, r, x, w);
      ShortWalkVisited(edges, r, paths, q, q[0].depth, last.fromId, w[..|w| - 1]);
      ShallowIsProcessed(paths, q, last.fromId);
      assert Expanded(edges, r, paths, last.fromId);
      FollowedMeans(paths, last.fromId, last);
    } else {
      EmptyWalk(edges, r, paths, x);
    }
  }

  lemma WalkEnds(edges: seq<Edge>, r: Request, x: string, w: seq<Edge>)
    requires IsWalk(edges, r, x, w) && w != []
    ensures var last := w[|w| - 1];
            && last in edges && last.kind in r.allowedKinds && last.toId == x
            && IsWalk(edges, r, last.fromId, w[..|w| - 1])
  {
  }

  lemma {:induction false} EmptyWalk(edges: seq<Edge>, r: Request, paths: map<string, seq<Edge>>, x: string)
    requires PathsOk(edges, r, paths) && IsWalk(edges, r, x, [])
    ensures x in paths && paths[x] == []
  {
  }

  lemma FollowedMeans(paths: map<string, seq<Edge>>, v: string, e: Edge)
    requires v in paths && Followed(paths, v, e)
    ensures e.toId in paths && |paths[e.toId]| <= |paths[v]| + 1
  {
  }

  lemma {:induction false} ShallowIsProcessed(paths: map<string, seq<Edge>>, q: seq<Entry>, v: string)
    requires QueueOk(paths, q) && |q| > 0 && v in paths && |paths[v]| < q[0].depth
    ensures !Queued(q, v)
  {
  }

  /** A node with an allowed edge to an unvisited one, at the end of a walk as long as the head's, is queued
      on the head's level. */
  lemma {:induction false} ParentIsQueued(edges: seq<Edge>, r: Request, paths: map<string, seq<Edge>>, q: seq<Entry>,
                                          e: Edge, w: seq<Edge>) returns (j: nat)
    requires PathsOk(edges, r, paths) && QueueOk(paths, q) && ProcessedOk(edges, r, paths, q) && |q| > 0
    requires IsWalk(edges, r, e.fromId, w) && |w| == q[0].depth < r.maxDepth
    requires e in edges && e.kind in r.allowedKinds && e.toId !in paths
    ensures j < |q| && q[j].nodeId == e.fromId && |q[j].path| == |w|
    ensures e.fromId in paths && q[j].path == paths[e.fromId]
  {
    LevelVisited(edges, r, paths, q, e.fromId, w);
    hide IsWalk, PathsOk;
    var u := e.fromId;
    assert !Queued(q, u) ==> Expanded(edges, r, paths, u) && Followed(paths, u, e);
    j :| 0 <= j < |q| && q[j].nodeId == u;
    assert q[0].depth <= q[j].depth;
  }

  /** Before the `i`th outbound edge no allowed one leads to an unvisited node. */
  ghost predicate FollowedUpTo(r: Request, paths: map<string, seq<Edge>>, outbound: seq<Edge>, i: nat)
    requires i <= |outbound|
  {
    forall k :: 0 <= k < i && outbound[k].kind in r.allowedKinds ==> outbound[k].toId in paths
  }

  /** The edges that leave the node, in order. */
  ghost predicate Outbound(edges: seq<Edge>, collate: (string, string) -> int, nodeId: string, outbound: seq<Edge>) {
    && (forall e :: e in outbound <==> e in edges && e.fromId == nodeId)
    && (EdgesOrdered(edges, collate) ==> Sorted(outbound, ByKey(collate)))
  }

  lemma {:induction false} EarlierEdge(edges: seq<Edge>, r: Request, collate: (string, string) -> int,
                                       paths: map<string, seq<Edge>>, nodeId: string, outbound: seq<Edge>, i: nat,
                                       last: Edge)
    requires EdgesOrdered(edges, collate) && Outbound(edges, collate, nodeId, outbound) && i < |outbound|
    requires FollowedUpTo(r, paths, outbound, i)
    requires last in edges && last.fromId == nodeId && last.kind in r.allowedKinds && last.toId !in paths
    ensures ByKey(collate)(outbound[i], last)
  {
    hide ByKey;
    var k :| 0 <= k < |outbound| && outbound[k] == last;
    assert outbound[i] in outbound;
  }

  lemma {:induction false} SameWalkSameEnd(edges: seq<Edge>, r: Request, x: string, y: string, w: seq<Edge>)
    requires IsWalk(edges, r, x, w) && IsWalk(edges, r, y, w)
    ensures x == y
  {
  }

  lemma {:induction false} LeadsByLast(collate: (string, string) -> int, a: seq<Edge>, e: Edge, b: seq<Edge>, f: Edge)
    requires |a| == |b| && if a == b then ByKey(collate)(e, f) else Leads(collate, a, b)
    ensures Leads(collate, a + [e], b + [f])
  {
    assert (a + [e])[..|a|] == a && (b + [f])[..|b|] == b;
  }

  /** The walk to a node visited for the first time leads all others of its length. */
  lemma {:induction false} NewWalkLeads(edges: seq<Edge>, r: Request, collate: (string, string) -> int,
                                        paths: map<string, seq<Edge>>, q: seq<Entry>, outbound: seq<Edge>, i: nat,
                                        w: seq<Edge>)
    requires PathsOk(edges, r, paths) && QueueOk(paths, q) && ProcessedOk(edges, r, paths, q) && |q| > 0
    requires EdgesOrdered(edges, collate) && Leading(edges, r, collate, paths, q) && q[0].depth < r.maxDepth
    requires Outbound(edges, collate, q[0].nodeId, outbound) && i < |outbound| && FollowedUpTo(r, paths, outbound, i)
    requires outbound[i].toId !in paths
    requires IsWalk(edges, r, outbound[i].toId, w) && |w| == |q[0].path| + 1
    ensures Leads(collate, q[0].path + [outbound[i]], w)
  {
    hide *;
    var d := |q[0].path|;
    var last, front := w[d], w[..d];
    WalkEnds(edges, r, outbound[i].toId, w);
    assert w == front + [last];
    HeadWalk(edges, r, paths, q);
    var j := ParentIsQueued(edges, r, paths, q, last, front);
    FoundLeads(edges, r, collate, paths, q, last.fromId, front);
    if front == q[0].path {
      SameWalkSameEnd(edges, r, q[0].nodeId, last.fromId, front);
      EarlierEdge(edges, r, collate, paths, q[0].nodeId, outbound, i, last);
    } else {
      WalkEdges(edges, r, last.fromId, front);
      WalkEdges(edges, r, q[j].nodeId, q[j].path);
      WalkEdges(edges, r, q[0].nodeId, q[0].path);
      LeadsThrough(edges, r, collate, paths, q, j, front);
    }
    LeadsByLast(collate, q[0].path, outbound[i], front, last);
  }

  lemma {:induction false} FoundLeads(edges: seq<Edge>, r: Request, collate: (string, string) -> int,
                                      paths: map<string, seq<Edge>>, q: seq<Entry>, v: string, w: seq<Edge>)
    requires Leading(edges, r, collate, paths, q) && v in paths && IsWalk(edges, r, v, w) && |w| == |paths[v]|
    ensures Leads(collate, paths[v], w)
  {
    hide IsWalk, Leads;
  }

  lemma {:induction false} HeadWalk(edges: seq<Edge>, r: Request, paths: map<string, seq<Edge>>, q: seq<Entry>)
    requires PathsOk(edges, r, paths) && QueueOk(paths, q) && |q| > 0
    ensures q[0].nodeId in paths && q[0].path == paths[q[0].nodeId] && q[0].depth == |q[0].path|
    ensures forall j :: 0 <= j < |q| ==> IsWalk(edges, r, q[j].nodeId, q[j].path)
  {
    hide IsWalk, NodesOf;
  }

  lemma {:induction false} LeadsThrough(edges: seq<Edge>, r: Request, collate: (string, string) -> int,
                                        paths: map<string, seq<Edge>>, q: seq<Entry>, j: nat, front: seq<Edge>)
    requires EdgesOrdered(edges, collate) && Leading(edges, r, collate, paths, q)
    requires j < |q| && |q[j].path| == |q[0].path| == |front| && Leads(collate, q[j].path, front)
    requires Among(edges, q[0].path) && Among(edges, q[j].path) && Among(edges, front)
    ensures Leads(collate, q[0].path, front)
  {
    hide IsWalk, EdgesOrdered, Leads;
    if j > 0 {
      LeadsOn(collate, edges, q[0].path, q[j].path, front);
    }
  }

  lemma {:induction false} PushedWalkLeads(edges: seq<Edge>, r: Request, collate: (string, string) -> int,
                                           paths: map<string, seq<Edge>>, q: seq<Entry>, outbound: seq<Edge>, i: nat)
    requires PathsOk(edges, r, paths) && QueueOk(paths, q) && ProcessedOk(edges, r, paths, q) && |q| > 0
    requires EdgesOrdered(edges, collate) && Leading(edges, r, collate, paths, q) && q[0].depth < r.maxDepth
    requires Outbound(edges, collate, q[0].nodeId, outbound) && i < |outbound| && FollowedUpTo(r, paths, outbound, i)
    requires outbound[i].toId !in paths
    ensures var after := paths[outbound[i].toId := q[0].path + [outbound[i]]];
            forall v, w :: v in after && IsWalk(edges, r, v, w) && |w| == |after[v]| ==> Leads(collate, after[v], w)
  {
    hide IsWalk, PathsOk, QueueOk, ProcessedOk, EdgesOrdered, Leads, Outbound, FollowedUpTo;
    forall w | IsWalk(edges, r, outbound[i].toId, w) && |w| == |q[0].path| + 1
      ensures Leads(collate, q[0].path + [outbound[i]], w)
    {
      NewWalkLeads(edges, r, collate, paths, q, outbound, i, w);
    }
  }

  lemma {:induction false} BelowHead(edges: seq<Edge>, r: Request, collate: (string, string) -> int,
                                     paths: map<string, seq<Edge>>, queue: seq<Entry>, current: Entry, j: nat)
    requires Opened(edges, r, paths, queue, current) && Leading(edges, r, collate, paths, [current] + queue)
    requires j < |queue| && |queue[j].path| == |current.path| + 1
    ensures var front, last := queue[j].path[..|current.path|], queue[j].path[|current.path|];
            && IsWalk(edges, r, last.fromId, front) && IsWalk(edges, r, current.nodeId, current.path)
            && Leads(collate, front, current.path)
  {
    hide IsWalk, Leads, PathsOk, QueueOk, ProcessedOk;
    var q := [current] + queue;
    assert q[j + 1] == queue[j] && q[0] == current;
    HeadWalk(edges, r, paths, q);
    WalkEnds(edges, r, queue[j].nodeId, queue[j].path);
  }

  /** What was pushed before comes before the pushed walk. */
  lemma {:induction false} PushedComesLast(edges: seq<Edge>, r: Request, collate: (string, string) -> int,
                                           paths: map<string, seq<Edge>>, queue: seq<Entry>, current: Entry,
                                           outbound: seq<Edge>, i: nat, j: nat)
    requires Opened(edges, r, paths, queue, current) && EdgesOrdered(edges, collate)
    requires Leading(edges, r, collate, paths, [current] + queue)
    requires Outbound(edges, collate, current.nodeId, outbound) && i < |outbound|
    requires FromFollowed(queue, current, outbound[..i]) && j < |queue| && |queue[j].path| == |current.path| + 1
    ensures Leads(collate, queue[j].path, current.path + [outbound[i]])
  {
    hide IsWalk, Opened, EdgesOrdered, Leading, Leads, Outbound;
    var q, d := [current] + queue, |current.path|;
    var front, last := queue[j].path[..d], queue[j].path[d];
    assert queue[j].path == front + [last];
    BelowHead(edges, r, collate, paths, queue, current, j);
    if front == current.path {
      SameWalkSameEnd(edges, r, current.nodeId, last.fromId, front);
      FollowedBefore(edges, collate, current.nodeId, outbound, i, last);
    }
    LeadsByLast(collate, front, last, current.path, outbound[i]);
  }

  lemma {:induction false} FollowedBefore(edges: seq<Edge>, collate: (string, string) -> int, nodeId: string,
                                          outbound: seq<Edge>, i: nat, last: Edge)
    requires EdgesOrdered(edges, collate) && Outbound(edges, collate, nodeId, outbound) && i < |outbound|
    requires last in outbound[..i]
    ensures ByKey(collate)(last, outbound[i])
  {
    hide ByKey;
    var k :| 0 <= k < i && outbound[k] == last;
  }

  lemma CurrentLeadsItself(edges: seq<Edge>, r: Request, collate: (string, string) -> int,
                           paths: map<string, seq<Edge>>, queue: seq<Entry>, current: Entry)
    requires Opened(edges, r, paths, queue, current) && EdgesOrdered(edges, collate)
    ensures Leads(collate, current.path, current.path)
  {
    hide IsWalk, NodesOf, QueueOk, ProcessedOk, EdgesOrdered, Leads;
    WalkEdges(edges, r, current.nodeId, current.path);
    LeadsItself(collate, edges, current.path);
  }

  lemma {:induction false} ExtendedLeads(edges: seq<Edge>, r: Request, collate: (string, string) -> int,
                                         paths: map<string, seq<Edge>>, q: seq<Entry>, pushed: Entry)
    requires |q| > 0 && Leading(edges, r, collate, paths, q) && |pushed.path| == |q[0].path| + 1
    requires var after := paths[pushed.nodeId := pushed.path];
             forall v, w :: v in after && IsWalk(edges, r, v, w) && |w| == |after[v]| ==> Leads(collate, after[v], w)
    requires forall j :: 0 <= j < |q| && |q[j].path| == |pushed.path| ==> Leads(collate, q[j].path, pushed.path)
    requires Leads(collate, pushed.path[..|q[0].path|], q[0].path)
    ensures Leading(edges, r, collate, paths[pushed.nodeId := pushed.path], q + [pushed])
  {
    hide IsWalk, Leads;
  }

  /** The walks in the new order. */
  lemma {:induction false} PushKeepsLeading(edges: seq<Edge>, r: Request, collate: (string, string) -> int,
                                            paths: map<string, seq<Edge>>, queue: seq<Entry>, current: Entry,
                                            outbound: seq<Edge>, i: nat, pushed: Entry)
    requires Opened(edges, r, paths, queue, current) && current.depth < r.maxDepth && EdgesOrdered(edges, collate)
    requires Leading(edges, r, collate, paths, [current] + queue) && i < |outbound|
    requires FromFollowed(queue, current, outbound[..i]) && Outbound(edges, collate, current.nodeId, outbound)
    requires FollowedUpTo(r, paths, outbound, i) && outbound[i].toId !in paths
    requires pushed == Entry(outbound[i].toId, current.path + [outbound[i]], current.depth + 1)
    ensures Leading(edges, r, collate, paths[pushed.nodeId := pushed.path], [current] + queue + [pushed])
  {
    hide *;
    var q := [current] + queue;
    OpenedFacts(edges, r, paths, queue, current);
    PushedWalkLeads(edges, r, collate, paths, q, outbound, i);
    CurrentLeadsItself(edges, r, collate, paths, queue, current);
    forall j | 0 <= j < |q| && |q[j].path| == |pushed.path| ensures Leads(collate, q[j].path, pushed.path) {
      assert j > 0 && q[j] == queue[j - 1];
      PushedComesLast(edges, r, collate, paths, queue, current, outbound, i, j - 1);
    }
    assert pushed.path[..|current.path|] == current.path;
    ExtendedLeads(edges, r, collate, paths, q, pushed);
  }

  lemma OpenedFacts(edges: seq<Edge>, r: Request, paths: map<string, seq<Edge>>, queue: seq<Entry>, current: Entry)
    requires Opened(edges, r, paths, queue, current)
    ensures var q := [current] + queue;
            && PathsOk(edges, r, paths) && QueueOk(paths, q) && ProcessedOk(edges, r, paths, q) && q[0] == current
  {
    hide PathsOk, QueueOk, ProcessedOk;
  }

  lemma PushQueues(queue: seq<Entry>, pushed: Entry)
    ensures forall v :: Queued(queue + [pushed], v) <==> Queued(queue, v) || v == pushed.nodeId
  {
    QueuedAfterPush(queue, pushed);
  }

  lemma StaysUnopened(queue: seq<Entry>, pushed: Entry)
    requires Unopened(queue) && pushed.path != []
    requires forall v :: Queued(queue + [pushed], v) <==> Queued(queue, v) || v == pushed.nodeId
    requires forall j :: 0 <= j < |queue| && queue[j].path != [] ==>
               queue[j].path[|queue[j].path| - 1].fromId != pushed.nodeId
    requires pushed.path[|pushed.path| - 1].fromId != pushed.nodeId
    requires !Queued(queue, pushed.path[|pushed.path| - 1].fromId)
    ensures Unopened(queue + [pushed])
  {
    hide Queued;
  }

  /** The pushed node was reached from the node being expanded, and nothing was reached from it yet. */
  lemma {:induction false} PushKeepsUnopened(edges: seq<Edge>, r: Request, paths: map<string, seq<Edge>>,
                                             queue: seq<Entry>, current: Entry, outbound: seq<Edge>, i: nat)
    requires Opened(edges, r, paths, queue, current) && Unopened(queue) && i < |outbound|
    requires FromFollowed(queue, current, outbound[..i])
    requires outbound[i].toId !in paths && outbound[i].fromId == current.nodeId
    ensures var pushed := Entry(outbound[i].toId, current.path + [outbound[i]], current.depth + 1);
            Unopened(queue + [pushed]) && FromFollowed(queue + [pushed], current, outbound[..i + 1])
  {
    var pushed := Entry(outbound[i].toId, current.path + [outbound[i]], current.depth + 1);
    var q := queue + [pushed];
    assert outbound[..i + 1] == outbound[..i] + [outbound[i]];
    PushQueues(queue, pushed);
    CurrentNotQueued(paths, queue, current);
    forall j | 0 <= j < |queue| && queue[j].path != []
      ensures queue[j].path[|queue[j].path| - 1].fromId in paths
    {
      ReachedFromVisited(edges, r, paths, queue, current, j);
    }
    hide Opened, Queued, Unopened;
    StaysUnopened(queue, pushed);
  }

  lemma CurrentNotQueued(paths: map<string, seq<Edge>>, queue: seq<Entry>, current: Entry)
    requires QueueOk(paths, [current] + queue)
    ensures !Queued(queue, current.nodeId) && forall v :: Queued(queue, v) ==> v in paths
  {
    var q := [current] + queue;
    assert forall i :: 0 <= i < |queue| ==> queue[i] == q[i + 1];
  }

  lemma {:induction false} ReachedFromVisited(edges: seq<Edge>, r: Request, paths: map<string, seq<Edge>>,
                                              queue: seq<Entry>, current: Entry, j: nat)
    requires Opened(edges, r, paths, queue, current) && j < |queue| && queue[j].path != []
    ensures queue[j].path[|queue[j].path| - 1].fromId in paths
  {
    var q, w := [current] + queue, queue[j].path;
    assert q[j + 1] == queue[j];
    var last := w[|w| - 1];
    WalkEnds(edges, r, queue[j].nodeId, w);
    WalkPasses(edges, r, last.fromId, w[..|w| - 1]);
    assert forall n :: n in NodesOf(r, w) ==> n in paths;
  }

  lemma {:induction false} WalkPasses(edges: seq<Edge>, r: Request, x: string, w: seq<Edge>)
    requires IsWalk(edges, r, x, w)
    ensures x in NodesOf(r, w)
  {
  }

  lemma RankedPush(edges: seq<Edge>, r: Request, collate: (string, string) -> int, paths: map<string, seq<Edge>>,
                   queue: seq<Entry>, current: Entry, outbound: seq<Edge>, i: nat)
    requires Opened(edges, r, paths, queue, current) && current.depth < r.maxDepth && i < |outbound|
    requires RankedOpen(edges, r, collate, paths, queue, current, outbound[..i])
    requires Outbound(edges, collate, current.nodeId, outbound)
    requires FollowedUpTo(r, paths, outbound, i) && outbound[i].toId !in paths
    ensures var walk := current.path + [outbound[i]];
            RankedOpen(edges, r, collate, paths[outbound[i].toId := walk],
                       queue + [Entry(outbound[i].toId, walk, current.depth + 1)], current, outbound[..i + 1])
  {
    assert outbound[i] in outbound;
    hide Opened, EdgesOrdered, Leading, Unopened, FromFollowed, FollowedUpTo;
    if EdgesOrdered(edges, collate) {
      var pushed := Entry(outbound[i].toId, current.path + [outbound[i]], current.depth + 1);
      PushKeepsLeading(edges, r, collate, paths, queue, current, outbound, i, pushed);
      assert [current] + (queue + [pushed]) == [current] + queue + [pushed];
      PushKeepsUnopened(edges, r, paths, queue, current, outbound, i);
    }
  }

  lemma RankedSkip(edges: seq<Edge>, r: Request, collate: (string, string) -> int, paths: map<string, seq<Edge>>,
                   queue: seq<Entry>, current: Entry, outbound: seq<Edge>, i: nat)
    requires i < |outbound| && RankedOpen(edges, r, collate, paths, queue, current, outbound[..i])
    ensures RankedOpen(edges, r, collate, paths, queue, current, outbound[..i + 1])
  {
    hide EdgesOrdered, Leading, Unopened;
    assert outbound[..i + 1] == outbound[..i] + [outbound[i]];
  }

  /** Two levels in the rest of the queue leave the first of them to the node taken off. */
  lemma {:induction false} SameLevel(edges: seq<Edge>, r: Request, paths: map<string, seq<Edge>>, queue: seq<Entry>,
                                     current: Entry, j: nat)
    requires Opened(edges, r, paths, queue, current) && j < |queue| && |queue[j].path| == |queue[0].path| + 1
    ensures |queue[0].path| == |current.path|
    ensures Among(edges, current.path) && Among(edges, queue[0].path)
    ensures Among(edges, queue[j].path[..|queue[0].path|])
  {
    var q := [current] + queue;
    assert q[j + 1] == queue[j] && q[1] == queue[0] && q[0] == current;
    HeadWalk(edges, r, paths, q);
    hide IsWalk, PathsOk, ProcessedOk;
    WalkEdges(edges, r, queue[j].nodeId, queue[j].path);
    WalkEdges(edges, r, queue[0].nodeId, queue[0].path);
    WalkEdges(edges, r, current.nodeId, current.path);
    var front := queue[j].path[..|queue[0].path|];
    assert forall e :: e in front ==> e in queue[j].path;
    assert q[j + 1].nodeId in paths && |queue[j].path| <= q[0].depth + 1 && q[0].depth <= q[1].depth;
  }

  /** The next node of the queue takes the lead. */
  lemma {:induction false} ShiftKeepsLeading(edges: seq<Edge>, r: Request, collate: (string, string) -> int,
                                             paths: map<string, seq<Edge>>, queue: seq<Entry>, current: Entry)
    requires Opened(edges, r, paths, queue, current) && EdgesOrdered(edges, collate)
    requires Leading(edges, r, collate, paths, [current] + queue)
    ensures Leading(edges, r, collate, paths, queue)
  {
    hide IsWalk, Leads, Opened, EdgesOrdered;
    var q := [current] + queue;
    forall i | 0 <= i < |queue| ensures queue[i] == q[i + 1] {
    }
    forall j | 0 <= j < |queue| && |queue[j].path| == |queue[0].path| + 1
      ensures Leads(collate, queue[j].path[..|queue[0].path|], queue[0].path)
    {
      SameLevel(edges, r, paths, queue, current, j);
      BelowHead(edges, r, collate, paths, queue, current, j);
      LeadsOn(collate, edges, queue[j].path[..|queue[0].path|], current.path, queue[0].path);
    }
  }

  lemma RankedCloses(edges: seq<Edge>, r: Request, collate: (string, string) -> int, paths: map<string, seq<Edge>>,
                     queue: seq<Entry>, current: Entry, followed: seq<Edge>)
    requires Opened(edges, r, paths, queue, current)
    requires RankedOpen(edges, r, collate, paths, queue, current, followed)
    ensures RankedQueue(edges, r, collate, paths, queue)
  {
    hide Opened, EdgesOrdered, Leading, Unopened, FromFollowed;
    if EdgesOrdered(edges, collate) {
      ShiftKeepsLeading(edges, r, collate, paths, queue, current);
    }
  }

  /** Follow the allowed edges of the node taken off the queue. */
  method Expand(edges: seq<Edge>, r: Request, ghost collate: (string, string) -> int, outbound: seq<Edge>,
                current: Entry, visited0: seq<string>, queue0: seq<Entry>,
                ghost paths0: map<string, seq<Edge>>, ghost universe: set<string>)
    returns (visited: seq<string>, queue: seq<Entry>, ghost paths: map<string, seq<Edge>>)
    requires Opened(edges, r, paths0, queue0, current) && current.depth < r.maxDepth
    requires Outbound(edges, collate, current.nodeId, outbound)
    requires RankedOpen(edges, r, collate, paths0, queue0, current, [])
    requires forall e :: e in edges ==> e.toId in universe
    requires NoDuplicates(visited0) && forall v :: v in visited0 <==> v in paths0
    ensures Opened(edges, r, paths, queue, current)
    ensures Expanded(edges, r, paths, current.nodeId)
    ensures RankedOpen(edges, r, collate, paths, queue, current, outbound)
    ensures NoDuplicates(visited) && forall v :: v in visited <==> v in paths
    ensures Work(universe, paths.Keys, queue) == Work(universe, paths0.Keys, queue0)
  {
    hide PathsOk, QueueOk, ProcessedOk, RankedOpen;
    assert outbound[..0] == [];
    visited, queue, paths := visited0, queue0, paths0;
    for i := 0 to |outbound|
      invariant Opened(edges, r, paths, queue, current)
      invariant NoDuplicates(visited) && forall v :: v in visited <==> v in paths
      invariant forall k :: 0 <= k < i && outbound[k].kind in r.allowedKinds ==>
                  Followed(paths, current.nodeId, outbound[k])
      invariant RankedOpen(edges, r, collate, paths, queue, current, outbound[..i])
      invariant Work(universe, paths.Keys, queue) == Work(universe, paths0.Keys, queue0)
    {
      var edge := outbound[i];
      assert edge in outbound;
      RankedStep(edges, r, collate, paths, queue, current, outbound, i);
      if edge.kind in r.allowedKinds {
        if edge.toId in visited {
          VisitedNearby(edges, r, paths, queue, current, edge.toId);
        } else {
          PushKeepsOpened(edges, r, paths, queue, current, edge);
          var pushed := Entry(edge.toId, current.path + [edge], current.depth + 1);
          WorkOfPush(universe, paths.Keys, queue, pushed);
          assert (paths[edge.toId := pushed.path]).Keys == paths.Keys + {edge.toId};
          visited := visited + [edge.toId];
          queue := queue + [pushed];
          paths := paths[edge.toId := pushed.path];
        }
      }
    }
    assert outbound[..|outbound|] == outbound;
  }

  /** The next edge is skipped, or leads to a new node. */
  lemma RankedStep(edges: seq<Edge>, r: Request, collate: (string, string) -> int, paths: map<string, seq<Edge>>,
                   queue: seq<Entry>, current: Entry, outbound: seq<Edge>, i: nat)
    requires Opened(edges, r, paths, queue, current) && current.depth < r.maxDepth && i < |outbound|
    requires RankedOpen(edges, r, collate, paths, queue, current, outbound[..i])
    requires Outbound(edges, collate, current.nodeId, outbound)
    requires forall k :: 0 <= k < i && outbound[k].kind in r.allowedKinds ==>
                           Followed(paths, current.nodeId, outbound[k])
    ensures RankedOpen(edges, r, collate, paths, queue, current, outbound[..i + 1])
    ensures outbound[i].toId !in paths ==>
              var walk := current.path + [outbound[i]];
              RankedOpen(edges, r, collate, paths[outbound[i].toId := walk],
                         queue + [Entry(outbound[i].toId, walk, current.depth + 1)], current, outbound[..i + 1])
  {
    hide Opened, RankedOpen, Outbound;
    RankedSkip(edges, r, collate, paths, queue, current, outbound, i);
    if outbound[i].toId !in paths {
      RankedPush(edges, r, collate, paths, queue, current, outbound, i);
    }
  }

  /** While a node is expanded no visited node lies more than one level below it. */
  lemma VisitedNearby(edges: seq<Edge>, r: Request, paths: map<string, seq<Edge>>, queue: seq<Entry>,
                      current: Entry, x: string)
    requires Opened(edges, r, paths, queue, current) && x in paths
    ensures |paths[x]| <= current.depth + 1
  {
    assert ([current] + queue)[0] == current;
  }

  lemma {:induction false} OutboundSorted(edges: seq<Edge>, collate: (string, string) -> int, nodeId: string,
                                          bucket: seq<Edge>)
    requires forall e :: e in bucket <==> e in edges && e.fromId == nodeId
    ensures Outbound(edges, collate, nodeId, SortBy(bucket, ByKey(collate)))
  {
    hide PreorderOn, Sorted;
    SortByFacts(bucket, ByKey(collate));
    if EdgesOrdered(edges, collate) {
      SortBySorts(bucket, ByKey(collate), set e | e in edges);
    }
  }

  /** One iteration of the search for a node that is not the target. */
  method Visit(edges: seq<Edge>, r: Request, collate: (string, string) -> int, adjacency: map<string, seq<Edge>>,
               current: Entry, visited0: seq<string>, queue0: seq<Entry>,
               ghost paths0: map<string, seq<Edge>>, ghost universe: set<string>)
    returns (visited: seq<string>, queue: seq<Entry>, ghost paths: map<string, seq<Edge>>)
    requires Opened(edges, r, paths0, queue0, current) && current.nodeId != r.targetNodeId
    requires RankedOpen(edges, r, collate, paths0, queue0, current, [])
    requires Indexes(adjacency, edges)
    requires forall e :: e in edges ==> e.toId in universe
    requires NoDuplicates(visited0) && forall v :: v in visited0 <==> v in paths0
    ensures PathsOk(edges, r, paths) && QueueOk(paths, queue) && ProcessedOk(edges, r, paths, queue)
    ensures RankedQueue(edges, r, collate, paths, queue)
    ensures NoDuplicates(visited) && forall v :: v in visited <==> v in paths
    ensures Work(universe, paths.Keys, queue) == Work(universe, paths0.Keys, queue0)
  {
    hide *;
    ghost var followed: seq<Edge> := [];
    visited, queue, paths := visited0, queue0, paths0;
    OpenedPaths(edges, r, paths, queue, current);
    if current.depth < r.maxDepth {
      var bucket := Bucket(adjacency, current.nodeId);
      var outbound := SortBy(bucket, ByKey(collate));
      BucketFacts(adjacency, edges, current.nodeId);
      OutboundSorted(edges, collate, current.nodeId, bucket);
      visited, queue, paths := Expand(edges, r, collate, outbound, current, visited, queue, paths, universe);
      followed := outbound;
      OpenedPaths(edges, r, paths, queue, current);
    }
    RankedCloses(edges, r, collate, paths, queue, current, followed);
    CloseNode(edges, r, paths, queue, current);
  }

  /** A correct bounded breadth-first search; of all shortest walks it finds the one that leads the others. */
  method TracePath(edges: seq<Edge>, r: Request, collate: (string, string) -> int) returns (result: Result)
    ensures NoDuplicates(result.visitedNodeIds)
    ensures result.found ==>
              && IsWalk(edges, r, r.targetNodeId, result.path)
              && |result.path| <= Bound(r)
              && NoDuplicates(NodesOf(r, result.path))
              && (forall w :: IsWalk(edges, r, r.targetNodeId, w) ==> |result.path| <= |w|)
              && (EdgesOrdered(edges, collate) ==>
                    forall w :: IsWalk(edges, r, r.targetNodeId, w) && |w| == |result.path| ==>
                                  Leads(collate, result.path, w))
              && (forall x, w :: IsWalk(edges, r, x, w) && |w| < |result.path| ==> x in result.visitedNodeIds)
              && (forall x :: x in result.visitedNodeIds ==> ReachedWithin(edges, r, x, |result.path| + 1))
    ensures forall x :: x in result.visitedNodeIds ==> ReachedWithin(edges, r, x, Bound(r))
    ensures !result.found ==>
              && result.path == []
              && (forall w :: IsWalk(edges, r, r.targetNodeId, w) ==> |w| > Bound(r))
              && forall x :: x in result.visitedNodeIds <==> exists w :: IsWalk(edges, r, x, w) && |w| <= Bound(r)
  {
    hide *;
    var adjacency := BuildAdjacencyIndex(edges, collate);
    var queue := [Entry(r.startNodeId, [], 0)];
    var visited := [r.startNodeId];
    ghost var paths := map[r.startNodeId := []];
    ghost var universe := {r.startNodeId} + set e | e in edges :: e.toId;
    SearchStarts(edges, r);
    RankedStarts(edges, r, collate);
    while |queue| > 0
      invariant PathsOk(edges, r, paths) && QueueOk(paths, queue) && ProcessedOk(edges, r, paths, queue)
      invariant RankedQueue(edges, r, collate, paths, queue)
      invariant NoDuplicates(visited) && forall v :: v in visited <==> v in paths
      decreases Work(universe, paths.Keys, queue)
    {
      var current := queue[0];
      HeadFacts(edges, r, paths, queue);
      if current.nodeId == r.targetNodeId {
        forall w | IsWalk(edges, r, r.targetNodeId, w) ensures |current.path| <= |w| {
          HeadIsShortest(edges, r, paths, queue, w);
        }
        if EdgesOrdered(edges, collate) {
          forall w | IsWalk(edges, r, r.targetNodeId, w) && |w| == |current.path|
            ensures Leads(collate, current.path, w)
          {
            HeadLeads(edges, r, collate, paths, queue, w);
          }
        }
        VisitedWhenFound(edges, r, paths, queue);
        return Result(true, visited, current.path);
      }
      WorkOfShift(universe, paths.Keys, queue);
      RankedOpens(edges, r, collate, paths, queue);
      visited, queue, paths :=
        Visit(edges, r, collate, adjacency, current, visited, queue[1..], paths, universe);
    }
    assert queue == [];
    ExhaustedIsComplete(edges, r, paths);
    VisitedAreReached(edges, r, paths);
    result := Result(false, visited, []);
  }

  lemma {:induction false} HeadLeads(edges: seq<Edge>, r: Request, collate: (string, string) -> int,
                                     paths: map<string, seq<Edge>>, queue: seq<Entry>, w: seq<Edge>)
    requires PathsOk(edges, r, paths) && QueueOk(paths, queue) && RankedQueue(edges, r, collate, paths, queue)
    requires EdgesOrdered(edges, collate) && |queue| > 0
    requires IsWalk(edges, r, queue[0].nodeId, w) && |w| == |queue[0].path|
    ensures Leads(collate, queue[0].path, w)
  {
    hide IsWalk, Leads, EdgesOrdered;
    HeadWalk(edges, r, paths, queue);
    FoundLeads(edges, r, collate, paths, queue, queue[0].nodeId, w);
  }

  lemma SearchStarts(edges: seq<Edge>, r: Request)
    ensures var paths: map<string, seq<Edge>> := map[r.startNodeId := []];
            var queue := [Entry(r.startNodeId, [], 0)];
            PathsOk(edges, r, paths) && QueueOk(paths, queue) && ProcessedOk(edges, r, paths, queue)
    ensures NoDuplicates([r.startNodeId])
  {
    assert [Entry(r.startNodeId, [], 0)][0].nodeId == r.startNodeId;
  }

  lemma WorkOfShift(universe: set<string>, visited: set<string>, queue: seq<Entry>)
    requires |queue| > 0
    ensures Work(universe, visited, queue[1..]) < Work(universe, visited, queue)
  {
  }

  lemma OpenedPaths(edges: seq<Edge>, r: Request, paths: map<string, seq<Edge>>, queue: seq<Entry>, current: Entry)
    requires Opened(edges, r, paths, queue, current)
    ensures PathsOk(edges, r, paths)
    ensures current.depth >= r.maxDepth ==> Expanded(edges, r, paths, current.nodeId)
  {
  }

  lemma {:induction false} HeadFacts(edges: seq<Edge>, r: Request, paths: map<string, seq<Edge>>, queue: seq<Entry>)
    requires PathsOk(edges, r, paths) && QueueOk(paths, queue) && ProcessedOk(edges, r, paths, queue)
    requires |queue| > 0
    ensures Opened(edges, r, paths, queue[1..], queue[0])
    ensures IsWalk(edges, r, queue[0].nodeId, queue[0].path) && queue[0].depth == |queue[0].path| <= Bound(r)
    ensures NoDuplicates(NodesOf(r, queue[0].path))
  {
    assert [queue[0]] + queue[1..] == queue;
  }
}
