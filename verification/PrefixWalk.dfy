/** The stack walk that builds the prefix forest, without a visited set: what it returns and when it ends. */
module PrefixWalk {
  import opened Wrappers
  import opened Sorting
  import opened InventoryModel
  import opened PrefixHierarchy
  import opened PrefixForest

  // ----- the walk over the stack

  ghost predicate ParentVisited(nodes: map<string, Node>, p: Prefix) {
    Truthy(p.parentPrefixId) ==> p.parentPrefixId.value in nodes
  }

  ghost predicate Pending(prefixes: seq<Prefix>, nodes: map<string, Node>, e: Entry) {
    && e.prefix in prefixes && e.prefix.id !in nodes
    && ChainLength(prefixes, e.prefix, e.depth)
    && ParentVisited(nodes, e.prefix)
  }

  ghost predicate DistinctEntries(stack: seq<Entry>) {
    forall i, j :: 0 <= i < j < |stack| ==> stack[i].prefix.id != stack[j].prefix.id
  }

  ghost predicate OnStack(stack: seq<Entry>, p: Prefix) {
    exists i :: 0 <= i < |stack| && stack[i].prefix == p
  }

  /** Every prefix whose parent has been visited is itself visited or waiting. */
  ghost predicate Covered(prefixes: seq<Prefix>, nodes: map<string, Node>, stack: seq<Entry>) {
    forall p :: p in prefixes && (!Truthy(p.parentPrefixId) || p.parentPrefixId.value in nodes) ==>
      p.id in nodes || OnStack(stack, p)
  }

  ghost predicate WalkInvariant(prefixes: seq<Prefix>, ordered: seq<Prefix>, before: (Prefix, Prefix) -> bool,
                                nodes: map<string, Node>, stack: seq<Entry>) {
    && (forall id :: id in nodes ==> NodeOk(prefixes, ordered, before, id, nodes[id]))
    && (forall id :: id in nodes ==> ParentVisited(nodes, nodes[id].prefix))
    && (forall i :: 0 <= i < |stack| ==> Pending(prefixes, nodes, stack[i]))
    && DistinctEntries(stack)
    && Covered(prefixes, nodes, stack)
  }

  lemma {:induction false} RootFacts(prefixes: seq<Prefix>, before: (Prefix, Prefix) -> bool)
    requires UniquePrefixes(prefixes)
    ensures var ordered := SortBy(prefixes, before); var roots := RootsAmong(ordered, |ordered|);
            && UniquePrefixes(roots)
            && forall p :: p in roots <==> p in prefixes && !Truthy(p.parentPrefixId)
  {
    var ordered := SortBy(prefixes, before);
    SortedStaysUnique(prefixes, before);
    RootsFacts(ordered, |ordered|);
    assert ordered[..|ordered|] == ordered;
  }

  lemma {:induction false} WalkStarts(prefixes: seq<Prefix>, before: (Prefix, Prefix) -> bool)
    requires UniquePrefixes(prefixes)
    ensures var ordered := SortBy(prefixes, before);
            WalkInvariant(prefixes, ordered, before, map[], Pushed(RootsAmong(ordered, |ordered|), 0))
  {
    hide SortBy, RootsAmong, NodeOk;
    var ordered := SortBy(prefixes, before);
    var roots := RootsAmong(ordered, |ordered|);
    RootFacts(prefixes, before);
    var stack := Pushed(roots, 0);
    forall i | 0 <= i < |stack| ensures Pending(prefixes, map[], stack[i]) {
      assert roots[|roots| - 1 - i] in roots;
    }
    forall p | p in prefixes && !Truthy(p.parentPrefixId) ensures OnStack(stack, p) {
      var k :| 0 <= k < |roots| && roots[k] == p;
      assert stack[|roots| - 1 - k].prefix == p;
    }
  }

  function NodesAfter(nodes: map<string, Node>, e: Entry, children: seq<Prefix>): map<string, Node> {
    nodes[e.prefix.id := Node(e.prefix, e.depth, Ids(children))]
  }

  function StackAfter(stack: seq<Entry>, children: seq<Prefix>): seq<Entry>
    requires |stack| > 0
  {
    stack[..|stack| - 1] + Pushed(children, stack[|stack| - 1].depth + 1)
  }

  ghost predicate AreChildren(prefixes: seq<Prefix>, id: string, children: seq<Prefix>) {
    UniquePrefixes(children) && forall p :: p in children <==> p in prefixes && IsChildOf(p, id)
  }

  lemma StepPending(prefixes: seq<Prefix>, ordered: seq<Prefix>, before: (Prefix, Prefix) -> bool,
                    nodes: map<string, Node>, stack: seq<Entry>, children: seq<Prefix>, i: nat)
    requires UniquePrefixes(prefixes) && |stack| > 0
    requires WalkInvariant(prefixes, ordered, before, nodes, stack)
    requires AreChildren(prefixes, stack[|stack| - 1].prefix.id, children)
    requires i < |StackAfter(stack, children)|
    ensures Pending(prefixes, NodesAfter(nodes, stack[|stack| - 1], children), StackAfter(stack, children)[i])
  {
    hide NodeOk;
    hide ChainLength;
    hide Covered;
    if i < |stack| - 1 {
      assert Pending(prefixes, nodes, stack[i]);
    } else {
      var child := children[|children| - 1 - (i - (|stack| - 1))];
      assert StackAfter(stack, children)[i].prefix == child && child in children;
      ChildNotVisited(prefixes, ordered, before, nodes, stack, child);
    }
  }

  lemma StepDistinct(prefixes: seq<Prefix>, ordered: seq<Prefix>, before: (Prefix, Prefix) -> bool,
                     nodes: map<string, Node>, stack: seq<Entry>, children: seq<Prefix>)
    requires UniquePrefixes(prefixes) && |stack| > 0
    requires WalkInvariant(prefixes, ordered, before, nodes, stack)
    requires AreChildren(prefixes, stack[|stack| - 1].prefix.id, children)
    ensures DistinctEntries(StackAfter(stack, children))
  {
    hide NodeOk;
    hide Covered;
    var current, stack' := stack[|stack| - 1], StackAfter(stack, children);
    assert Pending(prefixes, nodes, current);
    PrefixIndexUnique(prefixes);
    forall i, j | 0 <= i < j < |stack'| ensures stack'[i].prefix.id != stack'[j].prefix.id {
      if j >= |stack| - 1 > i {
        assert Pending(prefixes, nodes, stack[i]);
        assert stack'[j].prefix in children;
      }
    }
  }

  lemma StepCovered(prefixes: seq<Prefix>, nodes: map<string, Node>, stack: seq<Entry>, children: seq<Prefix>)
    requires |stack| > 0 && Covered(prefixes, nodes, stack)
    requires AreChildren(prefixes, stack[|stack| - 1].prefix.id, children)
    ensures Covered(prefixes, NodesAfter(nodes, stack[|stack| - 1], children), StackAfter(stack, children))
  {
    hide UniquePrefixes;
    var current, stack' := stack[|stack| - 1], StackAfter(stack, children);
    var nodes' := NodesAfter(nodes, current, children);
    forall p | p in prefixes && (!Truthy(p.parentPrefixId) || p.parentPrefixId.value in nodes')
      ensures p.id in nodes' || OnStack(stack', p)
    {
      if IsChildOf(p, current.prefix.id) {
        var k :| 0 <= k < |children| && children[k] == p;
        assert stack'[|stack| - 1 + (|children| - 1 - k)].prefix == p;
      } else if p.id !in nodes' {
        var k :| 0 <= k < |stack| && stack[k].prefix == p;
        assert stack'[k].prefix == p;
      }
    }
  }

  /** One step of the walk: the popped prefix becomes a node and its children are pushed. */
  lemma {:induction false} WalkSteps(prefixes: seq<Prefix>, ordered: seq<Prefix>, before: (Prefix, Prefix) -> bool,
                  nodes: map<string, Node>, stack: seq<Entry>, children: seq<Prefix>)
    requires UniquePrefixes(prefixes) && |stack| > 0 && ordered == SortBy(prefixes, before)
    requires WalkInvariant(prefixes, ordered, before, nodes, stack)
    requires children == ChildrenAmong(ordered, |ordered|, stack[|stack| - 1].prefix.id, before)
    ensures WalkInvariant(prefixes, ordered, before,
                          NodesAfter(nodes, stack[|stack| - 1], children), StackAfter(stack, children))
    ensures stack[|stack| - 1].prefix in prefixes && stack[|stack| - 1].prefix.id !in nodes
  {
    hide ChildrenAmong;
    hide DistinctEntries;
    hide Covered;
    hide ChainLength;
    var current := stack[|stack| - 1];
    DeclaredChildren(prefixes, current.prefix.id, before);
    assert Pending(prefixes, nodes, current);
    forall i | 0 <= i < |StackAfter(stack, children)|
      ensures Pending(prefixes, NodesAfter(nodes, current, children), StackAfter(stack, children)[i])
    {
      StepPending(prefixes, ordered, before, nodes, stack, children, i);
    }
    StepDistinct(prefixes, ordered, before, nodes, stack, children);
    StepCovered(prefixes, nodes, stack, children);
  }

  lemma {:induction false} NotItsOwnParent(prefixes: seq<Prefix>, p: Prefix, n: nat)
    requires UniquePrefixes(prefixes) && p in prefixes && ChainLength(prefixes, p, n)
    ensures !IsChildOf(p, p.id)
  {
    var shorter: nat := if n > 0 then n - 1 else 0;
    PrefixIndexUnique(prefixes);
    if IsChildOf(p, p.id) {
      ChainLengthUnique(prefixes, p, n, shorter);
    }
  }

  lemma VisitedParent(prefixes: seq<Prefix>, ordered: seq<Prefix>, before: (Prefix, Prefix) -> bool,
                      nodes: map<string, Node>, stack: seq<Entry>, p: Prefix)
    requires UniquePrefixes(prefixes) && WalkInvariant(prefixes, ordered, before, nodes, stack)
    requires p in prefixes && p.id in nodes
    ensures ParentVisited(nodes, p)
  {
    PrefixIndexUnique(prefixes);
    assert NodeOk(prefixes, ordered, before, p.id, nodes[p.id]);
  }

  /** A child of the prefix on top of the stack has not been visited, and is not that prefix. */
  lemma {:induction false} ChildNotVisited(prefixes: seq<Prefix>, ordered: seq<Prefix>,
                                           before: (Prefix, Prefix) -> bool,
                        nodes: map<string, Node>, stack: seq<Entry>, child: Prefix)
    requires UniquePrefixes(prefixes) && |stack| > 0
    requires WalkInvariant(prefixes, ordered, before, nodes, stack)
    requires child in prefixes && IsChildOf(child, stack[|stack| - 1].prefix.id)
    ensures child.id !in nodes && child.id != stack[|stack| - 1].prefix.id
    ensures ChainLength(prefixes, child, stack[|stack| - 1].depth + 1)
  {
    hide NodeOk;
    hide Covered;
    hide DistinctEntries;
    var current := stack[|stack| - 1];
    assert Pending(prefixes, nodes, current);
    PrefixIndexUnique(prefixes);
    NotItsOwnParent(prefixes, current.prefix, current.depth);
    if child.id in nodes {
      VisitedParent(prefixes, ordered, before, nodes, stack, child);
    }
  }

  /** When the stack is empty every prefix whose chain reaches a root has been visited. */
  lemma {:induction false} WalkEnds(prefixes: seq<Prefix>, ordered: seq<Prefix>, before: (Prefix, Prefix) -> bool,
                                    nodes: map<string, Node>, p: Prefix, n: nat)
    requires WalkInvariant(prefixes, ordered, before, nodes, [])
    requires p in prefixes && ChainLength(prefixes, p, n)
    ensures p.id in nodes
    decreases n
  {
    hide NodeOk;
    if n > 0 {
      WalkEnds(prefixes, ordered, before, nodes, PrefixIndex(prefixes)[p.parentPrefixId.value], n - 1);
    }
  }

  lemma {:induction false} WalkResult(prefixes: seq<Prefix>, before: (Prefix, Prefix) -> bool, nodes: map<string, Node>)
    requires WalkInvariant(prefixes, SortBy(prefixes, before), before, nodes, [])
    ensures forall p :: p in prefixes && ReachesRoot(prefixes, p) ==> p.id in nodes
  {
    forall p | p in prefixes && ReachesRoot(prefixes, p) ensures p.id in nodes {
      var n: nat :| ChainLength(prefixes, p, n);
      WalkEnds(prefixes, SortBy(prefixes, before), before, nodes, p, n);
    }
  }

  // ----- when the walk ends, on any list

  /** The children as the grouping leaves them. */
  function Kids(prefixes: seq<Prefix>, before: (Prefix, Prefix) -> bool, id: string): seq<Prefix> {
    var ordered := SortBy(prefixes, before);
    ChildrenAmong(ordered, |ordered|, id, before)
  }

  lemma KidsFacts(prefixes: seq<Prefix>, before: (Prefix, Prefix) -> bool, id: string)
    ensures forall p :: p in Kids(prefixes, before, id) <==> p in prefixes && IsChildOf(p, id)
  {
    var ordered := SortBy(prefixes, before);
    SortByFacts(prefixes, before);
    ChildrenFacts(ordered, |ordered|, id, before);
    assert ordered[..|ordered|] == ordered;
  }

  function FirstStack(prefixes: seq<Prefix>, before: (Prefix, Prefix) -> bool): seq<Entry> {
    var ordered := SortBy(prefixes, before);
    Pushed(RootsAmong(ordered, |ordered|), 0)
  }

  /** The stack after `k` iterations of the loop. */
  function Popped(prefixes: seq<Prefix>, before: (Prefix, Prefix) -> bool, stack: seq<Entry>, k: nat): seq<Entry> {
    if k == 0 then stack
    else
      var s := Popped(prefixes, before, stack, k - 1);
      if s == [] then [] else StackAfter(s, Kids(prefixes, before, s[|s| - 1].prefix.id))
  }

  ghost predicate StackRunsOut(prefixes: seq<Prefix>, before: (Prefix, Prefix) -> bool) {
    exists k: nat :: Popped(prefixes, before, FirstStack(prefixes, before), k) == []
  }

  ghost predicate HasChildIn(prefixes: seq<Prefix>, id: string, ids: set<string>) {
    exists c :: c in prefixes && IsChildOf(c, id) && c.id in ids
  }

  /** A root's id is among the ids, and each of the ids has a child whose id is among them too: from
      that root declared children go round in a circle. */
  ghost predicate Circle(prefixes: seq<Prefix>, ids: set<string>) {
    && (exists r :: r in prefixes && !Truthy(r.parentPrefixId) && r.id in ids)
    && forall id :: id in ids ==> HasChildIn(prefixes, id, ids)
  }

  ghost predicate HoldsOne(stack: seq<Entry>, ids: set<string>) {
    exists i :: 0 <= i < |stack| && stack[i].prefix.id in ids
  }

  lemma RootsOnStack(prefixes: seq<Prefix>, before: (Prefix, Prefix) -> bool, p: Prefix)
    ensures (exists i :: 0 <= i < |FirstStack(prefixes, before)| && FirstStack(prefixes, before)[i].prefix == p) <==>
            p in prefixes && !Truthy(p.parentPrefixId)
  {
    var ordered := SortBy(prefixes, before);
    SortByFacts(prefixes, before);
    RootsFacts(ordered, |ordered|);
    assert ordered[..|ordered|] == ordered;
    var roots := RootsAmong(ordered, |ordered|);
    if p in roots {
      var i :| 0 <= i < |roots| && roots[i] == p;
      assert FirstStack(prefixes, before)[|roots| - 1 - i].prefix == p;
    }
  }

  /** A circle never leaves the stack: popping one of its ids pushes another. */
  lemma {:induction false} CircleStays(prefixes: seq<Prefix>, before: (Prefix, Prefix) -> bool, ids: set<string>,
                                       k: nat)
    requires Circle(prefixes, ids)
    ensures HoldsOne(Popped(prefixes, before, FirstStack(prefixes, before), k), ids)
  {
    hide FirstStack, Kids;
    var start := FirstStack(prefixes, before);
    if k == 0 {
      var r :| r in prefixes && !Truthy(r.parentPrefixId) && r.id in ids;
      RootsOnStack(prefixes, before, r);
    } else {
      CircleStays(prefixes, before, ids, k - 1);
      var s := Popped(prefixes, before, start, k - 1);
      CirclePopped(prefixes, before, ids, s);
    }
  }

  lemma PushedOne(s: seq<Entry>, kids: seq<Prefix>, c: Prefix, ids: set<string>)
    requires s != [] && c in kids && c.id in ids
    ensures HoldsOne(StackAfter(s, kids), ids)
  {
    var j :| 0 <= j < |kids| && kids[j] == c;
    assert StackAfter(s, kids)[|s| - 1 + |kids| - 1 - j].prefix == c;
  }

  lemma KeptOne(s: seq<Entry>, kids: seq<Prefix>, ids: set<string>)
    requires HoldsOne(s, ids) && s[|s| - 1].prefix.id !in ids
    ensures HoldsOne(StackAfter(s, kids), ids)
  {
    var i :| 0 <= i < |s| && s[i].prefix.id in ids;
    assert StackAfter(s, kids)[i] == s[i];
  }

  lemma CirclePopped(prefixes: seq<Prefix>, before: (Prefix, Prefix) -> bool, ids: set<string>, s: seq<Entry>)
    requires Circle(prefixes, ids) && HoldsOne(s, ids)
    ensures s != [] && HoldsOne(StackAfter(s, Kids(prefixes, before, s[|s| - 1].prefix.id)), ids)
  {
    var top := s[|s| - 1].prefix;
    assert top.id in ids ==> HasChildIn(prefixes, top.id, ids);
    hide Kids, StackAfter, HoldsOne, Circle, IsChildOf;
    KidsFacts(prefixes, before, top.id);
    if top.id in ids {
      var c :| c in prefixes && IsChildOf(c, top.id) && c.id in ids;
      PushedOne(s, Kids(prefixes, before, top.id), c, ids);
    } else {
      KeptOne(s, Kids(prefixes, before, top.id), ids);
    }
  }

  /** Every chain of declared children from the id has fewer than `n` steps. */
  ghost predicate Bounded(prefixes: seq<Prefix>, id: string, n: nat)
    decreases n
  {
    n > 0 && forall c :: c in prefixes && IsChildOf(c, id) ==> Bounded(prefixes, c.id, n - 1)
  }

  lemma {:induction false} BoundedLonger(prefixes: seq<Prefix>, id: string, m: nat, n: nat)
    requires Bounded(prefixes, id, m) && m <= n
    ensures Bounded(prefixes, id, n)
    decreases n
  {
    forall c | c in prefixes && IsChildOf(c, id) ensures Bounded(prefixes, c.id, n - 1) {
      BoundedLonger(prefixes, c.id, m - 1, n - 1);
    }
  }

  ghost predicate IsBounded(prefixes: seq<Prefix>, id: string) {
    exists n: nat :: Bounded(prefixes, id, n)
  }

  /** Finitely many bounds have a common one. */
  lemma {:induction false} CommonBound(prefixes: seq<Prefix>, some: seq<Prefix>) returns (n: nat)
    requires forall p :: p in some ==> IsBounded(prefixes, p.id)
    ensures forall p :: p in some ==> Bounded(prefixes, p.id, n)
    decreases |some|
  {
    if some == [] {
      n := 0;
    } else {
      var front, last := some[..|some| - 1], some[|some| - 1];
      assert last in some;
      var a := CommonBound(prefixes, front);
      var b: nat :| Bounded(prefixes, last.id, b);
      n := if a <= b then b else a;
      forall p | p in some ensures Bounded(prefixes, p.id, n) {
        if p in front {
          BoundedLonger(prefixes, p.id, a, n);
        } else {
          BoundedLonger(prefixes, p.id, b, n);
        }
      }
    }
  }

  /** An id without a bound has a child without one. */
  lemma UnboundedHasChild(prefixes: seq<Prefix>, id: string) returns (c: Prefix)
    requires !IsBounded(prefixes, id)
    ensures c in prefixes && IsChildOf(c, id) && !IsBounded(prefixes, c.id)
  {
    hide Bounded;
    if forall c :: c in prefixes && IsChildOf(c, id) ==> IsBounded(prefixes, c.id) {
      BoundedFromChildren(prefixes, id);
    }
    c :| c in prefixes && IsChildOf(c, id) && !IsBounded(prefixes, c.id);
  }

  lemma BoundedFromChildren(prefixes: seq<Prefix>, id: string)
    requires forall c :: c in prefixes && IsChildOf(c, id) ==> IsBounded(prefixes, c.id)
    ensures IsBounded(prefixes, id)
  {
    var kids := Kids(prefixes, (p: Prefix, q: Prefix) => true, id);
    KidsFacts(prefixes, (p: Prefix, q: Prefix) => true, id);
    hide Kids;
    var n := CommonBound(prefixes, kids);
    assert Bounded(prefixes, id, n + 1);
  }

  /** From a root without a bound children lead round in a circle. */
  lemma UnboundedRootCircles(prefixes: seq<Prefix>, r: Prefix)
    requires r in prefixes && !Truthy(r.parentPrefixId) && !IsBounded(prefixes, r.id)
    ensures exists ids :: Circle(prefixes, ids)
  {
    hide IsBounded;
    var ids := set p | p in prefixes && !IsBounded(prefixes, p.id) :: p.id;
    forall id | id in ids ensures HasChildIn(prefixes, id, ids) {
      var c := UnboundedHasChild(prefixes, id);
    }
    assert Circle(prefixes, ids);
  }

  lemma {:induction false} PoppedOn(prefixes: seq<Prefix>, before: (Prefix, Prefix) -> bool, stack: seq<Entry>,
                                    j: nat, k: nat)
    ensures Popped(prefixes, before, stack, j + k)
         == Popped(prefixes, before, Popped(prefixes, before, stack, j), k)
    decreases k
  {
    if k > 0 {
      PoppedOn(prefixes, before, stack, j, k - 1);
    }
  }

  lemma {:induction false} PopNone(prefixes: seq<Prefix>, before: (Prefix, Prefix) -> bool, first: seq<Entry>)
    ensures Popped(prefixes, before, first, 0) == first
  {
  }

  lemma {:induction false} KidsBounded(prefixes: seq<Prefix>, before: (Prefix, Prefix) -> bool, top: Entry, n: nat)
    requires Bounded(prefixes, top.prefix.id, n)
    ensures n > 0
    ensures forall e :: e in Pushed(Kids(prefixes, before, top.prefix.id), top.depth + 1) ==>
                          Bounded(prefixes, e.prefix.id, n - 1)
  {
    KidsFacts(prefixes, before, top.prefix.id);
    hide Kids;
    var kids := Kids(prefixes, before, top.prefix.id);
    var pushed := Pushed(kids, top.depth + 1);
    forall e | e in pushed ensures Bounded(prefixes, e.prefix.id, n - 1) {
      var i :| 0 <= i < |pushed| && pushed[i] == e;
      assert kids[|kids| - 1 - i] in kids;
    }
  }

  lemma {:induction false} PoppedTop(prefixes: seq<Prefix>, before: (Prefix, Prefix) -> bool, rest: seq<Entry>,
                                     top: Entry)
    ensures Popped(prefixes, before, rest + [top], 1)
         == rest + Pushed(Kids(prefixes, before, top.prefix.id), top.depth + 1)
  {
    hide Kids;
    assert Popped(prefixes, before, rest + [top], 0) == rest + [top];
    assert (rest + [top])[..|rest|] == rest;
  }

  lemma PoppedThrice(prefixes: seq<Prefix>, before: (Prefix, Prefix) -> bool, first: seq<Entry>, second: seq<Entry>,
                     third: seq<Entry>, last: seq<Entry>, a: nat, b: nat)
    requires Popped(prefixes, before, first, 1) == second && Popped(prefixes, before, second, a) == third
    requires Popped(prefixes, before, third, b) == last
    ensures Popped(prefixes, before, first, 1 + a + b) == last
  {
    hide Popped;
    PoppedOn(prefixes, before, first, 1, a);
    PoppedOn(prefixes, before, first, 1 + a, b);
  }

  lemma TopOf(rest: seq<Entry>, entries: seq<Entry>)
    requires entries != []
    ensures var top := entries[|entries| - 1];
            top in entries && rest + entries == rest + entries[..|entries| - 1] + [top]
  {
  }

  /** Bounded entries on top of the stack are gone after finitely many iterations, with all they pushed. */
  lemma {:induction false} Drained(prefixes: seq<Prefix>, before: (Prefix, Prefix) -> bool, rest: seq<Entry>,
                                   entries: seq<Entry>, n: nat) returns (k: nat)
    requires forall e :: e in entries ==> Bounded(prefixes, e.prefix.id, n)
    ensures Popped(prefixes, before, rest + entries, k) == rest
    decreases n, |entries|
  {
    hide Kids, Bounded, Popped;
    if entries == [] {
      k := 0;
      assert rest + entries == rest;
      PopNone(prefixes, before, rest);
    } else {
      var front, top := entries[..|entries| - 1], entries[|entries| - 1];
      var below, pushed := rest + front, Pushed(Kids(prefixes, before, top.prefix.id), top.depth + 1);
      TopOf(rest, entries);
      KidsBounded(prefixes, before, top, n);
      PoppedTop(prefixes, before, below, top);
      var a := Drained(prefixes, before, below, pushed, n - 1);
      var b := Drained(prefixes, before, rest, front, n);
      PoppedThrice(prefixes, before, rest + entries, below + pushed, below, rest, a, b);
      k := 1 + a + b;
    }
  }

  /** On every list, unique ids or not, the stack walk ends exactly when declared children lead round
      in no circle from a root. */
  lemma WalkEndsIff(prefixes: seq<Prefix>, before: (Prefix, Prefix) -> bool)
    ensures StackRunsOut(prefixes, before) <==> !exists ids :: Circle(prefixes, ids)
  {
    hide Circle, FirstStack, Bounded;
    var start := FirstStack(prefixes, before);
    if ids :| Circle(prefixes, ids) {
      forall k: nat ensures Popped(prefixes, before, start, k) != [] {
        CircleStays(prefixes, before, ids, k);
      }
    } else {
      var roots := seq(|start|, i requires 0 <= i < |start| => start[i].prefix);
      forall p | p in roots ensures IsBounded(prefixes, p.id) {
        var i :| 0 <= i < |roots| && roots[i] == p;
        RootsOnStack(prefixes, before, p);
        if !IsBounded(prefixes, p.id) {
          UnboundedRootCircles(prefixes, p);
        }
      }
      var n := CommonBound(prefixes, roots);
      forall e | e in start ensures Bounded(prefixes, e.prefix.id, n) {
        var i :| 0 <= i < |start| && start[i] == e;
        assert roots[i] in roots;
      }
      var k := Drained(prefixes, before, [], start, n);
      assert [] + start == start;
      assert Popped(prefixes, before, start, k) == [];
    }
  }

  /** A root and a child that repeats the root's id and names it as its parent: the walk never ends. */
  lemma RepeatedIdNeverEnds(root: Prefix, again: Prefix, before: (Prefix, Prefix) -> bool)
    requires root.id == again.id && root.id != ""
    requires !Truthy(root.parentPrefixId) && again.parentPrefixId == Some(root.id)
    ensures !StackRunsOut([root, again], before)
  {
    var ps := [root, again];
    WalkEndsIff(ps, before);
    hide StackRunsOut;
    assert ps[0] in ps && ps[1] in ps && IsChildOf(ps[1], root.id);
    assert HasChildIn(ps, root.id, {root.id});
    assert Circle(ps, {root.id});
  }

  lemma RepeatedIdNeverEndsSample(before: (Prefix, Prefix) -> bool)
    ensures !StackRunsOut([SamplePrefix("a", None, 8), SamplePrefix("a", Some("a"), 16)], before)
  {
    hide SampleCidr, StackRunsOut;
    RepeatedIdNeverEnds(SamplePrefix("a", None, 8), SamplePrefix("a", Some("a"), 16), before);
  }

  // ----- with unique ids the walk always ends

  ghost predicate AtMostDeep(prefixes: seq<Prefix>, p: Prefix, n: nat) {
    p in prefixes && exists m: nat :: m <= n && ChainLength(prefixes, p, m)
  }

  lemma {:induction false} DeeperIsNew(prefixes: seq<Prefix>, c: Prefix, n: nat)
    requires ChainLength(prefixes, c, n + 1)
    ensures !AtMostDeep(prefixes, c, n)
  {
    forall m: nat | m <= n ensures !ChainLength(prefixes, c, m) {
      if ChainLength(prefixes, c, m) {
        ChainLengthUnique(prefixes, c, m, n + 1);
      }
    }
  }

  lemma NextMember(prefixes: seq<Prefix>, ids: set<string>, parent: Prefix, n: nat) returns (c: Prefix)
    requires UniquePrefixes(prefixes) && Circle(prefixes, ids)
    requires parent in prefixes && parent.id in ids && ChainLength(prefixes, parent, n)
    ensures c in prefixes && c.id in ids && ChainLength(prefixes, c, n + 1)
  {
    assert HasChildIn(prefixes, parent.id, ids);
    hide UniquePrefixes, IsChildOf, ChainLength, Circle;
    c :| c in prefixes && IsChildOf(c, parent.id) && c.id in ids;
    ChildChain(prefixes, parent, c, n);
  }

  /** The members met so far lie at most `n` steps below a root. */
  ghost predicate AllMet(prefixes: seq<Prefix>, met: set<Prefix>, n: nat) {
    |met| == n + 1 && forall p :: p in met ==> AtMostDeep(prefixes, p, n)
  }

  lemma {:induction false} OneMoreMet(prefixes: seq<Prefix>, met: set<Prefix>, c: Prefix, n: nat)
    requires AllMet(prefixes, met, n) && c in prefixes && ChainLength(prefixes, c, n + 1)
    ensures AllMet(prefixes, met + {c}, n + 1)
  {
    DeeperIsNew(prefixes, c, n);
    hide ChainLength;
  }

  lemma RootMember(prefixes: seq<Prefix>, ids: set<string>) returns (c: Prefix)
    requires Circle(prefixes, ids)
    ensures c in prefixes && c.id in ids && ChainLength(prefixes, c, 0) && AllMet(prefixes, {c}, 0)
  {
    c :| c in prefixes && !Truthy(c.parentPrefixId) && c.id in ids;
    assert ChainLength(prefixes, c, 0) && AtMostDeep(prefixes, c, 0);
  }

  /** A circle has a member at every depth below its root, and so more and more of them. */
  lemma {:induction false} DeepMembers(prefixes: seq<Prefix>, ids: set<string>, n: nat)
    returns (c: Prefix, met: set<Prefix>)
    requires UniquePrefixes(prefixes) && Circle(prefixes, ids)
    ensures c in prefixes && c.id in ids && ChainLength(prefixes, c, n) && AllMet(prefixes, met, n)
  {
    hide *;
    if n == 0 {
      c := RootMember(prefixes, ids);
      met := {c};
    } else {
      var parent, above := DeepMembers(prefixes, ids, n - 1);
      c := NextMember(prefixes, ids, parent, n - 1);
      OneMoreMet(prefixes, above, c, n - 1);
      met := above + {c};
    }
  }

  lemma MetAreListed(prefixes: seq<Prefix>, met: set<Prefix>, n: nat)
    requires AllMet(prefixes, met, n)
    ensures |met| == n + 1 && met <= set p | p in prefixes
  {
    hide ChainLength;
  }

  lemma UniqueHasNoCircle(prefixes: seq<Prefix>)
    requires UniquePrefixes(prefixes)
    ensures !exists ids :: Circle(prefixes, ids)
  {
    if ids :| Circle(prefixes, ids) {
      hide *;
      var c, met := DeepMembers(prefixes, ids, |prefixes|);
      MetAreListed(prefixes, met, |prefixes|);
      DistinctAtMost(prefixes);
      FewerMembers(met, set p | p in prefixes);
    }
  }

  lemma {:induction false} DistinctAtMost(prefixes: seq<Prefix>)
    ensures |set p | p in prefixes| <= |prefixes|
  {
    if prefixes != [] {
      var front, last := prefixes[..|prefixes| - 1], prefixes[|prefixes| - 1];
      DistinctAtMost(front);
      assert (set p | p in prefixes) == (set p | p in front) + {last};
    }
  }

  lemma FewerMembers(a: set<Prefix>, b: set<Prefix>)
    requires a <= b
    ensures |a| <= |b|
  {
    assert b == a + (b - a);
  }

  lemma {:induction false} WalkGivesForest(prefixes: seq<Prefix>, before: (Prefix, Prefix) -> bool, tree: Tree)
    requires UniquePrefixes(prefixes) && WalkInvariant(prefixes, SortBy(prefixes, before), before, tree.nodes, [])
    requires NoDuplicates(tree.order) && forall id :: id in tree.order <==> id in tree.nodes
    requires var ordered := SortBy(prefixes, before); tree.roots == Ids(RootsAmong(ordered, |ordered|))
    ensures IsForest(prefixes, before, tree)
  {
    hide ChildrenAmong, RootsAmong, NodeOk, Covered, Pending, DistinctEntries, ReachesRoot, UniquePrefixes;
    WalkResult(prefixes, before, tree.nodes);
  }

  lemma PopOne(prefixes: seq<Prefix>, before: (Prefix, Prefix) -> bool, first: seq<Entry>, k: nat)
    requires Popped(prefixes, before, first, k) != []
    ensures var s := Popped(prefixes, before, first, k); var ordered := SortBy(prefixes, before);
            Popped(prefixes, before, first, k + 1) ==
            StackAfter(s, ChildrenAmong(ordered, |ordered|, s[|s| - 1].prefix.id, before))
  {
    hide ChildrenAmong, StackAfter, SortBy;
  }

  /** Without a visited set the walk still ends on every list in which no children lead round in a circle
      from a root, as on every list of unique ids, declared cycles and orphans included. With unique ids
      the result is the forest. */
  method BuildPrefixHierarchy(prefixes: seq<Prefix>, before: (Prefix, Prefix) -> bool) returns (tree: Tree)
    requires !exists ids :: Circle(prefixes, ids)
    ensures UniquePrefixes(prefixes) ==> IsForest(prefixes, before, tree)
    ensures NoDuplicates(tree.order) && forall id :: id in tree.order <==> id in tree.nodes
  {
    hide ChildrenAmong, RootsAmong, NodeOk, Covered, Pending, DistinctEntries, ReachesRoot, UniquePrefixes, Circle;
    hide Popped, IsForest, WalkInvariant;
    WalkEndsIff(prefixes, before);
    var orderedPrefixes := SortBy(prefixes, before);
    var rootPrefixes, childDirectory := GroupByParent(orderedPrefixes, before);
    var nodes: map<string, Node> := map[];
    var order: seq<string> := [];
    var stack := Pushed(rootPrefixes, 0);
    ghost var first := stack;
    ghost var total: nat :| Popped(prefixes, before, first, total) == [];
    ghost var steps: nat := 0;
    PopNone(prefixes, before, first);
    if UniquePrefixes(prefixes) {
      WalkStarts(prefixes, before);
    }
    while |stack| > 0
      invariant steps <= total && stack == Popped(prefixes, before, first, steps)
      invariant UniquePrefixes(prefixes) ==> WalkInvariant(prefixes, orderedPrefixes, before, nodes, stack)
      invariant NoDuplicates(order) && forall id :: id in order <==> id in nodes
      decreases total - steps
    {
      var current := stack[|stack| - 1];
      var id := current.prefix.id;
      var children := if id in childDirectory then childDirectory[id] else [];
      if UniquePrefixes(prefixes) {
        WalkSteps(prefixes, orderedPrefixes, before, nodes, stack, children);
      }
      PopOne(prefixes, before, first, steps);
      if id !in nodes {
        order := order + [id];
      }
      nodes := NodesAfter(nodes, current, children);
      stack := StackAfter(stack, children);
      steps := steps + 1;
    }
    tree := Tree(Ids(rootPrefixes), order, nodes);
    assert stack == [];
    if UniquePrefixes(prefixes) {
      WalkGivesForest(prefixes, before, tree);
    }
  }
}
