/** What the two prefix validators guarantee together: the hierarchy rules of the IPAM package and
    the overlap and containment rules of the snapshot validator. */
module AddressSpace {
  import opened Wrappers
  import opened JsText
  import opened Sorting
  import opened Bits32
  import opened Ipv4
  import opened InventoryModel
  import opened SnapshotValidation
  import opened PrefixHierarchy
  import opened PrefixForest
  import opened PrefixUtilization

  /** Accepted by both validators, with unique non-empty ids. */
  ghost predicate Accepted(ps: seq<Prefix>) {
    && UniquePrefixes(ps)
    && (forall p :: p in ps ==> p.id != "")
    && HierarchyOk(ps)
    && OverlapsDeclared(ps)
    && forall p :: p in ps && Ranged(p) ==> InsideParent(ps, p)
  }

  ghost predicate Disjoint(p: Prefix, q: Prefix)
    requires Ranged(p) && Ranged(q)
  {
    RangeIn(p).end < RangeIn(q).start || RangeIn(q).end < RangeIn(p).start
  }

  /** `child` declares `parent`, lies inside its range and is more specific. */
  ghost predicate DirectlyInside(parent: Prefix, child: Prefix)
    requires Ranged(parent) && Ranged(child)
  {
    && IsChildOf(child, parent.id)
    && Contains(RangeIn(parent), RangeIn(child))
    && RangeIn(parent).prefixLength < RangeIn(child).prefixLength
  }

  lemma DeclaredIsDirectlyInside(ps: seq<Prefix>, parent: Prefix, child: Prefix)
    requires Accepted(ps) && parent in ps && child in ps && Ranged(parent) && Ranged(child)
    requires DeclaredParent(parent, child)
    ensures DirectlyInside(parent, child)
  {
    hide ParseRange;
    PrefixIndexUnique(ps);
    assert parent.id != "";
    assert EdgeOk(ps, child) && InsideParent(ps, child);
    ParsersAgree(parent.cidr);
    ParsersAgree(child.cidr);
  }

  /** Two prefixes of one VRF are disjoint, or one is the direct declared parent that contains the other. */
  lemma DisjointOrDirectParent(ps: seq<Prefix>, p: Prefix, q: Prefix)
    requires Accepted(ps) && p in ps && q in ps && p != q
    requires Ranged(p) && Ranged(q) && p.vrfId == q.vrfId
    ensures Disjoint(p, q) || DirectlyInside(p, q) || DirectlyInside(q, p)
    ensures !(Disjoint(p, q) && (DirectlyInside(p, q) || DirectlyInside(q, p)))
    ensures !(DirectlyInside(p, q) && DirectlyInside(q, p))
  {
    ParsedIsAligned(p.cidr);
    ParsedIsAligned(q.cidr);
    hide ParseRange;
    DistinctIds(ps, p, q);
    assert OverlapDeclared(p, q);
    if DeclaredParent(p, q) {
      DeclaredIsDirectlyInside(ps, p, q);
    }
    if DeclaredParent(q, p) {
      DeclaredIsDirectlyInside(ps, q, p);
    }
  }

  lemma DistinctIds(ps: seq<Prefix>, p: Prefix, q: Prefix)
    requires UniquePrefixes(ps) && p in ps && q in ps && p != q
    ensures p.id != q.id
  {
    var i :| 0 <= i < |ps| && ps[i] == p;
    var j :| 0 <= j < |ps| && ps[j] == q;
  }

  ghost predicate Covers(p: Prefix, vrfId: Option<string>, x: int) {
    Ranged(p) && p.vrfId == vrfId && RangeIn(p).start <= x <= RangeIn(p).end
  }

  lemma CoversRelated(ps: seq<Prefix>, p: Prefix, q: Prefix, vrfId: Option<string>, x: int)
    requires Accepted(ps) && p in ps && q in ps && p != q && Covers(p, vrfId, x) && Covers(q, vrfId, x)
    ensures DirectlyInside(p, q) || DirectlyInside(q, p)
  {
    DisjointOrDirectParent(ps, p, q);
  }

  lemma AmongThreeTwoAreEqual(ps: seq<Prefix>, p: Prefix, q: Prefix, r: Prefix, vrfId: Option<string>, x: int)
    requires Accepted(ps) && p in ps && q in ps && r in ps
    requires Covers(p, vrfId, x) && Covers(q, vrfId, x) && Covers(r, vrfId, x)
    ensures p == q || q == r || p == r
  {
    hide ParseRange;
    if p != q && q != r && p != r {
      DistinctIds(ps, p, q);
      DistinctIds(ps, q, r);
      DistinctIds(ps, p, r);
      CoversRelated(ps, p, q, vrfId, x);
      CoversRelated(ps, q, r, vrfId, x);
      CoversRelated(ps, p, r, vrfId, x);
    }
  }

  /** No address is covered by more than two prefixes of one VRF. */
  lemma AtMostTwoCover(ps: seq<Prefix>, vrfId: Option<string>, x: int)
    requires Accepted(ps)
    ensures |set p | p in ps && Covers(p, vrfId, x)| <= 2
  {
    hide Covers;
    var covering := set p | p in ps && Covers(p, vrfId, x);
    forall p, q, r | p in covering && q in covering && r in covering
      ensures p == q || q == r || p == r
    {
      AmongThreeTwoAreEqual(ps, p, q, r, vrfId, x);
    }
    NoThreeDistinct(covering);
  }

  lemma NoThreeDistinct<T>(s: set<T>)
    requires forall p, q, r :: p in s && q in s && r in s ==> p == q || q == r || p == r
    ensures |s| <= 2
  {
    if s != {} {
      var p :| p in s;
      if s - {p} == {} {
        assert s == {p};
      } else {
        var q :| q in s - {p};
        assert s == {p, q};
      }
    }
  }

  // ----- the children of a prefix fit into it

  ghost function Interval(a: int, b: int): (s: set<int>)
    ensures forall x :: x in s <==> a <= x <= b
    ensures a <= b + 1 ==> |s| == b - a + 1
    decreases b - a
  {
    if b < a then {} else Interval(a, b - 1) + {b}
  }

  lemma {:induction false} SubsetIsSmaller(a: set<int>, b: set<int>)
    requires a <= b
    ensures |a| <= |b|
  {
    assert b == a + (b - a);
  }

  ghost function Union(rs: seq<Ipv4Range>): set<int> {
    if rs == [] then {} else Union(rs[..|rs| - 1]) + Interval(rs[|rs| - 1].start, rs[|rs| - 1].end)
  }

  function TotalSize(rs: seq<Ipv4Range>): int {
    if rs == [] then 0 else TotalSize(rs[..|rs| - 1]) + (rs[|rs| - 1].end - rs[|rs| - 1].start + 1)
  }

  ghost predicate PairwiseDisjoint(rs: seq<Ipv4Range>) {
    forall i, j :: 0 <= i < j < |rs| ==> rs[i].end < rs[j].start || rs[j].end < rs[i].start
  }

  lemma {:induction false} UnionAvoids(rs: seq<Ipv4Range>, a: int, b: int)
    requires forall i :: 0 <= i < |rs| ==> rs[i].end < a || b < rs[i].start
    ensures Union(rs) !! Interval(a, b)
  {
    if rs != [] {
      UnionAvoids(rs[..|rs| - 1], a, b);
    }
  }

  lemma {:induction false} UnionInside(rs: seq<Ipv4Range>, outer: Ipv4Range)
    requires forall i :: 0 <= i < |rs| ==> Contains(outer, rs[i])
    ensures Union(rs) <= Interval(outer.start, outer.end)
  {
    if rs != [] {
      UnionInside(rs[..|rs| - 1], outer);
    }
  }

  lemma {:induction false} UnionSize(rs: seq<Ipv4Range>)
    requires PairwiseDisjoint(rs) && forall i :: 0 <= i < |rs| ==> rs[i].start <= rs[i].end
    ensures |Union(rs)| == TotalSize(rs)
  {
    if rs != [] {
      UnionSize(rs[..|rs| - 1]);
      UnionAvoids(rs[..|rs| - 1], rs[|rs| - 1].start, rs[|rs| - 1].end);
    }
  }

  /** Disjoint ranges inside a range have at most its size together. */
  lemma {:induction false} DisjointRangesFit(rs: seq<Ipv4Range>, outer: Ipv4Range)
    requires PairwiseDisjoint(rs) && outer.start <= outer.end
    requires forall i :: 0 <= i < |rs| ==> rs[i].start <= rs[i].end && Contains(outer, rs[i])
    ensures TotalSize(rs) <= outer.end - outer.start + 1
  {
    UnionSize(rs);
    UnionInside(rs, outer);
    SubsetIsSmaller(Union(rs), Interval(outer.start, outer.end));
  }

  /** The ranges of the prefixes that denote one. */
  function Ranges(ps: seq<Prefix>): seq<Ipv4Range> {
    if ps == [] then []
    else Ranges(ps[..|ps| - 1]) + (if Ranged(ps[|ps| - 1]) then [RangeIn(ps[|ps| - 1])] else [])
  }

  lemma {:induction false} RangesFrom(ps: seq<Prefix>, r: Ipv4Range)
    requires r in Ranges(ps)
    ensures exists p :: p in ps && Ranged(p) && RangeIn(p) == r
  {
    hide Ranged, RangeIn;
    if r in Ranges(ps[..|ps| - 1]) {
      RangesFrom(ps[..|ps| - 1], r);
    } else {
      assert ps[|ps| - 1] in ps;
    }
  }

  /** Distinct children of a prefix are disjoint, whatever the prefix itself denotes. */
  lemma SiblingsDisjoint(ps: seq<Prefix>, parent: Prefix, c: Prefix, d: Prefix)
    requires Accepted(ps) && parent in ps && c in ps && d in ps && c != d
    requires Ranged(c) && Ranged(d) && IsChildOf(c, parent.id) && IsChildOf(d, parent.id)
    ensures Disjoint(c, d)
  {
    hide ParseRange, InsideParent, ParseCidr;
    PrefixIndexUnique(ps);
    assert EdgeOk(ps, c) && EdgeOk(ps, d);
    assert c != parent && d != parent;
    DistinctIds(ps, parent, c);
    DistinctIds(ps, parent, d);
    hide Accepted;
    DisjointOrDirectParent(ps, c, d);
  }

  lemma {:induction false} RangesDisjoint(ps: seq<Prefix>, parent: Prefix, children: seq<Prefix>)
    requires Accepted(ps) && parent in ps && NoDuplicates(children)
    requires forall c :: c in children ==> c in ps && IsChildOf(c, parent.id)
    ensures PairwiseDisjoint(Ranges(children))
  {
    hide Accepted, Ranged, RangeIn;
    if children != [] {
      var front, last := children[..|children| - 1], children[|children| - 1];
      RangesDisjoint(ps, parent, front);
      if Ranged(last) {
        forall r | r in Ranges(front) ensures r.end < RangeIn(last).start || RangeIn(last).end < r.start {
          RangesFrom(front, r);
          var c :| c in front && Ranged(c) && RangeIn(c) == r;
          assert last in children && c in children;
          SiblingsDisjoint(ps, parent, c, last);
        }
      }
    }
  }

  /** The ranges of the children of a prefix are pairwise disjoint, and together they have at most the
      size of its own range. Children that denote no range do not enter. */
  lemma {:induction false} ChildrenFit(ps: seq<Prefix>, parent: Prefix, children: seq<Prefix>)
    requires Accepted(ps) && parent in ps && NoDuplicates(children)
    requires forall c :: c in children ==> c in ps && IsChildOf(c, parent.id)
    ensures PairwiseDisjoint(Ranges(children))
    ensures Ranged(parent) ==> TotalSize(Ranges(children)) <= Size(RangeIn(parent).prefixLength)
  {
    hide ParseRange, NoDuplicates;
    RangesDisjoint(ps, parent, children);
    var rs := Ranges(children);
    if Ranged(parent) {
      ParsedIsAligned(parent.cidr);
      forall i | 0 <= i < |rs| ensures rs[i].start <= rs[i].end && Contains(RangeIn(parent), rs[i]) {
        RangesFrom(children, rs[i]);
        var c :| c in children && Ranged(c) && RangeIn(c) == rs[i];
        ParsedIsAligned(c.cidr);
        ChildInside(ps, parent, c);
      }
      hide Accepted;
      DisjointRangesFit(rs, RangeIn(parent));
    }
  }

  lemma ChildInside(ps: seq<Prefix>, parent: Prefix, c: Prefix)
    requires Accepted(ps) && parent in ps && c in ps && IsChildOf(c, parent.id) && Ranged(parent) && Ranged(c)
    ensures Contains(RangeIn(parent), RangeIn(c))
  {
    hide ParseRange, ParseCidr;
    PrefixIndexUnique(ps);
    assert InsideParent(ps, c);
  }

  // ----- accounting

  /** A parsed prefix whose capacity is known has the size of its range. */
  lemma CapacityIsSize(p: Prefix)
    requires Ranged(p) && Capacity(p).Some?
    ensures Capacity(p).value == Size(RangeIn(p).prefixLength)
  {
    ParsersAgree(p.cidr);
  }

  /** The nodes of the children listed by a node. */
  function ChildPrefixes(nodes: map<string, Node>, id: string): (cs: seq<Prefix>)
    requires WellFormed(nodes) && id in nodes
    ensures |cs| == |nodes[id].childPrefixIds|
    ensures forall i :: 0 <= i < |cs| ==>
              nodes[id].childPrefixIds[i] in nodes && cs[i] == nodes[nodes[id].childPrefixIds[i]].prefix
  {
    var ids := nodes[id].childPrefixIds;
    assert forall i :: 0 <= i < |ids| ==> ids[i] in ids;
    seq(|ids|, i requires 0 <= i < |ids| => nodes[ids[i]].prefix)
  }

  lemma {:induction false} UseWithinCapacity(nodes: map<string, Node>, xs: seq<IpAddress>, id: string)
    requires WellFormed(nodes) && id in nodes
    ensures var p := nodes[id].prefix; var use := Used(nodes, xs, id);
            && (Ranged(p) && Capacity(p).Some? ==> Capacity(p).value == Size(RangeIn(p).prefixLength))
            && (use.Some? ==> Capacity(p).Some? && use.value <= Capacity(p).value == OrElse(Capacity(p), 0))
  {
    var p := nodes[id].prefix;
    if Ranged(p) && Capacity(p).Some? {
      CapacityIsSize(p);
    }
  }

  lemma ChildUsedStep(nodes: map<string, Node>, xs: seq<IpAddress>, id: string, n: nat)
    requires WellFormed(nodes) && id in nodes && 0 < n <= |nodes[id].childPrefixIds|
    ensures var child := nodes[id].childPrefixIds[n - 1];
            && child in nodes
            && ChildPrefixes(nodes, id)[n - 1] == nodes[child].prefix
            && var use := Used(nodes, xs, child);
               var consumed := if use.Some? then use else Capacity(nodes[child].prefix);
               var sum := ChildUsed(nodes, xs, id, n - 1);
               ChildUsed(nodes, xs, id, n) ==
               if sum.None? || consumed.None? then None else Some(sum.value + consumed.value)
  {
    hide Capacity;
    hide Used;
  }

  /** What the children that denote no range can hold. */
  function UnrangedCapacity(cs: seq<Prefix>): nat {
    if cs == [] then 0
    else
      var last := cs[|cs| - 1];
      UnrangedCapacity(cs[..|cs| - 1]) + (if Ranged(last) then 0 else OrElse(Capacity(last), 0))
  }

  lemma {:induction false} NoUnranged(cs: seq<Prefix>)
    requires forall c :: c in cs ==> Ranged(c)
    ensures UnrangedCapacity(cs) == 0
  {
    if cs != [] {
      NoUnranged(cs[..|cs| - 1]);
    }
  }

  /** The most that the first `n` of the children can use. */
  function Room(cs: seq<Prefix>, n: nat): int
    requires n <= |cs|
  {
    TotalSize(Ranges(cs[..n])) + UnrangedCapacity(cs[..n])
  }

  lemma RoomStep(cs: seq<Prefix>, n: nat)
    requires 0 < n <= |cs|
    ensures Room(cs, n) == Room(cs, n - 1) +
                           if Ranged(cs[n - 1]) then Size(RangeIn(cs[n - 1]).prefixLength)
                           else OrElse(Capacity(cs[n - 1]), 0)
  {
    if Ranged(cs[n - 1]) {
      ParsedIsAligned(cs[n - 1].cidr);
    }
    hide ParseRange, Capacity;
    var earlier := Ranges(cs[..n - 1]);
    assert cs[..n][..n - 1] == cs[..n - 1];
    if Ranged(cs[n - 1]) {
      assert Ranges(cs[..n]) == earlier + [RangeIn(cs[n - 1])];
      assert (earlier + [RangeIn(cs[n - 1])])[..|earlier|] == earlier;
    } else {
      assert Ranges(cs[..n]) == earlier;
    }
  }

  /** What the first `n` children use is at most what they have room for. */
  lemma {:induction false} ChildUseWithinRoom(nodes: map<string, Node>, xs: seq<IpAddress>, id: string, n: nat)
    requires WellFormed(nodes) && id in nodes && n <= |nodes[id].childPrefixIds|
    ensures ChildUsed(nodes, xs, id, n).Some? ==>
              ChildUsed(nodes, xs, id, n).value <= Room(ChildPrefixes(nodes, id), n)
    decreases n
  {
    if n > 0 {
      hide *;
      ChildUseWithinRoom(nodes, xs, id, n - 1);
      ChildUsedStep(nodes, xs, id, n);
      RoomStep(ChildPrefixes(nodes, id), n);
      UseWithinCapacity(nodes, xs, nodes[id].childPrefixIds[n - 1]);
    } else {
      assert Room(ChildPrefixes(nodes, id), 0) == 0;
    }
  }

  lemma ForestChildren(ps: seq<Prefix>, before: (Prefix, Prefix) -> bool, tree: Tree, id: string)
    requires Accepted(ps) && IsForest(ps, before, tree) && WellFormed(tree.nodes) && id in tree.nodes
    ensures var cs := ChildPrefixes(tree.nodes, id);
            && tree.nodes[id].prefix in ps && tree.nodes[id].prefix.id == id
            && NoDuplicates(cs)
            && forall c :: c in cs ==> c in ps && IsChildOf(c, id)
  {
    NodesNameTheirPrefix(ps, before, tree);
    var ids, cs := tree.nodes[id].childPrefixIds, ChildPrefixes(tree.nodes, id);
    forall i | 0 <= i < |cs| ensures cs[i] in ps && IsChildOf(cs[i], id) && cs[i].id == ids[i] {
      assert ids[i] in ids;
      ForestChild(ps, before, tree, id, ids[i]);
    }
  }

  lemma {:induction false} ChildUseFits(ps: seq<Prefix>, before: (Prefix, Prefix) -> bool, tree: Tree,
                                        xs: seq<IpAddress>, id: string)
    requires Accepted(ps) && IsForest(ps, before, tree) && WellFormed(tree.nodes)
    requires id in tree.nodes && Ranged(tree.nodes[id].prefix)
    ensures var childUsed := ChildUsed(tree.nodes, xs, id, |tree.nodes[id].childPrefixIds|);
            childUsed.Some? ==>
              childUsed.value <= Size(RangeIn(tree.nodes[id].prefix).prefixLength)
                                 + UnrangedCapacity(ChildPrefixes(tree.nodes, id))
  {
    var cs := ChildPrefixes(tree.nodes, id);
    hide IsForest, Accepted, ParseRange, ChildUsed, UniquePrefixes, PairwiseDisjoint, WellFormed;
    ForestChildren(ps, before, tree, id);
    ChildUseWithinRoom(tree.nodes, xs, id, |tree.nodes[id].childPrefixIds|);
    assert cs[..|cs|] == cs;
    ChildrenFit(ps, tree.nodes[id].prefix, cs);
  }

  /** In an accepted prefix set the children of a prefix use at most its capacity and, beyond it, the
      capacity of children that denote no range. So where all children denote ranges, a clip at the
      capacity is caused by directly attached addresses. */
  lemma {:induction false} ClipNeedsDirectAddresses(ps: seq<Prefix>, before: (Prefix, Prefix) -> bool, tree: Tree,
                                                    xs: seq<IpAddress>, id: string)
    requires Accepted(ps) && IsForest(ps, before, tree) && WellFormed(tree.nodes)
    requires id in tree.nodes && Ranged(tree.nodes[id].prefix)
    ensures var childUsed := ChildUsed(tree.nodes, xs, id, |tree.nodes[id].childPrefixIds|);
            var total := Capacity(tree.nodes[id].prefix);
            var spare := UnrangedCapacity(ChildPrefixes(tree.nodes, id));
            childUsed.Some? && total.Some? ==>
              && childUsed.value <= total.value + spare
              && (childUsed.value + DirectCount(xs, id) > total.value ==> DirectCount(xs, id) > 0 || spare > 0)
              && (Used(tree.nodes, xs, id) == Some(total.value) && childUsed.value < total.value ==>
                    DirectCount(xs, id) > 0)
              && (DirectCount(xs, id) <= total.value - childUsed.value ==>
                    Used(tree.nodes, xs, id) == Some(childUsed.value + DirectCount(xs, id)))
    ensures (forall c :: c in ChildPrefixes(tree.nodes, id) ==> Ranged(c)) ==>
              UnrangedCapacity(ChildPrefixes(tree.nodes, id)) == 0
  {
    hide *;
    if forall c :: c in ChildPrefixes(tree.nodes, id) ==> Ranged(c) {
      NoUnranged(ChildPrefixes(tree.nodes, id));
    }
    ChildUseFits(ps, before, tree, xs, id);
    UseWithinCapacity(tree.nodes, xs, id);
    UseByParts(tree.nodes, xs, id);
  }

  lemma {:induction false} UseByParts(nodes: map<string, Node>, xs: seq<IpAddress>, id: string)
    requires WellFormed(nodes) && id in nodes
    ensures var childUsed := ChildUsed(nodes, xs, id, |nodes[id].childPrefixIds|);
            var total := Capacity(nodes[id].prefix);
            childUsed.Some? && total.Some? ==>
              Used(nodes, xs, id) == Some(if total.value <= childUsed.value + DirectCount(xs, id) then total.value
                                          else childUsed.value + DirectCount(xs, id))
  {
    hide DirectCount;
    hide Capacity;
    hide ChildUsed;
  }

  // ----- what the capacities of the children add up to

  /** The known capacities together. */
  function SumCapacity(cs: seq<Prefix>): nat {
    if cs == [] then 0 else SumCapacity(cs[..|cs| - 1]) + OrElse(Capacity(cs[|cs| - 1]), 0)
  }

  lemma {:induction false} CapacitiesAddUp(cs: seq<Prefix>)
    requires forall c :: c in cs ==> Capacity(c).Some?
    ensures SumCapacity(cs) == TotalSize(Ranges(cs)) + UnrangedCapacity(cs)
  {
    hide Capacity, ParseRange;
    if cs != [] {
      var n := |cs| - 1;
      CapacitiesAddUp(cs[..n]);
      RoomStep(cs, n + 1);
      assert cs[..n + 1] == cs && cs[n] in cs;
      if Ranged(cs[n]) {
        CapacityIsSize(cs[n]);
      }
    }
  }

  /** In an accepted prefix set the capacities of the children fit into the capacity of their prefix exactly
      when those of the children that denote no range fit into what the ranges of the others leave. */
  lemma {:induction false} CapacitiesFitIff(ps: seq<Prefix>, parent: Prefix, children: seq<Prefix>)
    requires Accepted(ps) && parent in ps && NoDuplicates(children)
    requires forall c :: c in children ==> c in ps && IsChildOf(c, parent.id) && Capacity(c).Some?
    requires Ranged(parent) && Capacity(parent).Some?
    ensures var left := Capacity(parent).value - TotalSize(Ranges(children));
            && left >= 0
            && (SumCapacity(children) <= Capacity(parent).value <==> UnrangedCapacity(children) <= left)
  {
    hide Accepted, ParseRange, Capacity;
    CapacitiesAddUp(children);
    CapacityIsSize(parent);
    ChildrenFit(ps, parent, children);
  }

  // ----- children whose network does not parse

  /** A child one bit longer than its parent whose text passes the shape rule but denotes no
      range. */
  predicate UnparsedHalf(parent: Prefix, child: Prefix) {
    && child.family == V4 && ParseRange(child.cidr).None? && ParseCidr(child.cidr).Some?
    && Length(child) == Length(parent) + 1
    && child.parentPrefixId == Some(parent.id) && child.vrfId == parent.vrfId
  }

  lemma OnlyOneRanged(ps: seq<Prefix>, parent: Prefix)
    requires !Truthy(parent.parentPrefixId) && forall p :: p in ps && Ranged(p) ==> p == parent
    ensures OverlapsDeclared(ps) && forall p :: p in ps && Ranged(p) ==> InsideParent(ps, p)
  {
    hide Ranged, PrefixIndex;
  }

  lemma HalfCapacity(parent: Prefix, child: Prefix)
    requires parent.family == V4 && ParseCidr(parent.cidr).Some? && 12 <= Length(parent) < 32
    requires UnparsedHalf(parent, child)
    ensures Capacity(parent).Some? && Capacity(child).Some? && Capacity(parent).value == 2 * Capacity(child).value
    ensures Capacity(child).value > 0
  {
  }

  lemma EdgesOfFour(parent: Prefix, a: Prefix, b: Prefix, c: Prefix)
    requires !Truthy(parent.parentPrefixId) && ParseCidr(parent.cidr).Some?
    requires UnparsedHalf(parent, a) && UnparsedHalf(parent, b) && UnparsedHalf(parent, c)
    requires UniquePrefixes([parent, a, b, c]) && parent.id != ""
    ensures HierarchyOk([parent, a, b, c])
  {
    var ps := [parent, a, b, c];
    assert ps[0].id != ps[1].id && ps[0].id != ps[2].id && ps[0].id != ps[3].id;
    IndexOfFour(parent, a, b, c);
    hide PrefixIndex, ParseRange, ParseCidr, UniquePrefixes;
    assert EdgeOk(ps, parent) && EdgeOk(ps, a) && EdgeOk(ps, b) && EdgeOk(ps, c);
  }

  /** The children must denote ranges: the overlap rule does not see the others, so three of them
      pass both validators although together they exceed the parent. */
  lemma UnparsedChildrenCanOverfill(parent: Prefix, a: Prefix, b: Prefix, c: Prefix)
    requires Ranged(parent) && !Truthy(parent.parentPrefixId) && 12 <= Length(parent) < 32
    requires UnparsedHalf(parent, a) && UnparsedHalf(parent, b) && UnparsedHalf(parent, c)
    requires UniquePrefixes([parent, a, b, c]) && forall p :: p in [parent, a, b, c] ==> p.id != ""
    ensures Accepted([parent, a, b, c])
    ensures Capacity(parent).Some? && Capacity(a).Some? && Capacity(b).Some? && Capacity(c).Some?
    ensures Capacity(a).value + Capacity(b).value + Capacity(c).value > Capacity(parent).value
  {
    ParsersAgree(parent.cidr);
    hide ParseRange, ParseCidr, UniquePrefixes, HierarchyOk, OverlapsDeclared, InsideParent, Capacity, Length;
    var ps := [parent, a, b, c];
    assert parent in ps;
    EdgesOfFour(parent, a, b, c);
    HalfCapacity(parent, a);
    HalfCapacity(parent, b);
    HalfCapacity(parent, c);
    assert forall p :: p in ps && Ranged(p) ==> p == parent;
    OnlyOneRanged(ps, parent);
  }

  function RootSample(): Prefix {
    Prefix("r", None, None, "0.0.0.0/24", V4, "active", "pool", None)
  }

  function UnparsedSample(id: string): Prefix {
    Prefix(id, None, Some("r"), "x/25", V4, "active", "pool", None)
  }

  lemma {:induction false} CidrSplits(network: string, length: string)
    requires '/' !in network && '/' !in length
    ensures Split(network + "/" + length, '/') == [network, length]
  {
    SplitFirst(network, '/', length);
    SplitOne(length, '/');
  }

  lemma TwoDigits(tens: char, ones: char)
    requires IsDigit(tens) && IsDigit(ones)
    ensures '/' !in [tens, ones] && JsInteger([tens, ones]) == Some(10 * DigitValue(tens) + DigitValue(ones))
  {
    var text := [tens, ones];
    TrimFacts(text);
    assert text[..1] == [tens] && [tens][..0] == "";
    assert DigitsValue([tens]) == DigitValue(tens);
  }

  lemma ZeroAddress()
    ensures ParseNumber("0.0.0.0").Some?
  {
    var parts := ["0", "0", "0", "0"];
    assert Join(parts[3..], ".") == "0";
    assert Join(parts[2..], ".") == "0.0";
    assert Join(parts[1..], ".") == "0.0.0";
    assert Join(parts, ".") == "0.0.0.0";
    SplitJoin(parts, '.');
    assert "0"[..0] == "" && DigitsValue("0") == 0;
    hide JoinOctets;
  }

  lemma {:induction false} FromParts(cidr: string, network: string, length: string, n: nat)
    requires Split(cidr, '/') == [network, length] && network != "" && length != ""
    requires JsInteger(length) == Some(n) && n <= 32
    ensures ParseRange(cidr).Some? <==> ParseNumber(network).Some?
    ensures ParseCidr(cidr) == Some(Cidr(network, n))
  {
    hide Split, JsInteger, RangeOf, ParseNumber;
  }

  lemma SampleDigits()
    ensures IsDigit('2') && IsDigit('4') && IsDigit('5')
    ensures DigitValue('2') == 2 && DigitValue('4') == 4 && DigitValue('5') == 5
  {
  }

  lemma SamplesParse()
    ensures ParseRange("0.0.0.0/24").Some? && ParseCidr("0.0.0.0/24") == Some(Cidr("0.0.0.0", 24))
    ensures ParseRange("x/25").None? && ParseCidr("x/25") == Some(Cidr("x", 25))
  {
    hide *;
    SampleDigits();
    TwoDigits('2', '4');
    TwoDigits('2', '5');
    CidrSplits("0.0.0.0", "24");
    CidrSplits("x", "25");
    ZeroAddress();
    NoDots();
    assert "0.0.0.0" + "/" + "24" == "0.0.0.0/24" && "x" + "/" + "25" == "x/25";
    FromParts("0.0.0.0/24", "0.0.0.0", "24", 24);
    FromParts("x/25", "x", "25", 25);
  }

  lemma NoDots()
    ensures ParseNumber("x").None?
  {
    SplitOne("x", '.');
  }

  lemma HalfPower()
    ensures Pow2(8) == 256 && Pow2(7) == 128
  {
    Pow2Word();
    hide *;
    Pow2Half(7);
  }

  lemma Pow2Half(k: nat)
    ensures Pow2(k + 1) == 2 * Pow2(k)
  {
  }

  lemma CapacityOf(p: Prefix, cidr: Cidr)
    requires p.family == V4 && ParseCidr(p.cidr) == Some(cidr) && 12 <= cidr.prefixLength <= 32
    ensures Capacity(p) == Some(Pow2(32 - cidr.prefixLength)) && Length(p) == cidr.prefixLength
  {
    hide ParseCidr, Pow2;
  }

  lemma SampleCapacities(id: string)
    ensures Capacity(RootSample()) == Some(256)
    ensures Capacity(UnparsedSample(id)) == Some(128) && IsChildOf(UnparsedSample(id), RootSample().id)
    ensures Ranged(RootSample()) && !Truthy(RootSample().parentPrefixId) && Length(RootSample()) == 24
    ensures UnparsedHalf(RootSample(), UnparsedSample(id))
  {
    SamplesParse();
    HalfPower();
    hide ParseRange, ParseCidr, Pow2, Length, Capacity;
    CapacityOf(RootSample(), Cidr("0.0.0.0", 24));
    CapacityOf(UnparsedSample(id), Cidr("x", 25));
  }

  lemma SampleIds()
    ensures var ps := [RootSample(), UnparsedSample("a"), UnparsedSample("b"), UnparsedSample("c")];
            UniquePrefixes(ps) && forall p :: p in ps ==> p.id != ""
  {
  }

  /** A root of 256 addresses with three accepted children of 128. */
  lemma OverfilledSample()
    ensures Accepted([RootSample(), UnparsedSample("a"), UnparsedSample("b"), UnparsedSample("c")])
    ensures Capacity(RootSample()) == Some(256)
    ensures forall id :: Capacity(UnparsedSample(id)) == Some(128) && IsChildOf(UnparsedSample(id), RootSample().id)
  {
    hide *;
    forall id
      ensures UnparsedHalf(RootSample(), UnparsedSample(id))
      ensures Capacity(UnparsedSample(id)) == Some(128) && IsChildOf(UnparsedSample(id), RootSample().id)
    {
      SampleCapacities(id);
    }
    SampleCapacities("a");
    SampleIds();
    UnparsedChildrenCanOverfill(RootSample(), UnparsedSample("a"), UnparsedSample("b"), UnparsedSample("c"));
  }
}
