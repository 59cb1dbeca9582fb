/** Address accounting over the prefix forest: one pass over the nodes, deepest first, against the
    recursive definition. */
module PrefixUtilization {
  import opened Wrappers
  import opened Sorting
  import opened Bits32
  import opened InventoryModel
  import opened PrefixHierarchy
  import opened PrefixForest
  import opened PrefixWalk
  import JsText

  /** Unknown (None) for an unparsable CIDR and for more than 20 host bits. */
  function Capacity(p: Prefix): Option<nat> {
    match ParseCidr(p.cidr)
    case None => None
    case Some(parsed) =>
      var width := if p.family == V4 then 32 else 128;
      var hostBits := width - parsed.prefixLength;
      if hostBits < 0 || hostBits > 20 then None else Some(Pow2(hostBits))
  }

  datatype Utilization = Utilization(
    totalAddresses: Option<nat>,
    usedAddresses: Option<nat>,
    availableAddresses: Option<nat>,
    directIpCount: nat
  )

  function Min(a: int, b: int): int { if a <= b then a else b }

  function Max(a: int, b: int): int { if a >= b then a else b }

  /** The addresses attached directly to a prefix. */
  function DirectAddresses(xs: seq<IpAddress>, n: nat, id: string): seq<IpAddress>
    requires n <= |xs|
  {
    if n == 0 then []
    else
      DirectAddresses(xs, n - 1, id) +
      (if Truthy(xs[n - 1].prefixId) && xs[n - 1].prefixId.value == id then [xs[n - 1]] else [])
  }

  function DirectCount(xs: seq<IpAddress>, id: string): nat {
    |DirectAddresses(xs, |xs|, id)|
  }

  // ----- what the two functions mean

  /** The addresses attached to a prefix: those that name its id. An empty id attaches nothing. */
  ghost function Attached(xs: seq<IpAddress>, id: string): nat {
    if id == "" then 0 else |set i | 0 <= i < |xs| && xs[i].prefixId == Some(id)|
  }

  lemma {:induction false} AttachedUpTo(xs: seq<IpAddress>, n: nat, id: string)
    requires n <= |xs|
    ensures |DirectAddresses(xs, n, id)| ==
            if id == "" then 0 else |set i | 0 <= i < n && xs[i].prefixId == Some(id)|
    decreases n
  {
    if n > 0 {
      AttachedUpTo(xs, n - 1, id);
      var before := set i | 0 <= i < n - 1 && xs[i].prefixId == Some(id);
      var after := set i | 0 <= i < n && xs[i].prefixId == Some(id);
      if xs[n - 1].prefixId == Some(id) {
        assert after == before + {n - 1};
      } else {
        assert after == before;
      }
    }
  }

  /** The direct count is the number of addresses that name the prefix. */
  lemma DirectCountIs(xs: seq<IpAddress>, id: string)
    ensures DirectCount(xs, id) == Attached(xs, id)
  {
    AttachedUpTo(xs, |xs|, id);
  }

  /** The capacity is known exactly for up to 20 host bits, of 32 or 128, and is then that power of two. */
  lemma {:induction false} CapacityIs(p: Prefix, network: string, n: nat)
    requires network != "" && '/' !in network && p.cidr == network + "/" + JsText.Decimal(n)
    ensures p.family == V4 ==> Capacity(p) == if 12 <= n <= 32 then Some(Pow2(32 - n)) else None
    ensures p.family == V6 ==> Capacity(p) == if 108 <= n <= 128 then Some(Pow2(128 - n)) else None
  {
    CidrShapeIff(p.family, network, n);
    hide ParseCidr, JsText.Decimal, Pow2;
  }

  lemma CapacityUnknown(p: Prefix)
    ensures '/' !in p.cidr || "/" <= p.cidr ==> Capacity(p) == None
    ensures Pow2(0) == 1 && Pow2(1) == 2 && Pow2(8) == 256 && Pow2(20) == 1048576
  {
    if '/' !in p.cidr {
      JsText.SplitOne(p.cidr, '/');
    }
  }

  // ----- the recursive definition

  function DepthOf(nodes: map<string, Node>, id: string): nat {
    if id in nodes then nodes[id].depth else 0
  }

  /** A prefix uses its children's use plus its direct addresses, clipped at its capacity. */
  ghost function Used(nodes: map<string, Node>, xs: seq<IpAddress>, id: string): Option<nat>
    requires WellFormed(nodes) && id in nodes
    decreases LevelBound(nodes, NodeDepth) - nodes[id].depth, 1, 0
  {
    var total := Capacity(nodes[id].prefix);
    var childUsed := ChildUsed(nodes, xs, id, |nodes[id].childPrefixIds|);
    if total.None? || childUsed.None? then None
    else Some(Min(total.value, childUsed.value + DirectCount(xs, id)))
  }

  /** What the first `n` children use together; a child of unknown use counts with its full
      capacity, and a child of unknown capacity makes the sum unknown. */
  ghost function ChildUsed(nodes: map<string, Node>, xs: seq<IpAddress>, id: string, n: nat): Option<nat>
    requires WellFormed(nodes) && id in nodes && n <= |nodes[id].childPrefixIds|
    decreases LevelBound(nodes, NodeDepth) - nodes[id].depth, 0, n
  {
    if n == 0 then Some(0)
    else
      var sum := ChildUsed(nodes, xs, id, n - 1);
      var child := nodes[id].childPrefixIds[n - 1];
      assert child in nodes[id].childPrefixIds;
      var use := Used(nodes, xs, child);
      var consumed := if use.Some? then use else Capacity(nodes[child].prefix);
      if sum.None? || consumed.None? then None else Some(sum.value + consumed.value)
  }

  /** The record the directory holds for a node. */
  ghost function UtilizationOf(nodes: map<string, Node>, xs: seq<IpAddress>, id: string): Utilization
    requires WellFormed(nodes) && id in nodes
  {
    var total, used := Capacity(nodes[id].prefix), Used(nodes, xs, id);
    Utilization(
      total,
      used,
      if total.None? || used.None? then None else Some(Max(0, total.value - used.value)),
      DirectCount(xs, id))
  }

  /** Wherever the numbers are known they add up and stay within the capacity. */
  lemma UtilizationAddsUp(nodes: map<string, Node>, xs: seq<IpAddress>, id: string)
    requires WellFormed(nodes) && id in nodes
    ensures var u := UtilizationOf(nodes, xs, id);
            && (u.usedAddresses.Some? ==> u.totalAddresses.Some? && u.availableAddresses.Some?)
            && (u.availableAddresses.Some? <==> u.usedAddresses.Some?)
            && (u.usedAddresses.Some? ==>
                  && 0 <= u.usedAddresses.value <= u.totalAddresses.value
                  && u.usedAddresses.value + u.availableAddresses.value == u.totalAddresses.value)
  {
  }

  /** A directory with exactly the records of the nodes, as the recursive definition gives them. */
  ghost predicate Accounts(utilization: map<string, Utilization>, nodes: map<string, Node>, xs: seq<IpAddress>) {
    && WellFormed(nodes)
    && (forall id :: id in utilization <==> id in nodes)
    && forall id :: id in utilization ==> utilization[id] == UtilizationOf(nodes, xs, id)
  }

  /** The sum of the known numbers. */
  function Sum(parts: seq<Option<nat>>): nat {
    if parts == [] then 0 else Sum(parts[..|parts| - 1]) + OrElse(parts[|parts| - 1], 0)
  }

  /** What each child takes from its parent: its use, or its whole size where its use is unknown. */
  function Taken(children: seq<string>, utilization: map<string, Utilization>): (parts: seq<Option<nat>>)
    requires forall child :: child in children ==> child in utilization
    ensures |parts| == |children|
    ensures forall i :: 0 <= i < |children| ==>
              var u := utilization[children[i]];
              parts[i] == if u.usedAddresses.Some? then u.usedAddresses else u.totalAddresses
  {
    seq(|children|, i requires 0 <= i < |children| =>
      var u := utilization[children[i]];
      if u.usedAddresses.Some? then u.usedAddresses else u.totalAddresses)
  }

  /** A record is unknown where its capacity or some child's part is; else it holds what the children take
      and the addresses attached to it, clipped at the capacity, and what is left of the capacity. */
  ghost predicate Balances(u: Utilization, capacity: Option<nat>, parts: seq<Option<nat>>, attached: nat) {
    && u.totalAddresses == capacity && u.directIpCount == attached
    && if capacity.None? || (exists i :: 0 <= i < |parts| && parts[i].None?) then
      u.usedAddresses == None && u.availableAddresses == None
    else
      var taken, total := Sum(parts) + attached, capacity.value;
      && u.usedAddresses == Some(if taken <= total then taken else total)
      && u.availableAddresses == Some(if taken <= total then total - taken else 0)
  }

  /** The record balances with those of its children and the addresses attached to it. */
  ghost predicate Balanced(utilization: map<string, Utilization>, nodes: map<string, Node>, xs: seq<IpAddress>,
                           id: string)
    requires id in nodes && id in utilization
    requires forall child :: child in nodes[id].childPrefixIds ==> child in utilization
  {
    Balances(utilization[id], Capacity(nodes[id].prefix), Taken(nodes[id].childPrefixIds, utilization),
             Attached(xs, id))
  }

  /** The directory balances at every node. */
  ghost predicate AllBalanced(utilization: map<string, Utilization>, nodes: map<string, Node>, xs: seq<IpAddress>) {
    && (forall id :: id in utilization <==> id in nodes)
    && (forall id :: id in nodes ==> forall child :: child in nodes[id].childPrefixIds ==> child in nodes)
    && forall id :: id in nodes ==> Balanced(utilization, nodes, xs, id)
  }

  /** A child takes what it uses, or its capacity where that is unknown. */
  lemma {:induction false} ChildTakes(nodes: map<string, Node>, xs: seq<IpAddress>,
                                      utilization: map<string, Utilization>, id: string)
    requires Accounts(utilization, nodes, xs) && id in nodes
    ensures forall child :: child in nodes[id].childPrefixIds ==>
              && child in nodes && child in utilization
              && utilization[child].usedAddresses == Used(nodes, xs, child)
              && utilization[child].totalAddresses == Capacity(nodes[child].prefix)
  {
    hide Used, Capacity, DirectCount;
    forall child | child in nodes[id].childPrefixIds ensures utilization[child] == UtilizationOf(nodes, xs, child) {
      assert child in nodes;
    }
  }

  lemma {:induction false} ChildrenTake(nodes: map<string, Node>, xs: seq<IpAddress>,
                                        utilization: map<string, Utilization>, id: string, n: nat)
    requires WellFormed(nodes) && id in nodes && n <= |nodes[id].childPrefixIds|
    requires forall child :: child in nodes[id].childPrefixIds ==>
               && child in nodes && child in utilization
               && utilization[child].usedAddresses == Used(nodes, xs, child)
               && utilization[child].totalAddresses == Capacity(nodes[child].prefix)
    ensures var parts := Taken(nodes[id].childPrefixIds, utilization);
            ChildUsed(nodes, xs, id, n) ==
            if forall i :: 0 <= i < n ==> parts[i].Some? then Some(Sum(parts[..n])) else None
    decreases n
  {
    hide Used, Capacity, WellFormed;
    if n > 0 {
      ChildrenTake(nodes, xs, utilization, id, n - 1);
      var parts := Taken(nodes[id].childPrefixIds, utilization);
      assert nodes[id].childPrefixIds[n - 1] in nodes[id].childPrefixIds;
      assert parts[..n][..n - 1] == parts[..n - 1];
    }
  }

  lemma {:induction false} RecordBalances(nodes: map<string, Node>, xs: seq<IpAddress>,
                                          utilization: map<string, Utilization>, id: string)
    requires WellFormed(nodes) && id in nodes && id in utilization
    requires utilization[id] == UtilizationOf(nodes, xs, id)
    requires forall child :: child in nodes[id].childPrefixIds ==>
               && child in nodes && child in utilization
               && utilization[child].usedAddresses == Used(nodes, xs, child)
               && utilization[child].totalAddresses == Capacity(nodes[child].prefix)
    ensures Balanced(utilization, nodes, xs, id)
  {
    var children := nodes[id].childPrefixIds;
    RecordIs(nodes, xs, id);
    hide Capacity, DirectCount, Attached, ChildUsed, Used, UtilizationOf, WellFormed, Sum, Balances, Filled;
    ChildrenTake(nodes, xs, utilization, id, |children|);
    DirectCountIs(xs, id);
    var parts := Taken(children, utilization);
    assert parts[..|children|] == parts;
    FilledBalances(Capacity(nodes[id].prefix), ChildUsed(nodes, xs, id, |children|), parts, Attached(xs, id));
  }

  /** The record of a node, filled in from the use of its children. */
  ghost function Filled(total: Option<nat>, childUsed: Option<nat>, direct: nat): Utilization {
    var used := if total.None? || childUsed.None? then None else Some(Min(total.value, childUsed.value + direct));
    var left := if total.None? || used.None? then None else Some(Max(0, total.value - used.value));
    Utilization(total, used, left, direct)
  }

  lemma {:induction false} RecordIs(nodes: map<string, Node>, xs: seq<IpAddress>, id: string)
    requires WellFormed(nodes) && id in nodes
    ensures UtilizationOf(nodes, xs, id)
         == Filled(Capacity(nodes[id].prefix), ChildUsed(nodes, xs, id, |nodes[id].childPrefixIds|),
                   DirectCount(xs, id))
  {
    hide Capacity, DirectCount, ChildUsed, WellFormed;
  }

  lemma {:induction false} FilledBalances(total: Option<nat>, childUsed: Option<nat>, parts: seq<Option<nat>>,
                                          direct: nat)
    requires childUsed == if forall i :: 0 <= i < |parts| ==> parts[i].Some? then Some(Sum(parts)) else None
    ensures Balances(Filled(total, childUsed, direct), total, parts, direct)
  {
    hide Sum;
  }

  lemma {:induction false} AccountsBalance(nodes: map<string, Node>, xs: seq<IpAddress>,
                                           utilization: map<string, Utilization>)
    requires Accounts(utilization, nodes, xs)
    ensures AllBalanced(utilization, nodes, xs)
  {
    hide UtilizationOf, Balanced, WellFormed;
    forall id | id in nodes
      ensures forall child :: child in nodes[id].childPrefixIds ==> child in utilization
      ensures Balanced(utilization, nodes, xs, id)
    {
      ChildTakes(nodes, xs, utilization, id);
      RecordBalances(nodes, xs, utilization, id);
    }
  }

  // ----- the one-pass computation

  function DeepestFirst(nodes: map<string, Node>): (string, string) -> bool {
    (left: string, right: string) => DepthOf(nodes, right) <= DepthOf(nodes, left)
  }

  /** With the nodes sorted deepest first, a child stands before its parent. */
  lemma ChildComesFirst(nodes: map<string, Node>, ordered: seq<string>, i: nat, child: string) returns (j: nat)
    requires WellFormed(nodes) && Sorted(ordered, DeepestFirst(nodes))
    requires forall id :: id in ordered <==> id in nodes
    requires i < |ordered| && child in nodes[ordered[i]].childPrefixIds
    ensures j < i && ordered[j] == child
  {
    assert ordered[i] in nodes && child in nodes;
    j :| 0 <= j < |ordered| && ordered[j] == child;
    DeeperIsEarlier(nodes, ordered, i, j);
  }

  lemma DeeperIsEarlier(nodes: map<string, Node>, ordered: seq<string>, i: nat, j: nat)
    requires Sorted(ordered, DeepestFirst(nodes)) && i < |ordered| && j < |ordered|
    requires DepthOf(nodes, ordered[j]) > DepthOf(nodes, ordered[i])
    ensures j < i
  {
    BeforeMeansDeeper(nodes, ordered[i], ordered[j]);
  }

  lemma BeforeMeansDeeper(nodes: map<string, Node>, left: string, right: string)
    ensures DeepestFirst(nodes)(left, right) <==> DepthOf(nodes, right) <= DepthOf(nodes, left)
  {
  }

  function Bucket(byPrefix: map<string, seq<IpAddress>>, id: string): seq<IpAddress> {
    if id in byPrefix then byPrefix[id] else []
  }

  method GroupAddresses(xs: seq<IpAddress>) returns (byPrefix: map<string, seq<IpAddress>>)
    ensures forall id :: Bucket(byPrefix, id) == DirectAddresses(xs, |xs|, id)
  {
    byPrefix := map[];
    for i := 0 to |xs|
      invariant forall id :: Bucket(byPrefix, id) == DirectAddresses(xs, i, id)
    {
      ghost var earlier := byPrefix;
      if Truthy(xs[i].prefixId) {
        var prefixId := xs[i].prefixId.value;
        byPrefix := byPrefix[prefixId := Bucket(byPrefix, prefixId) + [xs[i]]];
      }
      forall id ensures Bucket(byPrefix, id) == DirectAddresses(xs, i + 1, id) {
        assert Bucket(earlier, id) == DirectAddresses(xs, i, id);
      }
    }
  }

  ghost predicate NodesAreNamed(prefixes: seq<Prefix>, nodes: map<string, Node>) {
    forall id :: id in nodes ==> nodes[id].prefix in prefixes && nodes[id].prefix.id == id
  }

  ghost predicate Tabulates(nodes: map<string, Node>, xs: seq<IpAddress>, table: map<string, Option<nat>>)
    requires WellFormed(nodes)
  {
    forall id :: id in table ==> id in nodes && table[id] == Used(nodes, xs, id)
  }

  method ChildCapacity(prefixes: seq<Prefix>, nodes: map<string, Node>, childId: string) returns (c: Option<nat>)
    requires UniquePrefixes(prefixes) && NodesAreNamed(prefixes, nodes) && childId in nodes
    ensures c == Capacity(nodes[childId].prefix)
  {
    hide Capacity;
    var prefixDirectory := PrefixIndex(prefixes);
    PrefixIndexUnique(prefixes);
    c := if childId in prefixDirectory then Capacity(prefixDirectory[childId]) else None;
  }

  /** The children's use, read from the table filled so far. */
  method SumChildren(prefixes: seq<Prefix>, nodes: map<string, Node>, xs: seq<IpAddress>, id: string,
                     childConsumption: map<string, Option<nat>>) returns (childUsed: Option<nat>)
    requires UniquePrefixes(prefixes) && WellFormed(nodes) && id in nodes && NodesAreNamed(prefixes, nodes)
    requires forall child :: child in nodes[id].childPrefixIds ==> child in childConsumption
    requires Tabulates(nodes, xs, childConsumption)
    ensures childUsed == ChildUsed(nodes, xs, id, |nodes[id].childPrefixIds|)
  {
    hide Capacity;
    hide Used;
    hide NodesAreNamed;
    childUsed := Some(0);
    for i := 0 to |nodes[id].childPrefixIds|
      invariant childUsed == ChildUsed(nodes, xs, id, i)
    {
      var childId := nodes[id].childPrefixIds[i];
      assert childId in nodes[id].childPrefixIds;
      var childCapacity := ChildCapacity(prefixes, nodes, childId);
      var childConsumed := if childConsumption[childId].Some? then childConsumption[childId] else childCapacity;
      childUsed :=
        if childUsed.None? || childConsumed.None? then None else Some(childUsed.value + childConsumed.value);
    }
  }

  /** The pass over the nodes: each node is accounted for after all of its children. */
  method AccountDeepestFirst(prefixes: seq<Prefix>, nodes: map<string, Node>, ordered: seq<string>,
                             xs: seq<IpAddress>, byPrefix: map<string, seq<IpAddress>>)
    returns (utilization: map<string, Utilization>)
    requires UniquePrefixes(prefixes) && NodesAreNamed(prefixes, nodes) && WellFormed(nodes)
    requires Sorted(ordered, DeepestFirst(nodes)) && forall id :: id in ordered <==> id in nodes
    requires forall id :: Bucket(byPrefix, id) == DirectAddresses(xs, |xs|, id)
    ensures forall id :: id in utilization <==> id in nodes
    ensures forall id :: id in utilization ==> utilization[id] == UtilizationOf(nodes, xs, id)
  {
    hide NodesAreNamed, UtilizationOf, WellFormed, Sorted, DeepestFirst, UniquePrefixes, Bucket, DirectAddresses;
    hide Tabulates;
    var childConsumption: map<string, Option<nat>> := map[];
    utilization := map[];
    TabulatesNothing(nodes, xs);
    for i := 0 to |ordered|
      invariant forall k :: 0 <= k < i ==> ordered[k] in childConsumption
      invariant Tabulates(nodes, xs, childConsumption)
      invariant forall id :: id in utilization <==> id in childConsumption
      invariant forall id :: id in utilization ==> id in nodes && utilization[id] == UtilizationOf(nodes, xs, id)
    {
      var id := ordered[i];
      assert id in nodes;
      var record := AccountNode(prefixes, nodes, ordered, i, xs, byPrefix, childConsumption);
      TabulatesMore(nodes, xs, childConsumption, id, record.usedAddresses);
      childConsumption := childConsumption[id := record.usedAddresses];
      utilization := utilization[id := record];
    }
    AllTabulated(nodes, xs, childConsumption);
  }

  lemma TabulatesNothing(nodes: map<string, Node>, xs: seq<IpAddress>)
    requires WellFormed(nodes)
    ensures Tabulates(nodes, xs, map[])
  {
  }

  lemma {:induction false} TabulatesMore(nodes: map<string, Node>, xs: seq<IpAddress>,
                                         table: map<string, Option<nat>>, id: string, used: Option<nat>)
    requires WellFormed(nodes) && Tabulates(nodes, xs, table) && id in nodes && used == Used(nodes, xs, id)
    ensures Tabulates(nodes, xs, table[id := used])
  {
    hide WellFormed, Used;
  }

  lemma AllTabulated(nodes: map<string, Node>, xs: seq<IpAddress>, table: map<string, Option<nat>>)
    requires WellFormed(nodes) && Tabulates(nodes, xs, table)
    ensures forall id :: id in table ==> id in nodes
  {
    hide WellFormed, Used;
  }

  /** The record of the next node, once everything before it in the order is tabulated. */
  method AccountNode(prefixes: seq<Prefix>, nodes: map<string, Node>, ordered: seq<string>, i: nat,
                     xs: seq<IpAddress>, byPrefix: map<string, seq<IpAddress>>,
                     childConsumption: map<string, Option<nat>>)
    returns (record: Utilization)
    requires UniquePrefixes(prefixes) && NodesAreNamed(prefixes, nodes) && WellFormed(nodes)
    requires Sorted(ordered, DeepestFirst(nodes)) && forall id :: id in ordered <==> id in nodes
    requires i < |ordered| && ordered[i] in nodes
    requires Bucket(byPrefix, ordered[i]) == DirectAddresses(xs, |xs|, ordered[i])
    requires forall k :: 0 <= k < i ==> ordered[k] in childConsumption
    requires Tabulates(nodes, xs, childConsumption)
    ensures record == UtilizationOf(nodes, xs, ordered[i])
    ensures record.usedAddresses == Used(nodes, xs, ordered[i])
  {
    hide NodesAreNamed, UtilizationOf, WellFormed, Sorted, DeepestFirst, UniquePrefixes, Bucket, DirectAddresses;
    hide Tabulates;
    var id := ordered[i];
    forall child | child in nodes[id].childPrefixIds ensures child in childConsumption {
      var j := ChildComesFirst(nodes, ordered, i, child);
    }
    var childUsed := SumChildren(prefixes, nodes, xs, id, childConsumption);
    record := Account(nodes, xs, id, childUsed, |Bucket(byPrefix, id)|);
  }

  /** The directory computed in one pass equals the recursive definition over the forest of the
      list. */
  method CreatePrefixUtilizationDirectory(prefixes: seq<Prefix>, xs: seq<IpAddress>,
                                          before: (Prefix, Prefix) -> bool)
    returns (utilization: map<string, Utilization>)
    requires UniquePrefixes(prefixes)
    ensures exists tree :: IsForest(prefixes, before, tree)
    ensures forall tree :: IsForest(prefixes, before, tree) ==> Accounts(utilization, tree.nodes, xs)
    ensures forall tree :: IsForest(prefixes, before, tree) ==> AllBalanced(utilization, tree.nodes, xs)
    ensures forall id :: id in utilization ==> utilization[id].directIpCount == Attached(xs, id)
  {
    hide IsForest, UniquePrefixes, Sorted, UtilizationOf, WellFormed, NodesAreNamed;
    UniqueHasNoCircle(prefixes);
    var hierarchy := BuildPrefixHierarchy(prefixes, before);
    var byPrefix := GroupAddresses(xs);
    ForestIsWellFormed(prefixes, before, hierarchy);
    NodesNameTheirPrefix(prefixes, before, hierarchy);
    ForestOrder(prefixes, before, hierarchy);
    var ordered := SortBy(hierarchy.order, DeepestFirst(hierarchy.nodes));
    SortBySorts(hierarchy.order, DeepestFirst(hierarchy.nodes), set id | id in hierarchy.order);
    SortByFacts(hierarchy.order, DeepestFirst(hierarchy.nodes));
    utilization := AccountDeepestFirst(prefixes, hierarchy.nodes, ordered, xs, byPrefix);
    forall tree | IsForest(prefixes, before, tree)
      ensures Accounts(utilization, tree.nodes, xs) && AllBalanced(utilization, tree.nodes, xs)
    {
      ForestUnique(prefixes, before, hierarchy, tree);
      AccountsBalance(tree.nodes, xs, utilization);
    }
    forall id | id in utilization ensures utilization[id].directIpCount == Attached(xs, id) {
      assert Balanced(utilization, hierarchy.nodes, xs, id);
    }
  }

  lemma ForestOrder(prefixes: seq<Prefix>, before: (Prefix, Prefix) -> bool, tree: Tree)
    requires IsForest(prefixes, before, tree)
    ensures forall id :: id in tree.order <==> id in tree.nodes
  {
  }

  method Account(nodes: map<string, Node>, xs: seq<IpAddress>, id: string, childUsed: Option<nat>, directIpCount: nat)
    returns (record: Utilization)
    requires WellFormed(nodes) && id in nodes
    requires childUsed == ChildUsed(nodes, xs, id, |nodes[id].childPrefixIds|)
    requires directIpCount == DirectCount(xs, id)
    ensures record == UtilizationOf(nodes, xs, id)
    ensures record.usedAddresses == Used(nodes, xs, id)
  {
    hide Capacity;
    hide ChildUsed;
    var totalAddresses := Capacity(nodes[id].prefix);
    var usedAddresses :=
      if totalAddresses.None? || childUsed.None? then None
      else Some(Min(totalAddresses.value, childUsed.value + directIpCount));
    var availableAddresses :=
      if totalAddresses.None? || usedAddresses.None? then None
      else Some(Max(0, totalAddresses.value - usedAddresses.value));
    record := Utilization(totalAddresses, usedAddresses, availableAddresses, directIpCount);
  }

  lemma NodesNameTheirPrefix(prefixes: seq<Prefix>, before: (Prefix, Prefix) -> bool, tree: Tree)
    requires IsForest(prefixes, before, tree)
    ensures NodesAreNamed(prefixes, tree.nodes)
  {
    forall id | id in tree.nodes
      ensures tree.nodes[id].prefix in prefixes && tree.nodes[id].prefix.id == id
    {
      assert NodeOk(prefixes, SortBy(prefixes, before), before, id, tree.nodes[id]);
    }
  }
}
