/** The prefix hierarchy of the IPAM domain package: shape checks and the validator with its ancestor
    walk. */
module PrefixHierarchy {
  import opened Wrappers
  import opened JsText
  import opened InventoryModel
  import Ipv4

  datatype Cidr = Cidr(network: string, prefixLength: int)

  function ParseCidr(cidr: string): Option<Cidr> {
    var parts := Split(cidr, '/');
    if parts[0] == "" || |parts| < 2 then None
    else
      match JsInteger(parts[1])
      case None => None
      case Some(prefixLength) => Some(Cidr(parts[0], prefixLength))
  }

  predicate ValidPrefixLength(family: Family, prefixLength: int) {
    0 <= prefixLength <= if family == V4 then 32 else 128
  }

  predicate ValidCidrShape(family: Family, cidr: string) {
    ParseCidr(cidr).Some? && ValidPrefixLength(family, ParseCidr(cidr).value.prefixLength)
  }

  /** The shape is checked exactly: some text, a slash and a prefix length that fits the family. */
  lemma {:induction false} CidrShapeIff(family: Family, network: string, n: nat)
    requires '/' !in network
    ensures !ValidCidrShape(family, network)
    ensures ParseCidr(network + "/" + Decimal(n)) == if network == "" then None else Some(Cidr(network, n))
    ensures ValidCidrShape(family, network + "/" + Decimal(n)) <==>
            network != "" && n <= if family == V4 then 32 else 128
  {
    var text := Decimal(n);
    DecimalFree(n);
    SplitOne(network, '/');
    assert network + "/" + text == network + ['/'] + text;
    SplitFirst(network, '/', text);
    SplitOne(text, '/');
    JsIntegerReads(n);
    hide Decimal, JsInteger;
  }

  lemma {:induction false} DecimalFree(n: nat)
    ensures '/' !in Decimal(n)
  {
    hide Decimal;
  }

  /** Both parsers read the same prefix length from a CIDR that denotes a range. */
  lemma ParsersAgree(cidr: string)
    requires Ipv4.ParseRange(cidr).Some?
    ensures ParseCidr(cidr).Some?
    ensures ParseCidr(cidr).value.prefixLength == Ipv4.ParseRange(cidr).value.prefixLength
  {
  }

  /** The prefix length, or 0 where the CIDR does not parse. */
  function Length(p: Prefix): int {
    match ParseCidr(p.cidr)
    case None => 0
    case Some(parsed) => parsed.prefixLength
  }

  // ----- the validator

  datatype Verdict =
    | Accepted
    | ParentNotFound(parentId: string)
    | DifferentVrf(id: string)
    | InvalidCidr
    | NotMoreSpecific(id: string)
    | Cycle(id: string)

  /** A declared parent resolves, shares the VRF, parses and is strictly less specific. */
  ghost predicate EdgeOk(prefixes: seq<Prefix>, p: Prefix) {
    Truthy(p.parentPrefixId) ==>
      && p.parentPrefixId.value in PrefixIndex(prefixes)
      && var parent := PrefixIndex(prefixes)[p.parentPrefixId.value];
      && parent.vrfId == p.vrfId
      && ParseCidr(parent.cidr).Some? && ParseCidr(p.cidr).Some?
      && Length(parent) < Length(p)
  }

  ghost predicate HierarchyOk(prefixes: seq<Prefix>) {
    forall p :: p in prefixes ==> EdgeOk(prefixes, p)
  }

  /** The declared ancestor `n` steps up, if the chain is that long. */
  function Ancestor(prefixes: seq<Prefix>, p: Prefix, n: nat): Option<Prefix>
    decreases n
  {
    if n == 0 then Some(p)
    else if !Truthy(p.parentPrefixId) || p.parentPrefixId.value !in PrefixIndex(prefixes) then None
    else Ancestor(prefixes, PrefixIndex(prefixes)[p.parentPrefixId.value], n - 1)
  }

  /** The `n`th ancestor has the id of the `m`th, and a parent of its own. */
  ghost predicate RepeatsAt(prefixes: seq<Prefix>, p: Prefix, m: nat, n: nat) {
    && Ancestor(prefixes, p, m).Some? && Ancestor(prefixes, p, n).Some?
    && Ancestor(prefixes, p, m).value.id == Ancestor(prefixes, p, n).value.id
    && Truthy(Ancestor(prefixes, p, n).value.parentPrefixId)
  }

  /** The chain of ancestors meets an id twice before it ends. */
  ghost predicate ChainRepeats(prefixes: seq<Prefix>, p: Prefix) {
    exists m: nat, n: nat :: m < n && RepeatsAt(prefixes, p, m, n)
  }

  /** The walk up from `p` first meets an id again at the ancestor with this id. */
  ghost predicate RepeatsFirst(prefixes: seq<Prefix>, p: Prefix, id: string) {
    exists m: nat, n: nat ::
      && m < n && RepeatsAt(prefixes, p, m, n) && Ancestor(prefixes, p, n).value.id == id
      && forall i: nat, j: nat :: i < j < n ==> !RepeatsAt(prefixes, p, i, j)
  }

  /** What a verdict says of the prefix it is about. */
  ghost predicate Diagnoses(prefixes: seq<Prefix>, p: Prefix, verdict: Verdict) {
    var directory := PrefixIndex(prefixes);
    if verdict.Accepted? then EdgeOk(prefixes, p) && !ChainRepeats(prefixes, p)
    else if verdict.Cycle? then EdgeOk(prefixes, p) && RepeatsFirst(prefixes, p, verdict.id)
    else Truthy(p.parentPrefixId) && match verdict
         case ParentNotFound(parentId) => p.parentPrefixId == Some(parentId) && parentId !in directory
         case _ =>
           && p.parentPrefixId.value in directory
           && var parent := directory[p.parentPrefixId.value];
           if parent.vrfId != p.vrfId then verdict == DifferentVrf(p.id)
           else if ParseCidr(parent.cidr).None? || ParseCidr(p.cidr).None? then verdict == InvalidCidr
           else verdict == NotMoreSpecific(p.id) && Length(p) <= Length(parent)
  }

  /** The verdict is about the first prefix of the list with a fault. */
  ghost predicate DiagnosesFirst(prefixes: seq<Prefix>, verdict: Verdict) {
    exists i :: 0 <= i < |prefixes| && Diagnoses(prefixes, prefixes[i], verdict)
                && forall k :: 0 <= k < i ==> EdgeOk(prefixes, prefixes[k]) && !ChainRepeats(prefixes, prefixes[k])
  }

  /** The verdict on any list: accepted exactly when every edge is sound and no chain of ancestors
      repeats an id. With unique ids the second condition follows from the first. */
  method ValidatePrefixHierarchy(prefixes: seq<Prefix>) returns (verdict: Verdict)
    ensures verdict.Accepted? <==> HierarchyOk(prefixes) && forall p :: p in prefixes ==> !ChainRepeats(prefixes, p)
    ensures !verdict.Accepted? && !verdict.Cycle? ==> !HierarchyOk(prefixes)
    ensures !verdict.Accepted? ==> DiagnosesFirst(prefixes, verdict)
    ensures UniquePrefixes(prefixes) ==> (verdict.Accepted? <==> HierarchyOk(prefixes))
  {
    hide EdgeOk, PrefixIndex, UniquePrefixes, Length, ChainRepeats, Diagnoses;
    var directory := PrefixIndex(prefixes);
    for i := 0 to |prefixes|
      invariant forall k :: 0 <= k < i ==> EdgeOk(prefixes, prefixes[k]) && !ChainRepeats(prefixes, prefixes[k])
    {
      var prefix := prefixes[i];
      if Truthy(prefix.parentPrefixId) {
        verdict := CheckEdge(prefixes, directory, prefix);
        if !verdict.Accepted? {
          return;
        }
        verdict := WalkAncestors(prefixes, directory, prefix, directory[prefix.parentPrefixId.value]);
        if verdict.Cycle? {
          CycleDiagnosed(prefixes, prefix, verdict.id);
          return;
        }
      } else {
        RootIsSound(prefixes, prefix);
      }
    }
    verdict := Accepted;
  }

  lemma CycleDiagnosed(prefixes: seq<Prefix>, p: Prefix, id: string)
    requires EdgeOk(prefixes, p) && RepeatsFirst(prefixes, p, id)
    ensures Diagnoses(prefixes, p, Cycle(id))
  {
  }

  lemma RootIsSound(prefixes: seq<Prefix>, prefix: Prefix)
    requires !Truthy(prefix.parentPrefixId)
    ensures EdgeOk(prefixes, prefix) && !ChainRepeats(prefixes, prefix)
  {
    hide PrefixIndex;
    forall n: nat | n > 0 ensures Ancestor(prefixes, prefix, n).None? {
    }
  }

  /** One step up from the `n`th ancestor is the next one. */
  lemma {:induction false} AncestorNext(prefixes: seq<Prefix>, p: Prefix, n: nat)
    ensures Ancestor(prefixes, p, n + 1)
         == if Ancestor(prefixes, p, n).None? then None else Ancestor(prefixes, Ancestor(prefixes, p, n).value, 1)
    decreases n
  {
    hide PrefixIndex;
    if n > 0 && Truthy(p.parentPrefixId) && p.parentPrefixId.value in PrefixIndex(prefixes) {
      AncestorNext(prefixes, PrefixIndex(prefixes)[p.parentPrefixId.value], n - 1);
    }
  }

  /** Past the end of the chain there is no ancestor. */
  lemma {:induction false} ChainEnds(prefixes: seq<Prefix>, p: Prefix, k: nat, n: nat)
    requires Ancestor(prefixes, p, k).Some? ==> !Truthy(Ancestor(prefixes, p, k).value.parentPrefixId)
    requires k < n
    ensures Ancestor(prefixes, p, n).None?
    decreases n
  {
    hide PrefixIndex;
    AncestorNext(prefixes, p, n - 1);
    if k < n - 1 {
      ChainEnds(prefixes, p, k, n - 1);
    }
  }

  /** The ids visited are those of the first `k` ancestors, which are all different. */
  ghost predicate Walked(prefixes: seq<Prefix>, p: Prefix, visited: set<string>, k: nat) {
    && (forall m: nat :: m < k ==> Ancestor(prefixes, p, m).Some? && Ancestor(prefixes, p, m).value.id in visited)
    && (forall id :: id in visited ==> exists m: nat :: m < k && VisitedAt(prefixes, p, m, id))
    && (forall m: nat, n: nat :: m < n < k ==> !RepeatsAt(prefixes, p, m, n))
  }

  ghost predicate VisitedAt(prefixes: seq<Prefix>, p: Prefix, m: nat, id: string) {
    Ancestor(prefixes, p, m).Some? && Ancestor(prefixes, p, m).value.id == id
  }

  lemma WalkBegins(prefixes: seq<Prefix>, p: Prefix)
    ensures Walked(prefixes, p, {p.id}, 1)
  {
    assert VisitedAt(prefixes, p, 0, p.id);
  }

  lemma {:induction false} WalkOneMore(prefixes: seq<Prefix>, p: Prefix, visited: set<string>, k: nat)
    requires Walked(prefixes, p, visited, k) && Ancestor(prefixes, p, k).Some?
    requires Ancestor(prefixes, p, k).value.id !in visited
    ensures Walked(prefixes, p, visited + {Ancestor(prefixes, p, k).value.id}, k + 1)
  {
    hide Ancestor;
    var id := Ancestor(prefixes, p, k).value.id;
    assert VisitedAt(prefixes, p, k, id);
    forall other | other in visited ensures exists m: nat :: m < k + 1 && VisitedAt(prefixes, p, m, other) {
      var m: nat :| m < k && VisitedAt(prefixes, p, m, other);
    }
  }

  lemma {:induction false} WalkMeetsItself(prefixes: seq<Prefix>, p: Prefix, visited: set<string>, k: nat)
    requires Walked(prefixes, p, visited, k) && Ancestor(prefixes, p, k).Some?
    requires Truthy(Ancestor(prefixes, p, k).value.parentPrefixId) && Ancestor(prefixes, p, k).value.id in visited
    ensures ChainRepeats(prefixes, p)
    ensures RepeatsFirst(prefixes, p, Ancestor(prefixes, p, k).value.id)
  {
    hide Ancestor;
    var m: nat :| m < k && VisitedAt(prefixes, p, m, Ancestor(prefixes, p, k).value.id);
    assert RepeatsAt(prefixes, p, m, k);
  }

  lemma {:induction false} EarlierDiffer(prefixes: seq<Prefix>, p: Prefix, visited: set<string>, k: nat, m: nat, n: nat)
    requires Walked(prefixes, p, visited, k) && m < n < k
    ensures !RepeatsAt(prefixes, p, m, n)
  {
    hide RepeatsAt, VisitedAt;
  }

  lemma {:induction false} WalkReachesEnd(prefixes: seq<Prefix>, p: Prefix, visited: set<string>, k: nat)
    requires Walked(prefixes, p, visited, k)
    requires Ancestor(prefixes, p, k).Some? ==> !Truthy(Ancestor(prefixes, p, k).value.parentPrefixId)
    ensures !ChainRepeats(prefixes, p)
  {
    hide Ancestor, Walked;
    forall m: nat, n: nat | m < n ensures !RepeatsAt(prefixes, p, m, n) {
      if n > k {
        ChainEnds(prefixes, p, k, n);
      } else if n < k {
        EarlierDiffer(prefixes, p, visited, k, m, n);
      }
    }
  }

  /** Unique ids and sound edges leave no repetition: prefix lengths fall along the chain. */
  lemma SoundDoesNotRepeat(prefixes: seq<Prefix>, p: Prefix)
    requires UniquePrefixes(prefixes) && HierarchyOk(prefixes) && p in prefixes
    ensures !ChainRepeats(prefixes, p)
  {
    hide Ancestor, HierarchyOk, UniquePrefixes, Length;
    forall m: nat, n: nat | m < n && Ancestor(prefixes, p, m).Some? && Ancestor(prefixes, p, n).Some?
      ensures Ancestor(prefixes, p, m).value.id != Ancestor(prefixes, p, n).value.id
    {
      AncestorsAreListed(prefixes, p, m);
      AncestorOfAncestor(prefixes, p, m, n - m);
      var q := Ancestor(prefixes, p, m).value;
      AcceptedIsAcyclic(prefixes, q, n - m);
      AncestorsAreListed(prefixes, q, n - m);
      DistinctLengths(prefixes, q, Ancestor(prefixes, q, n - m).value);
    }
  }

  lemma DistinctLengths(prefixes: seq<Prefix>, q: Prefix, r: Prefix)
    requires UniquePrefixes(prefixes) && q in prefixes && r in prefixes && Length(r) < Length(q)
    ensures q.id != r.id
  {
    hide Length;
  }

  lemma {:induction false} AncestorsAreListed(prefixes: seq<Prefix>, p: Prefix, n: nat)
    requires UniquePrefixes(prefixes) && p in prefixes && Ancestor(prefixes, p, n).Some?
    ensures Ancestor(prefixes, p, n).value in prefixes
    decreases n
  {
    PrefixIndexUnique(prefixes);
    if n > 0 {
      AncestorsAreListed(prefixes, PrefixIndex(prefixes)[p.parentPrefixId.value], n - 1);
    }
  }

  lemma {:induction false} AncestorOfAncestor(prefixes: seq<Prefix>, p: Prefix, m: nat, n: nat)
    requires Ancestor(prefixes, p, m).Some?
    ensures Ancestor(prefixes, p, m + n) == Ancestor(prefixes, Ancestor(prefixes, p, m).value, n)
    decreases m
  {
    hide PrefixIndex;
    if m > 0 {
      AncestorOfAncestor(prefixes, PrefixIndex(prefixes)[p.parentPrefixId.value], m - 1, n);
    }
  }

  method CheckEdge(prefixes: seq<Prefix>, directory: map<string, Prefix>, prefix: Prefix) returns (verdict: Verdict)
    requires directory == PrefixIndex(prefixes) && Truthy(prefix.parentPrefixId)
    ensures !verdict.Cycle?
    ensures verdict.Accepted? <==> EdgeOk(prefixes, prefix)
    ensures verdict.Accepted? || Diagnoses(prefixes, prefix, verdict)
    ensures verdict.Accepted? ==> prefix.parentPrefixId.value in directory
    ensures verdict.Accepted? ==> Length(directory[prefix.parentPrefixId.value]) < Length(prefix)
    ensures verdict.ParentNotFound? <==> prefix.parentPrefixId.value !in directory
    ensures verdict.ParentNotFound? ==> verdict.parentId == prefix.parentPrefixId.value
    ensures verdict.DifferentVrf? <==>
            prefix.parentPrefixId.value in directory && directory[prefix.parentPrefixId.value].vrfId != prefix.vrfId
    ensures verdict.DifferentVrf? || verdict.NotMoreSpecific? ==> verdict.id == prefix.id
    ensures verdict.InvalidCidr? <==>
            && prefix.parentPrefixId.value in directory && directory[prefix.parentPrefixId.value].vrfId == prefix.vrfId
            && (ParseCidr(directory[prefix.parentPrefixId.value].cidr).None? || ParseCidr(prefix.cidr).None?)
  {
    hide ParseCidr;
    var parentId := prefix.parentPrefixId.value;
    if parentId !in directory {
      return ParentNotFound(parentId);
    }
    var parent := directory[parentId];
    if parent.vrfId != prefix.vrfId {
      return DifferentVrf(prefix.id);
    }
    if ParseCidr(parent.cidr).None? || ParseCidr(prefix.cidr).None? {
      return InvalidCidr;
    }
    if Length(prefix) <= Length(parent) {
      return NotMoreSpecific(prefix.id);
    }
    verdict := Accepted;
  }

  /** The ancestor walk reports a cycle exactly when the chain repeats an id, which it never does in
      a list of unique ids with sound edges. */
  method WalkAncestors(prefixes: seq<Prefix>, directory: map<string, Prefix>, prefix: Prefix, parent: Prefix)
    returns (verdict: Verdict)
    requires directory == PrefixIndex(prefixes) && prefix in prefixes
    requires Truthy(prefix.parentPrefixId) && prefix.parentPrefixId.value in directory
    requires parent == directory[prefix.parentPrefixId.value]
    ensures verdict.Accepted? || verdict.Cycle?
    ensures verdict.Cycle? <==> ChainRepeats(prefixes, prefix)
    ensures verdict.Cycle? ==> RepeatsFirst(prefixes, prefix, verdict.id)
    ensures UniquePrefixes(prefixes) && HierarchyOk(prefixes) ==> verdict.Accepted?
  {
    var visited := {prefix.id};
    var cursor := Some(parent);
    ghost var k: nat := 1;
    assert Ancestor(prefixes, prefix, 1) == cursor;
    if UniquePrefixes(prefixes) && HierarchyOk(prefixes) {
      SoundDoesNotRepeat(prefixes, prefix);
    }
    WalkBegins(prefixes, prefix);
    hide Walked, PrefixIndex, ChainRepeats, RepeatsFirst, HierarchyOk, UniquePrefixes;
    while cursor.Some? && Truthy(cursor.value.parentPrefixId)
      invariant cursor == Ancestor(prefixes, prefix, k)
      invariant Walked(prefixes, prefix, visited, k)
      invariant cursor.Some? ==> cursor.value.id in directory
      decreases directory.Keys - visited, cursor.Some?
    {
      var current := cursor.value;
      if current.id in visited {
        WalkMeetsItself(prefixes, prefix, visited, k);
        return Cycle(current.id);
      }
      WalkOneMore(prefixes, prefix, visited, k);
      AncestorNext(prefixes, prefix, k);
      visited := visited + {current.id};
      var parentId := current.parentPrefixId.value;
      cursor := if parentId in directory then Some(directory[parentId]) else None;
      k := k + 1;
    }
    WalkReachesEnd(prefixes, prefix, visited, k);
    verdict := Accepted;
  }

  lemma {:induction false} SameLookups(ps: seq<Prefix>, qs: seq<Prefix>)
    requires UniquePrefixes(ps) && UniquePrefixes(qs)
    requires forall p :: p in ps <==> p in qs
    ensures PrefixIndex(ps) == PrefixIndex(qs)
  {
    PrefixIndexUnique(ps);
    PrefixIndexUnique(qs);
    hide UniquePrefixes;
    var m, n := PrefixIndex(ps), PrefixIndex(qs);
    forall id | id in m ensures id in n && n[id] == m[id] {
      assert m[id] in ps && m[id] in qs;
    }
    forall id | id in n ensures id in m {
      assert n[id] in qs && n[id] in ps;
    }
  }

  /** The verdict does not depend on the order of the list. */
  lemma {:induction false} VerdictIgnoresOrder(ps: seq<Prefix>, qs: seq<Prefix>)
    requires UniquePrefixes(ps) && UniquePrefixes(qs)
    requires forall p :: p in ps <==> p in qs
    ensures HierarchyOk(ps) <==> HierarchyOk(qs)
  {
    SameLookups(ps, qs);
    hide UniquePrefixes, PrefixIndex, Length, ParseCidr;
    forall p | p in ps ensures EdgeOk(ps, p) <==> EdgeOk(qs, p) {
    }
  }

  /** An accepted hierarchy has no cycle: every proper ancestor is strictly less specific and in the same VRF. */
  lemma {:induction false} AcceptedIsAcyclic(prefixes: seq<Prefix>, p: Prefix, n: nat)
    requires HierarchyOk(prefixes) && p in prefixes && n > 0 && Ancestor(prefixes, p, n).Some?
    ensures var q := Ancestor(prefixes, p, n).value; q != p && Length(q) < Length(p) && q.vrfId == p.vrfId
    decreases n
  {
    assert EdgeOk(prefixes, p);
    if n > 1 {
      AcceptedIsAcyclic(prefixes, PrefixIndex(prefixes)[p.parentPrefixId.value], n - 1);
    }
  }

  function SampleCidr(length: nat): string {
    "10.0.0.0/" + Decimal(length)
  }

  lemma SampleCidrParses(length: nat)
    ensures ParseCidr(SampleCidr(length)) == Some(Cidr("10.0.0.0", length))
  {
    CidrShapeIff(V4, "10.0.0.0", length);
    assert "10.0.0.0" + "/" + Decimal(length) == SampleCidr(length);
    hide ParseCidr, Decimal;
  }

  function SamplePrefix(id: string, parentId: Option<string>, length: nat): Prefix {
    Prefix(id, None, parentId, SampleCidr(length), V4, "active", "pool", None)
  }

  /** Unique ids are needed: with a repeated id every edge can be sound and the ancestor chain of
      a prefix still meets its own id, which the walk reports as a cycle. */
  lemma {:induction false} RepeatedIdsCanLookCyclic(a: Prefix, b: Prefix, a': Prefix, c: Prefix)
    requires a.id == a'.id && a.id != b.id && b.id != c.id && a.id != c.id
    requires a.id != "" && b.id != "" && c.id != ""
    requires a.parentPrefixId == Some(b.id) && b.parentPrefixId == Some(a.id)
    requires a'.parentPrefixId == Some(c.id) && c.parentPrefixId == None
    requires a.vrfId == b.vrfId == a'.vrfId == c.vrfId
    requires forall p :: p in {a, b, a', c} ==> ParseCidr(p.cidr).Some?
    requires Length(c) < Length(a') < Length(b) < Length(a)
    ensures HierarchyOk([a, b, a', c])
    ensures ChainRepeats([a, b, a', c], a)
  {
    hide ParseCidr;
    hide Length;
    var ps := [a, b, a', c];
    IndexOfFour(a, b, a', c);
    hide PrefixIndex;
    assert Ancestor(ps, b, 1) == Some(a');
    assert EdgeOk(ps, a);
    assert EdgeOk(ps, b);
    assert EdgeOk(ps, a');
    assert EdgeOk(ps, c);
    assert RepeatsAt(ps, a, 0, 2);
    hide EdgeOk;
  }

  lemma RepeatedIdsSample()
    ensures var ps := [SamplePrefix("a", Some("b"), 24), SamplePrefix("b", Some("a"), 16),
                       SamplePrefix("a", Some("c"), 8), SamplePrefix("c", None, 4)];
            HierarchyOk(ps) && ChainRepeats(ps, ps[0])
  {
    SampleCidrParses(24);
    SampleCidrParses(16);
    SampleCidrParses(8);
    SampleCidrParses(4);
    hide ParseCidr;
    hide SampleCidr;
    RepeatedIdsCanLookCyclic(SamplePrefix("a", Some("b"), 24), SamplePrefix("b", Some("a"), 16),
                             SamplePrefix("a", Some("c"), 8), SamplePrefix("c", None, 4));
  }

  lemma IndexAppend(ps: seq<Prefix>, p: Prefix, longer: seq<Prefix>)
    requires longer == ps + [p]
    ensures PrefixIndex(longer) == PrefixIndex(ps)[p.id := p]
  {
    assert longer[..|ps|] == ps;
  }

  lemma IndexOfTwo(a: Prefix, b: Prefix)
    ensures PrefixIndex([a, b]) == map[a.id := a][b.id := b]
  {
    assert PrefixIndex([]) == map[];
    hide PrefixIndex;
    IndexAppend([], a, [a]);
    IndexAppend([a], b, [a, b]);
  }

  lemma IndexOfFour(a: Prefix, b: Prefix, c: Prefix, d: Prefix)
    ensures PrefixIndex([a, b, c, d]) == map[a.id := a][b.id := b][c.id := c][d.id := d]
  {
    hide *;
    IndexOfTwo(a, b);
    IndexAppend([a, b], c, [a, b, c]);
    IndexAppend([a, b, c], d, [a, b, c, d]);
  }
}
