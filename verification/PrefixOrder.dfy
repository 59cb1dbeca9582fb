/** The order of prefixes by specificity: where the comparator is an order at all, and which lists come out
    sorted by it. */
module PrefixOrder {
  import opened Wrappers
  import opened Sorting
  import opened InventoryModel
  import opened PrefixHierarchy
  import opened PrefixForest

  /** `comparePrefixSpecificity`, over a `localeCompare` passed in. */
  function CompareSpecificity(collate: (string, string) -> int, left: Prefix, right: Prefix): int {
    var l, r := ParseCidr(left.cidr), ParseCidr(right.cidr);
    if l.None? || r.None? then collate(left.id, right.id)
    else if l.value.prefixLength != r.value.prefixLength then l.value.prefixLength - r.value.prefixLength
    else if collate(left.cidr, right.cidr) != 0 then collate(left.cidr, right.cidr)
    else collate(left.id, right.id)
  }

  function BySpecificity(collate: (string, string) -> int): (Prefix, Prefix) -> bool {
    (left: Prefix, right: Prefix) => CompareSpecificity(collate, left, right) <= 0
  }

  /** The sign of a collation flips with its arguments, and its order is transitive. */
  ghost predicate Collation(collate: (string, string) -> int) {
    && (forall a, b :: collate(a, b) <= 0 <==> collate(b, a) >= 0)
    && (forall a, b, c :: collate(a, b) <= 0 && collate(b, c) <= 0 ==> collate(a, c) <= 0)
  }

  predicate Parses(p: Prefix) {
    ParseCidr(p.cidr).Some?
  }

  lemma SpecificityFlips(collate: (string, string) -> int, x: Prefix, y: Prefix)
    requires Collation(collate)
    ensures CompareSpecificity(collate, x, y) <= 0 <==> CompareSpecificity(collate, y, x) >= 0
  {
    hide ParseCidr;
  }

  /** Where one side does not parse the ids decide. */
  lemma SpecificityById(collate: (string, string) -> int, x: Prefix, y: Prefix)
    requires !Parses(x) || !Parses(y)
    ensures CompareSpecificity(collate, x, y) == collate(x.id, y.id)
  {
    hide ParseCidr;
  }

  /** An unparsed prefix that the ids put between two parsed ones lies between them by specificity too,
      and strictly where the ids are strict. */
  ghost predicate Between(collate: (string, string) -> int, x: Prefix, u: Prefix, y: Prefix) {
    (collate(x.id, u.id) <= 0 && collate(u.id, y.id) <= 0) ==>
      && CompareSpecificity(collate, x, y) <= 0
      && ((collate(x.id, u.id) < 0 || collate(u.id, y.id) < 0) ==> CompareSpecificity(collate, x, y) < 0)
  }

  ghost predicate UnparsedFit(collate: (string, string) -> int, domain: set<Prefix>) {
    forall x, u, y :: x in domain && u in domain && y in domain && Parses(x) && !Parses(u) && Parses(y) ==>
                        Between(collate, x, u, y)
  }

  lemma PreorderMeansBetween(collate: (string, string) -> int, domain: set<Prefix>, x: Prefix, u: Prefix, y: Prefix)
    requires Collation(collate) && PreorderOn(domain, BySpecificity(collate))
    requires x in domain && u in domain && y in domain && Parses(x) && !Parses(u) && Parses(y)
    ensures Between(collate, x, u, y)
  {
    var before := BySpecificity(collate);
    SpecificityById(collate, x, u);
    SpecificityById(collate, u, y);
    SpecificityById(collate, u, x);
    SpecificityById(collate, y, u);
    SpecificityFlips(collate, x, y);
    hide ParseCidr, CompareSpecificity;
    if collate(x.id, u.id) <= 0 && collate(u.id, y.id) <= 0 {
      assert before(x, u) && before(u, y) && before(x, y);
      if before(y, x) {
        assert before(u, x) && before(y, u);
      }
    }
  }

  lemma ParsedChain(collate: (string, string) -> int, x: Prefix, y: Prefix, z: Prefix)
    requires Collation(collate) && Parses(x) && Parses(y) && Parses(z)
    requires CompareSpecificity(collate, x, y) <= 0 && CompareSpecificity(collate, y, z) <= 0
    ensures CompareSpecificity(collate, x, z) <= 0
  {
    hide ParseCidr;
    CollationChain(collate, x.cidr, y.cidr, z.cidr);
    CollationChain(collate, x.id, y.id, z.id);
  }

  lemma FittingChain(collate: (string, string) -> int, domain: set<Prefix>, x: Prefix, y: Prefix, z: Prefix)
    requires Collation(collate) && UnparsedFit(collate, domain) && x in domain && y in domain && z in domain
    requires CompareSpecificity(collate, x, y) <= 0 && CompareSpecificity(collate, y, z) <= 0
    ensures CompareSpecificity(collate, x, z) <= 0
  {
    if Parses(x) && Parses(y) && Parses(z) {
      ParsedChain(collate, x, y, z);
    } else {
      forall p, q | p in {x, y, z} && q in {x, y, z} && (!Parses(p) || !Parses(q))
        ensures CompareSpecificity(collate, p, q) == collate(p.id, q.id)
      {
        SpecificityById(collate, p, q);
      }
      SpecificityFlips(collate, x, y);
      SpecificityFlips(collate, y, z);
      hide ParseCidr, CompareSpecificity, Parses;
      if Parses(x) && !Parses(y) && Parses(z) {
        assert Between(collate, x, y, z);
      } else if Parses(x) && Parses(y) {
        assert Between(collate, y, z, x);
      } else if Parses(y) && Parses(z) {
        assert Between(collate, z, x, y);
      }
    }
  }

  /** The comparator is a total preorder of a set of prefixes exactly when every unparsed one fits in where
      its id puts it. */
  lemma SpecificityIsPreorderIff(collate: (string, string) -> int, domain: set<Prefix>)
    requires Collation(collate)
    ensures PreorderOn(domain, BySpecificity(collate)) <==> UnparsedFit(collate, domain)
  {
    hide ParseCidr, CompareSpecificity, Between, Parses, Collation;
    var before := BySpecificity(collate);
    if PreorderOn(domain, before) {
      forall x, u, y | x in domain && u in domain && y in domain && Parses(x) && !Parses(u) && Parses(y)
        ensures Between(collate, x, u, y)
      {
        PreorderMeansBetween(collate, domain, x, u, y);
      }
    }
    if UnparsedFit(collate, domain) {
      forall x, y | x in domain && y in domain ensures before(x, y) || before(y, x) {
        SpecificityFlips(collate, x, y);
      }
      forall x, y, z | x in domain && y in domain && z in domain && before(x, y) && before(y, z) ensures before(x, z) {
        FittingChain(collate, domain, x, y, z);
      }
    }
  }

  /** Among prefixes that all parse, the comparator orders by length, then text, then id. */
  lemma SpecificityIsPreorder(collate: (string, string) -> int, domain: set<Prefix>)
    requires Collation(collate) && forall p :: p in domain ==> Parses(p)
    ensures PreorderOn(domain, BySpecificity(collate))
  {
    hide Parses, PreorderOn;
    SpecificityIsPreorderIff(collate, domain);
  }

  /** Where the unparsed prefixes fit in, the whole list and its roots come out sorted. */
  lemma {:induction false} FittingListSorted(prefixes: seq<Prefix>, collate: (string, string) -> int)
    requires Collation(collate) && UnparsedFit(collate, set p | p in prefixes)
    ensures var ordered := SortBy(prefixes, BySpecificity(collate));
            && Sorted(ordered, BySpecificity(collate))
            && Sorted(RootsAmong(ordered, |ordered|), BySpecificity(collate))
  {
    var before := BySpecificity(collate);
    var domain := set p | p in prefixes;
    hide UnparsedFit, Collation, BySpecificity, SortBy;
    SpecificityIsPreorderIff(collate, domain);
    SortBySorts(prefixes, before, domain);
    RootsStaySorted(SortBy(prefixes, before), |SortBy(prefixes, before)|, before);
  }

  lemma {:induction false} RootsStaySorted(ordered: seq<Prefix>, n: nat, before: (Prefix, Prefix) -> bool)
    requires n <= |ordered| && Sorted(ordered, before)
    ensures Sorted(RootsAmong(ordered, n), before)
  {
    if n > 0 {
      RootsStaySorted(ordered, n - 1, before);
      RootsFacts(ordered, n - 1);
      var roots := RootsAmong(ordered, n - 1);
      forall i | 0 <= i < |roots| ensures before(roots[i], ordered[n - 1]) {
        assert roots[i] in ordered[..n - 1];
      }
    }
  }

  lemma CollationChain(collate: (string, string) -> int, a: string, b: string, c: string)
    requires Collation(collate)
    ensures collate(a, b) <= 0 && collate(b, c) <= 0 ==>
              collate(a, c) <= 0 && (collate(a, c) == 0 ==> collate(a, b) == 0 && collate(b, c) == 0)
  {
  }

  /** The comparator compares ids when one side does not parse, and so is no preorder of all prefixes,
      whatever the collation: an unparsed prefix stands between a longer and a shorter one. */
  lemma SpecificityIsNoPreorder(collate: (string, string) -> int)
    ensures !TotalPreorder(BySpecificity(collate))
  {
    SampleCidrParses(16);
    SampleCidrParses(8);
    var longer, shorter := SamplePrefix("a", None, 16), SamplePrefix("a", None, 8);
    var unparsed := longer.(cidr := "");
    assert ParseCidr("").None?;
    hide ParseCidr, SampleCidr;
    var before := BySpecificity(collate);
    assert before(longer, unparsed) == before(unparsed, shorter) == before(unparsed, unparsed);
    assert !before(longer, shorter);
  }

  lemma {:induction false} ChildrenSorted(ordered: seq<Prefix>, n: nat, id: string, before: (Prefix, Prefix) -> bool,
                                          domain: set<Prefix>)
    requires n <= |ordered| && PreorderOn(domain, before)
    requires forall p :: p in ordered && IsChildOf(p, id) ==> p in domain
    ensures Sorted(ChildrenAmong(ordered, n, id, before), before)
  {
    if n > 0 {
      ChildrenSorted(ordered, n - 1, id, before, domain);
      ChildrenFacts(ordered, n - 1, id, before);
      if IsChildOf(ordered[n - 1], id) {
        SortBySorts(ChildrenAmong(ordered, n - 1, id, before) + [ordered[n - 1]], before, domain);
      }
    }
  }

  /** In an accepted hierarchy every bucket of children is sorted by the program's own comparator:
      from the least specific child to the most specific. */
  lemma {:induction false} ChildrenBySpecificity(prefixes: seq<Prefix>, collate: (string, string) -> int, id: string)
    requires HierarchyOk(prefixes) && Collation(collate)
    ensures var before := BySpecificity(collate); var ordered := SortBy(prefixes, before);
            var children := ChildrenAmong(ordered, |ordered|, id, before);
            && Sorted(children, before)
            && forall i, j :: 0 <= i < j < |children| ==> Length(children[i]) <= Length(children[j])
  {
    var before := BySpecificity(collate);
    var ordered := SortBy(prefixes, before);
    var children := ChildrenAmong(ordered, |ordered|, id, before);
    var domain := set p | p in prefixes && IsChildOf(p, id);
    ChildrenParse(prefixes, id);
    hide ParseCidr, HierarchyOk, Collation, ChildrenAmong, SortBy, BySpecificity;
    SortByFacts(prefixes, before);
    SpecificityIsPreorder(collate, domain);
    ChildrenSorted(ordered, |ordered|, id, before, domain);
    ChildrenFacts(ordered, |ordered|, id, before);
    forall i, j | 0 <= i < j < |children| ensures Length(children[i]) <= Length(children[j]) {
      assert children[i] in children && children[j] in children;
      SpecificityIsByLength(collate, children[i], children[j]);
    }
  }

  lemma ChildrenParse(prefixes: seq<Prefix>, id: string)
    requires HierarchyOk(prefixes)
    ensures forall p :: p in prefixes && IsChildOf(p, id) ==> ParseCidr(p.cidr).Some?
  {
    hide ParseCidr, PrefixIndex;
    forall p | p in prefixes && IsChildOf(p, id) ensures ParseCidr(p.cidr).Some? {
      assert EdgeOk(prefixes, p);
    }
  }

  lemma SpecificityIsByLength(collate: (string, string) -> int, p: Prefix, q: Prefix)
    requires ParseCidr(p.cidr).Some? && ParseCidr(q.cidr).Some? && BySpecificity(collate)(p, q)
    ensures Length(p) <= Length(q)
  {
    hide ParseCidr;
  }
}
