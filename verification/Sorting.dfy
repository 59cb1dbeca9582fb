/** `Array.prototype.sort`. A comparison `compare(x, y) <= 0` is passed in as `before`; it stands
    for `localeCompare` and the comparators built on it. The result is always a permutation. When
    `before` is a total preorder of the elements it is moreover the stable sorted order. */
module Sorting {
  ghost predicate TotalPreorder<T(!new)>(before: (T, T) -> bool) {
    && (forall x, y :: before(x, y) || before(y, x))
    && (forall x, y, z :: before(x, y) && before(y, z) ==> before(x, z))
  }

  /** A total preorder of the elements of `domain`. */
  ghost predicate PreorderOn<T>(domain: set<T>, before: (T, T) -> bool) {
    && (forall x, y :: x in domain && y in domain ==> before(x, y) || before(y, x))
    && (forall x, y, z :: x in domain && y in domain && z in domain && before(x, y) && before(y, z) ==> before(x, z))
  }

  ghost predicate Sorted<T>(s: seq<T>, before: (T, T) -> bool) {
    forall i, j :: 0 <= i < j < |s| ==> before(s[i], s[j])
  }

  ghost predicate NoDuplicates<T>(s: seq<T>) {
    forall i, j :: 0 <= i < j < |s| ==> s[i] != s[j]
  }

  /** Put `x` in front of a sorted list, behind no equal element: equal elements keep their order. */
  function Insert<T>(x: T, s: seq<T>, before: (T, T) -> bool): seq<T> {
    if s == [] || before(x, s[0]) then [x] + s else [s[0]] + Insert(x, s[1..], before)
  }

  function SortBy<T>(s: seq<T>, before: (T, T) -> bool): (r: seq<T>) {
    if s == [] then [] else Insert(s[0], SortBy(s[1..], before), before)
  }

  lemma {:induction false} InsertKeeps<T>(x: T, s: seq<T>, before: (T, T) -> bool)
    ensures multiset(Insert(x, s, before)) == multiset{x} + multiset(s)
  {
    if s == [] || before(x, s[0]) {
    } else {
      InsertKeeps(x, s[1..], before);
      assert s == [s[0]] + s[1..];
    }
  }

  lemma {:induction false} SortByPermutes<T>(s: seq<T>, before: (T, T) -> bool)
    ensures multiset(SortBy(s, before)) == multiset(s)
  {
    if s != [] {
      SortByPermutes(s[1..], before);
      InsertKeeps(s[0], SortBy(s[1..], before), before);
      assert s == [s[0]] + s[1..];
    }
  }

  lemma {:induction false} InsertSorted<T>(x: T, s: seq<T>, before: (T, T) -> bool, domain: set<T>)
    requires PreorderOn(domain, before) && Sorted(s, before)
    requires x in domain && forall y :: y in s ==> y in domain
    ensures Sorted(Insert(x, s, before), before)
  {
    if s == [] || before(x, s[0]) {
    } else {
      InsertSorted(x, s[1..], before, domain);
      InsertKeeps(x, s[1..], before);
      var rest := Insert(x, s[1..], before);
      forall j | 0 <= j < |rest| ensures before(s[0], rest[j]) {
        assert rest[j] in multiset(rest);
        assert rest[j] == x || rest[j] in s[1..];
      }
    }
  }

  lemma {:induction false} SortBySorts<T>(s: seq<T>, before: (T, T) -> bool, domain: set<T>)
    requires PreorderOn(domain, before) && forall x :: x in s ==> x in domain
    ensures Sorted(SortBy(s, before), before)
  {
    if s != [] {
      SortBySorts(s[1..], before, domain);
      SortByPermutes(s[1..], before);
      var rest := SortBy(s[1..], before);
      forall y | y in rest ensures y in domain {
        assert y in multiset(rest);
        assert y in s[1..];
      }
      InsertSorted(s[0], rest, before, domain);
    }
  }

  /** The elements of the list that rank with `x`, in their order. */
  function Peers<T>(s: seq<T>, x: T, before: (T, T) -> bool): seq<T> {
    if s == [] then []
    else (if before(x, s[0]) && before(s[0], x) then [s[0]] else []) + Peers(s[1..], x, before)
  }

  lemma {:induction false} InsertKeepsPeers<T>(y: T, s: seq<T>, x: T, before: (T, T) -> bool, domain: set<T>)
    requires PreorderOn(domain, before)
    requires x in domain && y in domain && forall z :: z in s ==> z in domain
    ensures Peers(Insert(y, s, before), x, before) == Peers([y] + s, x, before)
  {
    assert ([y] + s)[1..] == s;
    if s == [] || before(y, s[0]) {
    } else {
      InsertKeepsPeers(y, s[1..], x, before, domain);
      assert ([y] + s[1..])[1..] == s[1..];
      var r := Insert(y, s, before);
      assert r[0] == s[0] && r[1..] == Insert(y, s[1..], before);
    }
  }

  /** Sorting is stable: elements that rank alike keep their order. */
  lemma {:induction false} SortKeepsPeers<T>(s: seq<T>, x: T, before: (T, T) -> bool, domain: set<T>)
    requires PreorderOn(domain, before) && x in domain && forall z :: z in s ==> z in domain
    ensures Peers(SortBy(s, before), x, before) == Peers(s, x, before)
  {
    hide PreorderOn;
    if s != [] {
      var rest := SortBy(s[1..], before);
      SortKeepsPeers(s[1..], x, before, domain);
      SortByPermutes(s[1..], before);
      forall z | z in rest ensures z in domain {
        assert z in multiset(rest) && z in s[1..];
      }
      InsertKeepsPeers(s[0], rest, x, before, domain);
      assert ([s[0]] + rest)[1..] == rest;
    }
  }

  /** What is used of sorting where the order itself does not matter. */
  lemma {:induction false} SortByFacts<T>(s: seq<T>, before: (T, T) -> bool)
    ensures |SortBy(s, before)| == |s|
    ensures forall x :: x in SortBy(s, before) <==> x in s
    ensures NoDuplicates(s) ==> NoDuplicates(SortBy(s, before))
  {
    SortByPermutes(s, before);
    var r := SortBy(s, before);
    assert |multiset(r)| == |multiset(s)|;
    forall x ensures x in r <==> x in s {
      assert x in r <==> x in multiset(r);
      assert x in s <==> x in multiset(s);
    }
    if NoDuplicates(s) {
      PermutationKeepsDistinct(s, r);
    }
  }

  lemma {:induction false} DistinctOccursOnce<T>(s: seq<T>, x: T)
    ensures NoDuplicates(s) ==> multiset(s)[x] <= 1
  {
    if s != [] {
      DistinctOccursOnce(s[1..], x);
      assert s == [s[0]] + s[1..];
    }
  }

  lemma RepeatOccursTwice<T>(r: seq<T>, i: nat, j: nat)
    requires i < j < |r| && r[i] == r[j]
    ensures multiset(r)[r[i]] >= 2
  {
    assert r == r[..i] + [r[i]] + r[i + 1..j] + [r[j]] + r[j + 1..];
  }

  lemma PermutationKeepsDistinct<T>(s: seq<T>, r: seq<T>)
    requires NoDuplicates(s) && multiset(r) == multiset(s)
    ensures NoDuplicates(r)
  {
    forall i, j | 0 <= i < j < |r| ensures r[i] != r[j] {
      if r[i] == r[j] {
        DistinctOccursOnce(s, r[i]);
        RepeatOccursTwice(r, i, j);
      }
    }
  }
}
