/** Lists of records with an id: the operations the inventory handlers share. */
module Keyed {
  import opened Wrappers

  /** Every id occurs once. */
  predicate UniqueKeys<T>(s: seq<T>, key: T -> string) {
    forall i, j :: 0 <= i < j < |s| ==> key(s[i]) != key(s[j])
  }

  /** `new Map(records.map((record) => [record.id, record]))`: a later record replaces an earlier
      one with the same id. */
  function Index<T>(s: seq<T>, key: T -> string): (m: map<string, T>)
    ensures forall id :: id in m ==> m[id] in s && key(m[id]) == id
    ensures forall x :: x in s ==> key(x) in m
  {
    if s == [] then map[]
    else
      var last := s[|s| - 1];
      Index(s[..|s| - 1], key)[key(last) := last]
  }

  lemma {:induction false} IndexUnique<T>(s: seq<T>, key: T -> string)
    requires UniqueKeys(s, key)
    ensures forall x :: x in s ==> Index(s, key)[key(x)] == x
  {
    var m := Index(s, key);
    forall x | x in s ensures m[key(x)] == x {
      var i :| 0 <= i < |s| && s[i] == x;
      var j :| 0 <= j < |s| && s[j] == m[key(x)];
    }
  }

  /** The first record with the id. */
  function First<T>(s: seq<T>, key: T -> string, id: string): (r: Option<T>)
    ensures r.Some? ==> r.value in s && key(r.value) == id
    ensures r.None? ==> forall x :: x in s ==> key(x) != id
  {
    if s == [] then None else if key(s[0]) == id then Some(s[0]) else First(s[1..], key, id)
  }

  /** The first record stands at the first position that holds the id. */
  lemma {:induction false} FirstAt<T>(s: seq<T>, key: T -> string, id: string)
    requires First(s, key, id).Some?
    ensures exists k :: 0 <= k < |s| && s[k] == First(s, key, id).value && key(s[k]) == id
                        && forall j :: 0 <= j < k ==> key(s[j]) != id
  {
    if key(s[0]) == id {
      assert s[0] == First(s, key, id).value;
    } else {
      FirstAt(s[1..], key, id);
      var k :| 0 <= k < |s[1..]| && s[1..][k] == First(s[1..], key, id).value && key(s[1..][k]) == id
               && forall j :: 0 <= j < k ==> key(s[1..][j]) != id;
      assert s[k + 1] == s[1..][k];
      forall j | 0 <= j < k + 1 ensures key(s[j]) != id {
        assert j > 0 ==> s[j] == s[1..][j - 1];
      }
    }
  }

  /** The id is taken by a record other than the one being updated. */
  predicate Taken<T(==)>(s: seq<T>, key: T -> string, id: string, existingId: Option<string>) {
    exists e :: e in s && key(e) == id && Some(key(e)) != existingId
  }

  function Replace<T>(s: seq<T>, key: T -> string, id: string, record: T): (r: seq<T>)
    ensures |r| == |s| && forall i :: 0 <= i < |s| ==> r[i] == if key(s[i]) == id then record else s[i]
  {
    seq(|s|, i requires 0 <= i < |s| => if key(s[i]) == id then record else s[i])
  }

  function Without<T(!new)>(s: seq<T>, key: T -> string, id: Option<string>): (r: seq<T>)
    ensures forall x :: x in r <==> x in s && Some(key(x)) != id
    ensures UniqueKeys(s, key) ==> UniqueKeys(r, key)
  {
    if s == [] then []
    else
      var rest := Without(s[..|s| - 1], key, id);
      if Some(key(s[|s| - 1])) == id then rest else rest + [s[|s| - 1]]
  }

  /** With unique ids, the first record with an id is the only one. */
  lemma {:induction false} OnlyHolder<T>(s: seq<T>, key: T -> string, id: string)
    requires UniqueKeys(s, key)
    ensures forall x :: x in s && key(x) == id ==> First(s, key, id) == Some(x)
  {
    var found := First(s, key, id);
    forall x | x in s && key(x) == id ensures found == Some(x) {
      var i :| 0 <= i < |s| && s[i] == x;
      var j :| 0 <= j < |s| && s[j] == found.value;
    }
  }

  /** With unique ids, replacing changes the one position that holds the id. */
  lemma ReplacedOnce<T>(s: seq<T>, key: T -> string, id: string, x: T)
    requires UniqueKeys(s, key) && exists e :: e in s && key(e) == id
    ensures exists k :: 0 <= k < |s| && key(s[k]) == id && Replace(s, key, id, x) == s[k := x]
  {
    var e :| e in s && key(e) == id;
    var k :| 0 <= k < |s| && s[k] == e;
    assert Replace(s, key, id, x) == s[k := x];
  }

  /** With unique ids, removing cuts out the one position that holds the id. */
  lemma {:induction false} WithoutOne<T(!new)>(s: seq<T>, key: T -> string, k: nat)
    requires UniqueKeys(s, key) && k < |s|
    ensures Without(s, key, Some(key(s[k]))) == s[..k] + s[k + 1..]
  {
    var front, last := s[..|s| - 1], s[|s| - 1];
    if k == |front| {
      WithoutAbsent(front, key, key(last));
    } else {
      WithoutOne(front, key, k);
      assert Without(s, key, Some(key(s[k]))) == (front[..k] + front[k + 1..]) + [last];
      CutBeforeLast(front, last, k);
      assert front + [last] == s;
    }
  }

  /** Exactly one record, one with the id, is gone; the others stay in order. */
  ghost predicate CutOut<T>(before: seq<T>, after: seq<T>, key: T -> string, id: string) {
    exists k :: 0 <= k < |before| && key(before[k]) == id && after == before[..k] + before[k + 1..]
  }

  lemma {:induction false} CutLeaves<T>(before: seq<T>, after: seq<T>, key: T -> string, id: string)
    requires UniqueKeys(before, key) && CutOut(before, after, key, id)
    ensures forall x :: x in after <==> x in before && key(x) != id
  {
    var k :| 0 <= k < |before| && key(before[k]) == id && after == before[..k] + before[k + 1..];
    forall x | x in before && key(x) != id ensures x in after {
      var j :| 0 <= j < |before| && before[j] == x;
      assert x == after[if j < k then j else j - 1];
    }
  }

  lemma {:induction false} WithoutCutsOut<T(!new)>(s: seq<T>, key: T -> string, id: string)
    requires UniqueKeys(s, key) && exists x :: x in s && key(x) == id
    ensures CutOut(s, Without(s, key, Some(id)), key, id)
  {
    hide UniqueKeys;
    var k :| 0 <= k < |s| && key(s[k]) == id;
    WithoutOne(s, key, k);
  }

  lemma CutBeforeLast<T>(front: seq<T>, last: T, k: nat)
    requires k < |front|
    ensures (front[..k] + front[k + 1..]) + [last] == (front + [last])[..k] + (front + [last])[k + 1..]
  {
  }

  lemma {:induction false} WithoutAbsent<T(!new)>(s: seq<T>, key: T -> string, id: string)
    requires forall i :: 0 <= i < |s| ==> key(s[i]) != id
    ensures Without(s, key, Some(id)) == s
  {
    hide UniqueKeys;
    if s != [] {
      WithoutAbsent(s[..|s| - 1], key, id);
    }
  }

  lemma {:induction false} WithoutNothing<T(!new)>(s: seq<T>, key: T -> string)
    ensures Without(s, key, None) == s
  {
    hide UniqueKeys;
    if s != [] {
      WithoutNothing(s[..|s| - 1], key);
    }
  }

  lemma AppendedUnique<T>(s: seq<T>, key: T -> string, x: T)
    requires UniqueKeys(s, key) && !Taken(s, key, key(x), None)
    ensures UniqueKeys(s + [x], key)
  {
    assert forall i :: 0 <= i < |s| ==> s[i] in s;
  }

  lemma ReplacedUnique<T>(s: seq<T>, key: T -> string, id: string, x: T)
    requires UniqueKeys(s, key) && !Taken(s, key, key(x), Some(id))
    ensures UniqueKeys(Replace(s, key, id, x), key)
  {
    assert forall i :: 0 <= i < |s| ==> s[i] in s;
  }
}
