/** Cron fields (packages/scheduler/src/index.ts): the sets of values a field text stands for, and
    the loops that list them. */
module CronFields {
  import opened Wrappers
  import opened JsText
  import Bits32
  import Sorting

  // ----- one comma-separated part

  predicate OnStep(v: int, lo: int, step: int)
    requires step > 0
  {
    (v - lo) % step == 0
  }

  /** The values `lo, lo + step, lo + 2 * step, …` up to `hi`. */
  function Progression(lo: int, hi: int, step: int): set<int>
    requires step > 0
  {
    set v | lo <= v <= hi && OnStep(v, lo, step)
  }

  datatype RangeText = RangeText(start: nat, end: nat, step: nat)

  /** The pattern `^(\d+)-(\d+)(?:\/(\d+))?$`, with step 1 when none is written. */
  function RangeMatch(part: string): Option<RangeText> {
    var halves := Split(part, '/');
    var ends := Split(halves[0], '-');
    if |ends| != 2 || !IsDigits(ends[0]) || !IsDigits(ends[1]) then None
    else if |halves| == 1 then Some(RangeText(DigitsValue(ends[0]), DigitsValue(ends[1]), 1))
    else if |halves| == 2 && IsDigits(halves[1]) then
      Some(RangeText(DigitsValue(ends[0]), DigitsValue(ends[1]), DigitsValue(halves[1])))
    else None
  }

  /** The pattern `^\*\/(\d+)$` */
  function StepMatch(part: string): Option<nat> {
    if |part| >= 2 && part[0] == '*' && part[1] == '/' then ParseDigits(part[2..]) else None
  }

  function PartValues(part: string, min: int, max: int): Option<set<int>> {
    if part == "*" then Some(Progression(min, max, 1))
    else if StepMatch(part).Some? then
      var step := StepMatch(part).value;
      if step == 0 then None else Some(Progression(min, max, step))
    else if RangeMatch(part).Some? then
      var r := RangeMatch(part).value;
      if r.start < min || r.end > max || r.start > r.end || r.step == 0 then None
      else Some(Progression(r.start, r.end, r.step))
    else
      var n := ParseDigits(part);
      if n.None? || n.value < min || n.value > max then None else Some({n.value})
  }

  ghost predicate Ascending(s: seq<int>) {
    forall i, j :: 0 <= i < j < |s| ==> s[i] < s[j]
  }

  ghost predicate Lists(s: seq<int>, values: set<int>) {
    Ascending(s) && forall v :: v in s <==> v in values
  }

  ghost predicate ListsAtMost(s: seq<int>, values: set<int>, bound: int) {
    Ascending(s) && forall v :: v in s <==> v in values && v < bound
  }

  lemma NextMultiple(a: int, b: int, step: int)
    requires step > 0 && a % step == 0 && a <= b < a + step
    ensures b % step == 0 <==> b == a
    ensures (a + step) % step == 0
  {
    var q := a / step;
    Bits32.DivModUnique(b, step, q, b - a);
    assert (q + 1) * step == q * step + step;
    Bits32.DivModUnique(a + step, step, q + 1, 0);
  }

  /** Between one multiple of the step and the next there is no other value to list. */
  lemma ProgressionStep(s: seq<int>, lo: int, hi: int, step: int, current: int)
    requires step > 0 && lo <= current <= hi && OnStep(current, lo, step)
    requires ListsAtMost(s, Progression(lo, hi, step), current)
    ensures ListsAtMost(s + [current], Progression(lo, hi, step), current + step)
    ensures OnStep(current + step, lo, step)
  {
    NextMultiple(current - lo, current - lo, step);
    assert current - lo + step == current + step - lo;
    forall i | 0 <= i < |s| ensures s[i] < current {
      var v := s[i];
      assert v in s;
    }
    forall v ensures v in s + [current] <==> v in Progression(lo, hi, step) && v < current + step {
      if current <= v < current + step {
        NextMultiple(current - lo, v - lo, step);
      }
    }
  }

  method Count(lo: int, hi: int, step: int) returns (values: seq<int>)
    requires step > 0
    ensures Lists(values, Progression(lo, hi, step))
  {
    values := [];
    var current := lo;
    while current <= hi
      invariant current >= lo && OnStep(current, lo, step)
      invariant ListsAtMost(values, Progression(lo, hi, step), current)
      decreases hi - current
    {
      ProgressionStep(values, lo, hi, step, current);
      values := values + [current];
      current := current + step;
    }
  }

  method ParseCronFieldPart(part: string, min: int, max: int) returns (values: Option<seq<int>>)
    ensures values.Some? <==> PartValues(part, min, max).Some?
    ensures values.Some? ==> Lists(values.value, PartValues(part, min, max).value)
  {
    hide Progression, ListsAtMost, StepMatch, RangeMatch;
    if part == "*" {
      var all := Count(min, max, 1);
      return Some(all);
    }
    var stepMatch := StepMatch(part);
    if stepMatch.Some? {
      if stepMatch.value == 0 {
        return None;
      }
      var stepped := Count(min, max, stepMatch.value);
      return Some(stepped);
    }
    var rangeMatch := RangeMatch(part);
    if rangeMatch.Some? {
      var r := rangeMatch.value;
      if r.start < min || r.end > max || r.start > r.end || r.step == 0 {
        return None;
      }
      var ranged := Count(r.start, r.end, r.step);
      return Some(ranged);
    }
    var numericValue := ParseDigits(part);
    if numericValue.None? || numericValue.value < min || numericValue.value > max {
      return None;
    }
    return Some([numericValue.value]);
  }

  /** Every part that is accepted stands for at least one value, all within the field's bounds. */
  lemma PartInBounds(part: string, min: int, max: int)
    requires min <= max && PartValues(part, min, max).Some?
    ensures PartValues(part, min, max).value != {}
    ensures forall v :: v in PartValues(part, min, max).value ==> min <= v <= max
  {
    var values := PartValues(part, min, max).value;
    if part == "*" || StepMatch(part).Some? {
      assert min in values;
    } else if RangeMatch(part).Some? {
      assert RangeMatch(part).value.start in values;
    } else {
      assert ParseDigits(part).value in values;
    }
  }

  // ----- a whole field

  function FieldParts(field: string): seq<string> {
    NonEmptyTrimmed(Split(field, ','))
  }

  predicate AllPartsParse(parts: seq<string>, min: int, max: int) {
    forall i :: 0 <= i < |parts| ==> PartValues(parts[i], min, max).Some?
  }

  function UnionOf(parts: seq<string>, min: int, max: int): set<int>
    requires AllPartsParse(parts, min, max)
  {
    set i, v | 0 <= i < |parts| && v in PartValues(parts[i], min, max).value :: v
  }

  function FieldValues(field: string, min: int, max: int): Option<set<int>> {
    var parts := FieldParts(field);
    if parts == [] || !AllPartsParse(parts, min, max) then None else Some(UnionOf(parts, min, max))
  }

  lemma FieldInBounds(field: string, min: int, max: int)
    requires min <= max && FieldValues(field, min, max).Some?
    ensures FieldValues(field, min, max).value != {}
    ensures forall v :: v in FieldValues(field, min, max).value ==> min <= v <= max
  {
    hide PartValues, FieldParts;
    var parts := FieldParts(field);
    forall i | 0 <= i < |parts|
      ensures PartValues(parts[i], min, max).value != {}
      ensures forall v :: v in PartValues(parts[i], min, max).value ==> min <= v <= max
    {
      PartInBounds(parts[i], min, max);
    }
    var v :| v in PartValues(parts[0], min, max).value;
    assert v in UnionOf(parts, min, max);
  }

  /** `set.add(value)` for a set kept in insertion order. */
  method AddAll(values: seq<int>, more: seq<int>) returns (r: seq<int>)
    requires Sorting.NoDuplicates(values)
    ensures Sorting.NoDuplicates(r)
    ensures forall v :: v in r <==> v in values || v in more
  {
    r := values;
    for i := 0 to |more|
      invariant Sorting.NoDuplicates(r)
      invariant forall v :: v in r <==> v in values || v in more[..i]
    {
      if more[i] !in r {
        r := r + [more[i]];
      }
    }
  }

  predicate AtMost(a: int, b: int) {
    a <= b
  }

  /** A duplicate-free list is in strictly ascending order once sorted. */
  lemma {:induction false} SortedAscends(values: seq<int>)
    requires Sorting.NoDuplicates(values)
    ensures Ascending(Sorting.SortBy(values, AtMost))
    ensures forall v :: v in Sorting.SortBy(values, AtMost) <==> v in values
  {
    Sorting.SortBySorts(values, AtMost, set v | v in values);
    Sorting.SortByFacts(values, AtMost);
  }

  datatype ParsedCronField = ParsedCronField(values: seq<int>)

  ghost predicate UnionUpTo(values: seq<int>, parts: seq<string>, n: nat, min: int, max: int)
    requires n <= |parts|
  {
    && Sorting.NoDuplicates(values)
    && AllPartsParse(parts[..n], min, max)
    && forall v :: v in values <==> v in UnionOf(parts[..n], min, max)
  }

  lemma UnionOfNone(parts: seq<string>, min: int, max: int)
    ensures UnionUpTo([], parts, 0, min, max)
  {
  }

  lemma UnionOneMore(parts: seq<string>, n: nat, min: int, max: int)
    requires n < |parts| && AllPartsParse(parts[..n], min, max) && PartValues(parts[n], min, max).Some?
    ensures AllPartsParse(parts[..n + 1], min, max)
    ensures UnionOf(parts[..n + 1], min, max) == UnionOf(parts[..n], min, max) + PartValues(parts[n], min, max).value
  {
    hide PartValues;
    var longer, shorter := parts[..n + 1], parts[..n];
    forall i | 0 <= i < |longer| ensures longer[i] == if i < n then shorter[i] else parts[n] {
    }
    forall v
      ensures v in UnionOf(longer, min, max) <==>
              v in UnionOf(shorter, min, max) + PartValues(parts[n], min, max).value
    {
      if v in PartValues(parts[n], min, max).value {
        assert longer[n] == parts[n];
      }
      if v in UnionOf(shorter, min, max) {
        var i :| 0 <= i < |shorter| && v in PartValues(shorter[i], min, max).value;
        assert longer[i] == shorter[i];
      }
    }
  }

  method ParseCronField(field: string, min: int, max: int) returns (parsed: Option<ParsedCronField>)
    ensures parsed.Some? <==> FieldValues(field, min, max).Some?
    ensures parsed.Some? ==> Lists(parsed.value.values, FieldValues(field, min, max).value)
  {
    hide PartValues, FieldParts, UnionOf;
    var parts := FieldParts(field);
    if |parts| == 0 {
      return None;
    }
    var values: seq<int> := [];
    UnionOfNone(parts, min, max);
    for n := 0 to |parts|
      invariant UnionUpTo(values, parts, n, min, max)
    {
      var part := ParseCronFieldPart(parts[n], min, max);
      if part.None? {
        return None;
      }
      UnionOneMore(parts, n, min, max);
      values := AddAll(values, part.value);
    }
    assert parts[..|parts|] == parts;
    SortedAscends(values);
    return Some(ParsedCronField(Sorting.SortBy(values, AtMost)));
  }

  /** A star stands for every value inside the bounds. */
  lemma StarIsUnrestricted(min: int, max: int)
    ensures FieldValues("*", min, max).Some?
    ensures forall v :: v in FieldValues("*", min, max).value <==> min <= v <= max
  {
    SplitOne("*", ',');
    TrimFacts("*");
    assert FieldParts("*") == ["*"];
    var parts := FieldParts("*");
    assert PartValues(parts[0], min, max) == Some(Progression(min, max, 1));
    forall v ensures v in UnionOf(parts, min, max) <==> min <= v <= max {
      assert v in PartValues(parts[0], min, max).value <==> min <= v <= max && OnStep(v, min, 1);
    }
  }

  // ----- every set of values has a field text

  function ValueSet(values: seq<nat>): set<int> {
    set i | 0 <= i < |values| :: values[i]
  }

  function Decimals(values: seq<nat>): (texts: seq<string>)
    ensures |texts| == |values| && forall i :: 0 <= i < |values| ==> texts[i] == Decimal(values[i])
  {
    seq(|values|, i requires 0 <= i < |values| => Decimal(values[i]))
  }

  lemma DigitsHold(s: string)
    requires IsDigits(s)
    ensures '*' !in s && '/' !in s && '-' !in s && ',' !in s
    ensures (forall c :: c in s ==> !IsSpace(c)) && s != "" && Trimmed(s)
  {
  }

  lemma {:induction false} DecimalPart(n: nat, min: int, max: int)
    requires min <= n <= max
    ensures PartValues(Decimal(n), min, max) == Some({n})
  {
    var text := Decimal(n);
    DigitsHold(text);
    DecimalValue(n);
    SplitOne(text, '/');
    SplitOne(text, '-');
    assert text[0] in text;
    assert '*' in "*";
  }

  /** Reading undoes listing: the decimal texts of any values, joined by commas, stand for exactly
      those values. */
  lemma PrintedField(values: seq<nat>, min: int, max: int)
    requires values != [] && forall i :: 0 <= i < |values| ==> min <= values[i] <= max
    ensures FieldValues(Join(Decimals(values), ","), min, max) == Some(ValueSet(values))
  {
    hide PartValues, IsDigits, Decimal;
    var parts := Decimals(values);
    forall i | 0 <= i < |parts|
      ensures parts[i] != "" && Trimmed(parts[i]) && ',' !in parts[i]
      ensures PartValues(parts[i], min, max) == Some({values[i]})
    {
      DigitsHold(parts[i]);
      DecimalPart(values[i], min, max);
    }
    SplitJoin(parts, ',');
    NonEmptyTrimmedKeeps(parts);
    assert AllPartsParse(parts, min, max);
    UnionOfSingles(parts, values, min, max);
  }

  lemma UnionOfSingles(parts: seq<string>, values: seq<nat>, min: int, max: int)
    requires AllPartsParse(parts, min, max) && |parts| == |values|
    requires forall i :: 0 <= i < |parts| ==> PartValues(parts[i], min, max) == Some({values[i]})
    ensures UnionOf(parts, min, max) == ValueSet(values)
  {
    hide PartValues;
    var union := UnionOf(parts, min, max);
    forall v ensures v in union <==> v in ValueSet(values) {
      if v in union {
        var i :| 0 <= i < |parts| && v in PartValues(parts[i], min, max).value;
        assert values[i] == v;
      }
      if v in ValueSet(values) {
        var i :| 0 <= i < |values| && values[i] == v;
        assert v in PartValues(parts[i], min, max).value;
      }
    }
  }
}
