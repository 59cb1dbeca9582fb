/** The optional value used for the program's `T | null`, and a bound over a map of levels. */
module Wrappers {
  datatype Option<+T> = None | Some(value: T)

  /** JavaScript truthiness of a `string | null`: null and the empty text are both false. */
  predicate Truthy(o: Option<string>) {
    o.Some? && o.value != ""
  }

  /** `o ?? fallback` */
  function OrElse<T>(o: Option<T>, fallback: T): T {
    if o.Some? then o.value else fallback
  }

  /** A bound on the levels of a map's entries, for termination. */
  ghost function LevelBound<T>(nodes: map<string, T>, level: T -> nat): (b: nat)
    ensures forall id :: id in nodes ==> level(nodes[id]) <= b
  {
    if |nodes| == 0 then 0
    else
      var id :| id in nodes;
      var b := LevelBound(nodes - {id}, level);
      assert forall other :: other in nodes && other != id ==> other in nodes - {id};
      if b >= level(nodes[id]) then b else level(nodes[id])
  }
}
