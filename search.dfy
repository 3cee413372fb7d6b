// Linear search for the first occurrence of a value, as the parameter and
// covariate tables of the models do it (`for (i=0; i < Np; i++) if (name ==
// names[i]) ...`).

module Search {
  import opened Optional

  /** The first position of `x` in `ss` at or after `from`, if any. */
  function Find<T(==)>(ss: seq<T>, x: T, from: nat): (r: Option<nat>)
    requires from <= |ss|
    decreases |ss| - from
    ensures r.None? <==> forall i :: from <= i < |ss| ==> ss[i] != x
    ensures r.Some? ==> from <= r.value < |ss| && ss[r.value] == x
    ensures r.Some? ==> forall i :: from <= i < r.value ==> ss[i] != x
  {
    if from == |ss| then None
    else if ss[from] == x then Some(from)
    else Find(ss, x, from + 1)
  }

  /** The first position of `x` in `ss`. */
  function First<T(==)>(ss: seq<T>, x: T): (r: Option<nat>)
    ensures r.None? <==> x !in ss
    ensures r.Some? ==> r.value < |ss| && ss[r.value] == x
    ensures r.Some? ==> forall i :: 0 <= i < r.value ==> ss[i] != x
  {
    Find(ss, x, 0)
  }

  /** The search loop: stops at the first match. */
  method FirstIndex<T(==)>(ss: seq<T>, x: T) returns (r: Option<nat>)
    ensures r == First(ss, x)
  {
    var i := 0;
    while i < |ss|
      invariant 0 <= i <= |ss|
      invariant forall k :: 0 <= k < i ==> ss[k] != x
    {
      if ss[i] == x {
        FirstUnique(ss, x, i);
        return Some(i);
      }
      i := i + 1;
    }
    r := None;
  }

  /** A position holding `x` with no earlier `x` is the first one. */
  lemma FirstUnique<T>(ss: seq<T>, x: T, i: nat)
    requires i < |ss| && ss[i] == x && forall k :: 0 <= k < i ==> ss[k] != x
    ensures First(ss, x) == Some(i)
  {
  }
}
