// The set positions of a row of flags, in increasing order: how a model
// turns its Q-matrix row (discrete models) or its dimension bit array
// (continuous models) into the list of attributes or dimensions it loads on.

module Loadings {

  /** The positions i >= from with bs[i] set, in increasing order. */
  function From(bs: seq<bool>, from: nat): seq<nat>
    decreases |bs| - from
  {
    if from >= |bs| then []
    else (if bs[from] then [from] else []) + From(bs, from + 1)
  }

  /** The list from `from` holds exactly the set positions at or after
      `from`, each once, in increasing order. */
  lemma {:induction false} FromSpec(bs: seq<bool>, from: nat)
    decreases |bs| - from
    ensures forall k :: 0 <= k < |From(bs, from)| ==> from <= From(bs, from)[k] < |bs| && bs[From(bs, from)[k]]
    ensures forall k, l :: 0 <= k < l < |From(bs, from)| ==> From(bs, from)[k] < From(bs, from)[l]
    ensures forall i :: from <= i < |bs| && bs[i] ==> i in From(bs, from)
  {
    if from < |bs| {
      FromSpec(bs, from + 1);
      var t := From(bs, from + 1);
      var r := From(bs, from);
      assert r == (if bs[from] then [from] else []) + t;
      forall i | from <= i < |bs| && bs[i]
        ensures i in r
      {
        if i > from {
          assert i in t;
        }
      }
    }
  }

  /** Every set position, in increasing order. */
  function Positions(bs: seq<bool>): (r: seq<nat>)
    ensures forall k :: 0 <= k < |r| ==> r[k] < |bs| && bs[r[k]]
    ensures forall k, l :: 0 <= k < l < |r| ==> r[k] < r[l]
    ensures forall i :: 0 <= i < |bs| && bs[i] <==> i in r
  {
    FromSpec(bs, 0);
    From(bs, 0)
  }

  /** `g_bit_array_iter_next` from position `from`: the first set position at
      or after it, or -1 when there is none. */
  function NextSet(bs: seq<bool>, from: nat): (r: int)
    decreases |bs| - from
    ensures r == -1 || (from <= r < |bs| && bs[r])
    ensures r == -1 ==> forall i :: from <= i < |bs| ==> !bs[i]
    ensures r >= 0 ==> forall i :: from <= i < r ==> !bs[i]
  {
    if from >= |bs| then -1
    else if bs[from] then from
    else NextSet(bs, from + 1)
  }

  /** The iterator walks the positions list: it reports -1 exactly when no
      position is left, and otherwise the head of what is left. */
  lemma {:induction false} NextSetFrom(bs: seq<bool>, from: nat)
    ensures NextSet(bs, from) == -1 <==> From(bs, from) == []
    ensures NextSet(bs, from) >= 0 ==>
      From(bs, from) == [NextSet(bs, from) as nat] + From(bs, NextSet(bs, from) as nat + 1)
    decreases |bs| - from
  {
    if from < |bs| {
      FromStep(bs, from);
      if !bs[from] {
        assert From(bs, from) == From(bs, from + 1);
        NextSetFrom(bs, from + 1);
      }
    }
  }

  /** One more position examined: the list from i is the entry at i, if set,
      followed by the list from i + 1. */
  lemma FromStep(bs: seq<bool>, i: nat)
    requires i < |bs|
    ensures From(bs, i) == (if bs[i] then [i] else []) + From(bs, i + 1)
  {
  }

  /** The list from |bs| on is empty. */
  lemma FromEnd(bs: seq<bool>)
    ensures From(bs, |bs|) == []
  {
  }
}
