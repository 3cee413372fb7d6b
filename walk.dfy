// The inverse-CDF walk both response simulators use
// (src/liboscats/algorithms/simulate_irt.c:43-51,
// src/liboscats/algorithms/simulate_alpha.c:104-115): a uniform draw is
// compared with the probability of response 0, 1, ... in turn, and what
// each response's probability does not cover is subtracted from the draw.
// Here the draw is an input and the probabilities are exact reals.

module Walk {
  import opened Optional

  /** P(0) + ... + P(r - 1). */
  function Below(ps: seq<real>, r: nat): real
    requires r <= |ps|
  {
    if r == 0 then 0.0 else Below(ps, r - 1) + ps[r - 1]
  }

  /** With no negative probability, the running sums only grow. */
  lemma {:induction false} BelowMonotone(ps: seq<real>, a: nat, b: nat)
    requires a <= b <= |ps|
    requires forall k :: 0 <= k < |ps| ==> ps[k] >= 0.0
    ensures Below(ps, a) <= Below(ps, b)
  {
    if a < b {
      BelowMonotone(ps, a, b - 1);
    }
  }

  /** The first response at or after `k` whose running sum exceeds the draw. */
  function DrawFrom(ps: seq<real>, u: real, k: nat): (r: Option<nat>)
    requires k <= |ps|
    ensures r.Some? ==> k <= r.value < |ps| && u < Below(ps, r.value + 1)
    ensures r.Some? ==> forall j :: k < j <= r.value ==> u >= Below(ps, j)
    ensures r.None? ==> forall j :: k < j <= |ps| ==> u >= Below(ps, j)
    decreases |ps| - k
  {
    if k == |ps| then None
    else if u < Below(ps, k + 1) then Some(k)
    else DrawFrom(ps, u, k + 1)
  }

  /** The response drawn: the smallest r with u < P(0) + ... + P(r), or none
      when the probabilities do not reach the draw. */
  function Draw(ps: seq<real>, u: real): (r: Option<nat>)
    ensures r.Some? ==> r.value < |ps| && u < Below(ps, r.value + 1)
    ensures r.Some? ==> forall j :: 0 < j <= r.value ==> u >= Below(ps, j)
    ensures r.None? ==> forall j :: 0 < j <= |ps| ==> u >= Below(ps, j)
  {
    DrawFrom(ps, u, 0)
  }

  /** What `administer` returns: the drawn response, or 0 after the warning. */
  function Response(ps: seq<real>, u: real): (r: nat)
    ensures |ps| > 0 ==> r < |ps|
    ensures Draw(ps, u).Some? ==> r == Draw(ps, u).value
    ensures Draw(ps, u).None? ==> r == 0
  {
    match Draw(ps, u)
    case Some(v) => v
    case None => 0
  }

  /** Inverse-CDF sampling: for a draw u >= 0 and non-negative
      probabilities, response r comes out exactly when u falls in
      [P(0) + ... + P(r-1), P(0) + ... + P(r)), an interval of length P(r). */
  lemma DrawInterval(ps: seq<real>, u: real, r: nat)
    requires forall k :: 0 <= k < |ps| ==> ps[k] >= 0.0
    requires u >= 0.0
    ensures Draw(ps, u) == Some(r) <==> r < |ps| && Below(ps, r) <= u < Below(ps, r + 1)
  {
    var d := Draw(ps, u);
    if d == Some(r) && r > 0 {
      assert u >= Below(ps, r);
    }
    if r < |ps| && Below(ps, r) <= u < Below(ps, r + 1) && d.Some? && d.value < r {
      BelowMonotone(ps, d.value + 1, r);
    }
  }

  /** When the probabilities add up to 1, a draw in [0, 1) always lands on a
      response: the warning branch is unreachable. */
  lemma DrawHits(ps: seq<real>, u: real)
    requires forall k :: 0 <= k < |ps| ==> ps[k] >= 0.0
    requires |ps| > 0 && Below(ps, |ps|) == 1.0
    requires 0.0 <= u < 1.0
    ensures Draw(ps, u).Some?
  {
    var top := |ps| - 1;
    assert u < Below(ps, top + 1);
  }

  /** With every probability 0 the running sums are all 0. */
  lemma {:induction false} BelowZeros(ps: seq<real>, r: nat)
    requires r <= |ps|
    requires forall k :: 0 <= k < |ps| ==> ps[k] == 0.0
    ensures Below(ps, r) == 0.0
  {
    if r > 0 {
      BelowZeros(ps, r - 1);
    }
  }

  /** With every probability 0 the walk answers 0, from the first response
      for a negative draw and from the warning branch otherwise. */
  lemma ZeroProbsGiveZero(ps: seq<real>, u: real)
    requires forall k :: 0 <= k < |ps| ==> ps[k] == 0.0
    ensures Response(ps, u) == 0
  {
    forall j | 0 <= j <= |ps|
      ensures Below(ps, j) == 0.0
    {
      BelowZeros(ps, j);
    }
  }
}
