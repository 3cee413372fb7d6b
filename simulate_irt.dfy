// Simulated responses under an IRT model
// (src/liboscats/algorithms/simulate_irt.c). The examinee's response to an
// item is drawn from the item's continuous model at the examinee's true
// ability. The uniform draw and the subclass probability are parameters;
// the examinee's covariates are left to the probability function.

module SimulateIrt {
  import opened Optional
  import opened Walk
  import Item
  import IrtModel
  import Examinee

  /** `oscats_irt_model_get_max` of an item's model: 0 without one (the type guard). */
  function MaxOf(cont: IrtModel.Model?): (m: nat)
    ensures cont != null ==> m == cont.max
    ensures cont == null ==> m == 0
  {
    if cont == null then 0 else cont.max
  }

  /** `oscats_irt_model_P` for response `k`: 0 without a model, without a
      true ability, or for an ability of the wrong size. */
  function ProbOf(cont: IrtModel.Model?, theta: Option<seq<real>>, prob: (nat, seq<real>) -> real, k: nat): (p: real)
    ensures cont == null || theta.None? || |theta.value| != cont.testDim ==> p == 0.0
    ensures cont != null && theta.Some? && |theta.value| == cont.testDim ==> p == prob(k, theta.value)
  {
    if cont == null || theta.None? || |theta.value| != cont.testDim then 0.0 else prob(k, theta.value)
  }

  /** The probabilities of responses 0 .. max that `administer` walks through. */
  function Probs(cont: IrtModel.Model?, theta: Option<seq<real>>, prob: (nat, seq<real>) -> real): (ps: seq<real>)
    ensures |ps| == MaxOf(cont) + 1
    ensures forall k :: 0 <= k < |ps| ==> ps[k] == ProbOf(cont, theta, prob, k)
  {
    seq(MaxOf(cont) + 1, k requires 0 <= k => ProbOf(cont, theta, prob, k))
  }

  /** `administer`: the first response whose running probability exceeds the
      draw `u`, or 0 when the probabilities run out first. The examinee's
      history is not touched: the test records the response. */
  method Administer(e: Examinee.Examinee, item: Item.Item, prob: (nat, seq<real>) -> real, u: real) returns (resp: nat)
    ensures resp <= MaxOf(item.cont)
    ensures resp == Response(Probs(item.cont, e.trueTheta, prob), u)
  {
    var max := MaxOf(item.cont);
    ghost var ps := Probs(item.cont, e.trueTheta, prob);
    var rnd := u;
    resp := 0;
    while resp <= max
      invariant resp <= max + 1
      invariant rnd == u - Below(ps, resp)
      invariant DrawFrom(ps, u, resp) == Draw(ps, u)
    {
      var p := 0.0;
      if item.cont != null && e.trueTheta.Some? {
        p := item.cont.P(resp, e.trueTheta.value, prob);
      }
      if rnd < p {
        return;
      }
      rnd := rnd - p;
      resp := resp + 1;
    }
    resp := 0;
  }

  /** Without a model or a usable true ability every probability is 0 and
      the simulated response is always 0. */
  lemma NoModelGivesZero(cont: IrtModel.Model?, theta: Option<seq<real>>, prob: (nat, seq<real>) -> real, u: real)
    requires cont == null || theta.None? || |theta.value| != cont.testDim
    ensures Response(Probs(cont, theta, prob), u) == 0
  {
    ZeroProbsGiveZero(Probs(cont, theta, prob), u);
  }

  /** Response r is simulated exactly when the draw falls in the r-th slice
      [P(0) + ... + P(r-1), P(0) + ... + P(r)) of [0, 1). */
  lemma ResponseSlice(cont: IrtModel.Model?, theta: Option<seq<real>>, prob: (nat, seq<real>) -> real, u: real, r: nat)
    requires forall k: nat :: k <= MaxOf(cont) ==> ProbOf(cont, theta, prob, k) >= 0.0
    requires 0.0 <= u
    ensures var ps := Probs(cont, theta, prob);
      Draw(ps, u) == Some(r) <==> r <= MaxOf(cont) && Below(ps, r) <= u < Below(ps, r + 1)
  {
    DrawInterval(Probs(cont, theta, prob), u, r);
  }

  /** The registration of `alg_register`: only for a bank of IRT models. */
  class Algorithm {
    var registered: bool

    constructor ()
      ensures !registered
    {
      registered := false;
    }

    method Register(isIrt: bool)
      modifies this
      ensures registered == (old(registered) || isIrt)
    {
      if isIrt {
        registered := true;
      }
    }
  }
}
