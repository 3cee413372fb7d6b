// The DINA ("deterministic input, noisy and") classification model
// (src/liboscats/models/dina.c). An examinee "passes" an item when every
// attribute the item loads on is mastered; then the correct response has
// probability 1 - slip, otherwise guess.

module Dina {
  import opened Attributes

  /** Parameter indices (dina.c:32-37). */
  const Guess: nat := 0
  const Slip: nat := 1
  const NumParams: nat := 2

  /** `get_max`: the responses are 0 and 1. */
  const MaxResponse: nat := 1

  /** The examinee masters every loaded attribute. */
  predicate Pass(loaded: seq<bool>)
  {
    forall i :: 0 <= i < |loaded| ==> loaded[i]
  }

  /** The response probability, from the pass outcome; 0 outside {0, 1}. */
  function Prob(resp: nat, guess: real, slip: real, pass: bool): real
  {
    if resp > 1 then 0.0
    else
      var p := if pass then 1.0 - slip else guess;
      if resp == 1 then p else 1.0 - p
  }

  /** The two response probabilities sum to 1, and only 0 and 1 have any. */
  lemma ProbTotal(guess: real, slip: real, pass: bool)
    ensures Prob(0, guess, slip, pass) + Prob(1, guess, slip, pass) == 1.0
    ensures forall r: nat :: r > MaxResponse ==> Prob(r, guess, slip, pass) == 0.0
  {
  }

  /** With guess and slip in [0, 1], every probability lies in [0, 1]. */
  lemma ProbRange(resp: nat, guess: real, slip: real, pass: bool)
    requires 0.0 <= guess <= 1.0 && 0.0 <= slip <= 1.0
    ensures 0.0 <= Prob(resp, guess, slip, pass) <= 1.0
  {
  }

  /** P reads only the loaded attributes: two patterns, of any widths, that
      agree on every attribute in `dims` give the same probability, however
      they differ on the attributes the item does not load on. */
  lemma ProbOnlyLoaded(resp: nat, guess: real, slip: real, dims: seq<Index>,
                       x: nat, n: nat, y: nat, m: nat)
    requires forall k :: 0 <= k < |dims| ==> BitIn(x, n, dims[k]) == BitIn(y, m, dims[k])
    ensures Prob(resp, guess, slip, Pass(Loaded(x, n, dims))) == Prob(resp, guess, slip, Pass(Loaded(y, m, dims)))
  {
  }

  /** `P` (dina.c:82-93): the pass test over `dims`, then the probability. */
  method P(params: seq<real>, dims: seq<Index>, resp: nat, attr: Attributes) returns (p: real)
    requires |params| == NumParams
    ensures p == Prob(resp, params[Guess], params[Slip], Pass(Loaded(attr.data, attr.num, dims)))
  {
    if !(resp == 0 || resp == 1) {
      return 0.0;
    }
    var pass := true;
    var i := 0;
    while i < |dims| && pass
      invariant 0 <= i <= |dims|
      invariant pass <==> forall k :: 0 <= k < i ==> attr.Get(dims[k])
    {
      if !attr.Get(dims[i]) {
        pass := false;
      }
      i := i + 1;
    }
    assert pass <==> Pass(Loaded(attr.data, attr.num, dims));
    p := if pass then 1.0 - params[Slip] else params[Guess];
    if resp == 0 {
      p := 1.0 - p;
    }
  }

  /** What one call adds to the gradient entries and to the two diagonal
      Hessian entries; the off-diagonal Hessian entries are never touched. */
  datatype Derivatives = Derivatives(guess: real, slip: real, guessGuess: real, slipSlip: real)

  /** The additions as `logLik_dparam` writes them (dina.c:95-135). */
  function LogLikDerivativesAsWritten(guess: real, slip: real, pass: bool, resp: bool): (d: Derivatives)
    requires guess != 0.0 && slip != 0.0 && slip != 1.0
    ensures pass ==> d.guess == 0.0 && d.guessGuess == 0.0
    ensures !pass ==> d.slip == 0.0 && d.slipSlip == 0.0
    ensures !pass && !resp ==> d.guess == -1.0 / guess && d.guessGuess > 0.0
  {
    if pass && resp then Derivatives(0.0, 1.0 / (slip - 1.0), 0.0, -1.0 / (slip - 1.0) / (slip - 1.0))
    else if pass then Derivatives(0.0, 1.0 / slip, 0.0, -1.0 / slip / slip)
    else if resp then Derivatives(1.0 / guess, 0.0, -1.0 / guess / guess, 0.0)
    else Derivatives(-1.0 / guess, 0.0, 1.0 / guess / guess, 0.0)
  }

  /** The derivatives of log P: d/dg log(1 - g) is -1/(1 - g), with second
      derivative -1/(1 - g)^2. */
  function LogLikDerivatives(guess: real, slip: real, pass: bool, resp: bool): (d: Derivatives)
    requires 0.0 < guess < 1.0 && 0.0 < slip < 1.0
    ensures pass ==> d.guess == 0.0 && d.guessGuess == 0.0
    ensures !pass ==> d.slip == 0.0 && d.slipSlip == 0.0
  {
    if pass && resp then Derivatives(0.0, 1.0 / (slip - 1.0), 0.0, -1.0 / (slip - 1.0) / (slip - 1.0))
    else if pass then Derivatives(0.0, 1.0 / slip, 0.0, -1.0 / slip / slip)
    else if resp then Derivatives(1.0 / guess, 0.0, -1.0 / guess / guess, 0.0)
    else Derivatives(-1.0 / (1.0 - guess), 0.0, -1.0 / (1.0 - guess) / (1.0 - guess), 0.0)
  }

  /** The expected score is zero and the expected Hessian is minus the expected
      squared score, for both parameters: the two identities every log-likelihood
      derivative satisfies. */
  lemma DerivativesIdentities(guess: real, slip: real, pass: bool)
    requires 0.0 < guess < 1.0 && 0.0 < slip < 1.0
    ensures var d0, d1 := LogLikDerivatives(guess, slip, pass, false), LogLikDerivatives(guess, slip, pass, true);
            var p0, p1 := Prob(0, guess, slip, pass), Prob(1, guess, slip, pass);
            && p0 * d0.guess + p1 * d1.guess == 0.0
            && p0 * d0.slip + p1 * d1.slip == 0.0
            && p0 * (d0.guessGuess + d0.guess * d0.guess) + p1 * (d1.guessGuess + d1.guess * d1.guess) == 0.0
            && p0 * (d0.slipSlip + d0.slip * d0.slip) + p1 * (d1.slipSlip + d1.slip * d1.slip) == 0.0
  {
    var g, s := guess, slip;
    if pass {
      assert (1.0 - (1.0 - s)) * (1.0 / s) == 1.0;
      assert (1.0 - s) * (1.0 / (s - 1.0)) == -1.0;
      assert s * (-1.0 / (s * s) + (1.0 / s) * (1.0 / s)) == 0.0;
      assert (1.0 / (s - 1.0)) * (1.0 / (s - 1.0)) == 1.0 / ((s - 1.0) * (s - 1.0));
    } else {
      assert g * (1.0 / g) == 1.0;
      assert (1.0 - g) * (-1.0 / (1.0 - g)) == -1.0;
      assert (1.0 / g) * (1.0 / g) == 1.0 / (g * g);
      assert (-1.0 / (1.0 - g)) * (-1.0 / (1.0 - g)) == 1.0 / ((1.0 - g) * (1.0 - g));
    }
  }

  /** As written, the (fail, wrong) case breaks the score identity: at guess
      1/4 the expected guess score is -2 instead of 0. */
  lemma AsWrittenScoreNonzero()
    ensures var d0, d1 := LogLikDerivativesAsWritten(0.25, 0.5, false, false), LogLikDerivativesAsWritten(0.25, 0.5, false, true);
            Prob(0, 0.25, 0.5, false) * d0.guess + Prob(1, 0.25, 0.5, false) * d1.guess == -2.0
  {
  }

  /** The pass test of `logLik_dparam` as written (dina.c:110-111): it reads
      attributes 0 .. Ndims-1 instead of the item's loaded attributes. */
  function PassAsWritten(data: nat, num: nat, ndims: nat): (r: bool)
    ensures ndims <= num ==> (r <==> Pass(Pattern(data, num)[..ndims]))
    ensures ndims > num ==> !r
  {
    assert ndims > num ==> !BitIn(data, num, num);
    forall i :: 0 <= i < ndims ==> BitIn(data, num, i)
  }

  /** An item loading only on attribute 1, and an examinee with pattern "01":
      P counts a pass, the as-written derivative counts a fail. */
  lemma PassAsWrittenDisagrees()
    ensures Pass(Loaded(2, 2, [1])) && !PassAsWritten(2, 2, 1)
  {
    assert Bits.Bit(2 / 2, 0);
    assert !BitIn(2, 2, 0);
  }

  /** `logLik_dparam` with the pass test over `dims` and the derivatives of
      log P: adds, never overwrites, and touches only the slip entries on a
      pass and only the guess entries on a fail. A response outside {0, 1}
      returns first, so only there may a buffer be absent (NULL): the
      responses 0 and 1 write both without a NULL test. */
  method LogLikDparam(params: seq<real>, dims: seq<Index>, resp: nat, attr: Attributes,
                      grad: array?<real>, hes: array2?<real>)
    requires |params| == NumParams && 0.0 < params[Guess] < 1.0 && 0.0 < params[Slip] < 1.0
    requires grad != null ==> grad.Length == NumParams
    requires hes != null ==> hes.Length0 == NumParams && hes.Length1 == NumParams
    requires resp <= 1 ==> grad != null && hes != null
    modifies grad, hes
    ensures resp > 1 && grad != null ==> grad[..] == old(grad[..])
    ensures resp > 1 && hes != null ==> forall i, j :: 0 <= i < 2 && 0 <= j < 2 ==> hes[i, j] == old(hes[i, j])
    ensures resp <= 1 ==>
      var d := LogLikDerivatives(params[Guess], params[Slip], Pass(Loaded(attr.data, attr.num, dims)), resp == 1);
      && grad[Guess] == old(grad[Guess]) + d.guess
      && grad[Slip] == old(grad[Slip]) + d.slip
      && hes[Guess, Guess] == old(hes[Guess, Guess]) + d.guessGuess
      && hes[Slip, Slip] == old(hes[Slip, Slip]) + d.slipSlip
      && hes[Guess, Slip] == old(hes[Guess, Slip])
      && hes[Slip, Guess] == old(hes[Slip, Guess])
  {
    if !(resp == 0 || resp == 1) {
      return;
    }
    var pass := true;
    var i := 0;
    while i < |dims| && pass
      invariant 0 <= i <= |dims|
      invariant pass <==> forall k :: 0 <= k < i ==> attr.Get(dims[k])
    {
      if !attr.Get(dims[i]) {
        pass := false;
      }
      i := i + 1;
    }
    assert pass <==> Pass(Loaded(attr.data, attr.num, dims));
    var g, s := params[Guess], params[Slip];
    if pass {
      var tmp := if resp == 1 then s - 1.0 else s;
      grad[Slip] := grad[Slip] + 1.0 / tmp;
      hes[Slip, Slip] := hes[Slip, Slip] - 1.0 / tmp / tmp;
    } else if resp == 1 {
      grad[Guess] := grad[Guess] + 1.0 / g;
      hes[Guess, Guess] := hes[Guess, Guess] - 1.0 / g / g;
    } else {
      var tmp := 1.0 - g;
      grad[Guess] := grad[Guess] - 1.0 / tmp;
      hes[Guess, Guess] := hes[Guess, Guess] - 1.0 / tmp / tmp;
    }
  }
}
