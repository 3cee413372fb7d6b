// Ability estimation for continuous models
// (src/liboscats/algorithms/estimate_theta.c). After each administered
// item a flag records whether every response so far sits at the bottom
// (-1) or at the top (1) of its item's scale; then no maximum-likelihood
// estimate exists and only the EAP estimate is used, otherwise MLE runs
// and EAP is the fallback when it fails. The Newton step, the matrix
// inversion and the Gauss-Hermite sums are numerics supplied as
// parameters; what is modelled is their control: guards, iteration cap,
// failure bookkeeping and the settings.

module EstimateTheta {
  import opened Optional
  import Item
  import Examinee
  import ItemBank

  /** MAX_MLE_ITERS. */
  const MaxMleIters: nat := 10

  // ---- The extreme-pattern flag ----

  /** One step of `administered` (estimate_theta.c:142-151): on the first
      item the flag is -1 for a 0 response, 1 for the item's maximum and 0
      otherwise; later a nonzero flag drops to 0 on any response other than
      its extreme. */
  function NextFlag(flag: int, first: bool, resp: nat, max: nat): (f: int)
    ensures first ==> (f == -1 <==> resp == 0)
    ensures first ==> (f == 1 <==> resp != 0 && resp == max)
    ensures !first && flag == 0 ==> f == 0
    ensures !first && flag != 0 ==> (f == flag <==> resp == (if flag == 1 then max else 0))
    ensures !first && flag != 0 ==> (f == 0 <==> resp != (if flag == 1 then max else 0))
  {
    if first then (if resp == 0 then -1 else if resp == max then 1 else 0)
    else if flag != 0 && resp != (if flag == 1 then max else 0) then 0
    else flag
  }

  /** The flag after a whole history of responses `rs` to items whose
      maxima are `ms`. */
  function FlagAfter(rs: seq<nat>, ms: seq<nat>): (f: int)
    requires |rs| == |ms| >= 1
    ensures -1 <= f <= 1
    ensures f != 0 ==> f == NextFlag(0, true, rs[0], ms[0])
  {
    if |rs| == 1 then NextFlag(0, true, rs[0], ms[0])
    else NextFlag(FlagAfter(rs[..|rs| - 1], ms[..|ms| - 1]), false, rs[|rs| - 1], ms[|ms| - 1])
  }

  /** The flag is -1 exactly when every response is 0, and 1 exactly when
      the first response is not 0 and every response is its item's maximum. */
  lemma {:induction false} FlagMeaning(rs: seq<nat>, ms: seq<nat>)
    requires |rs| == |ms| >= 1
    ensures FlagAfter(rs, ms) == -1 <==> forall i :: 0 <= i < |rs| ==> rs[i] == 0
    ensures FlagAfter(rs, ms) == 1 <==> rs[0] != 0 && forall i :: 0 <= i < |rs| ==> rs[i] == ms[i]
    ensures -1 <= FlagAfter(rs, ms) <= 1
  {
    if |rs| > 1 {
      var n := |rs| - 1;
      var p, q := rs[..n], ms[..n];
      FlagMeaning(p, q);
      assert forall i :: 0 <= i < n ==> rs[i] == p[i] && ms[i] == q[i];
      if FlagAfter(rs, ms) == -1 {
        assert FlagAfter(p, q) == -1;
      }
      if FlagAfter(rs, ms) == 1 {
        assert FlagAfter(p, q) == 1;
      }
    }
  }

  /** Which estimators `administered` runs. */
  datatype Estimators = EapOnly | MleOnly | MleThenEap

  /** A nonzero flag runs only EAP; otherwise MLE, then EAP iff MLE failed. */
  function Dispatch(flag: int, mleFails: bool): (r: Estimators)
    ensures r == EapOnly <==> flag != 0
    ensures r == MleThenEap <==> flag == 0 && mleFails
    ensures r == MleOnly <==> flag == 0 && !mleFails
  {
    if flag != 0 then EapOnly else if mleFails then MleThenEap else MleOnly
  }

  // ---- The maximum-likelihood estimate ----

  /** |x| for a real. */
  function Abs(x: real): (r: real)
    ensures r >= 0.0 && (r == x || r == -x)
  {
    if x < 0.0 then -x else x
  }

  /** The largest |s[i]| over the first n entries, 0 for none. */
  function MaxAbsTo(s: seq<real>, n: nat): (m: real)
    requires n <= |s|
    ensures m >= 0.0
    ensures forall i :: 0 <= i < n ==> Abs(s[i]) <= m
  {
    if n == 0 then 0.0
    else
      var rest := MaxAbsTo(s, n - 1);
      if Abs(s[n - 1]) > rest then Abs(s[n - 1]) else rest
  }

  /** The largest |step[i]|, 0 for an empty step. */
  function MaxAbs(s: seq<real>): (m: real)
    ensures m >= 0.0
    ensures forall i :: 0 <= i < |s| ==> Abs(s[i]) <= m
  {
    MaxAbsTo(s, |s|)
  }

  /** The Newton step at `theta`: coordinate i of hes⁻¹·grad, the gradient
      and Hessian summed over the history. */
  function Step(step: (seq<real>, nat) -> real, theta: seq<real>): (d: seq<real>)
    ensures |d| == |theta|
    ensures forall i :: 0 <= i < |theta| ==> d[i] == step(theta, i)
  {
    seq(|theta|, i requires 0 <= i < |theta| => step(theta, i))
  }

  /** theta - d. */
  function Sub(theta: seq<real>, d: seq<real>): (r: seq<real>)
    requires |d| == |theta|
    ensures |r| == |theta|
    ensures forall i :: 0 <= i < |theta| ==> r[i] == theta[i] - d[i]
  {
    seq(|theta|, i requires 0 <= i < |theta| => theta[i] - d[i])
  }

  /** theta with only its first n coordinates moved by -d: where a sweep
      that stops early leaves it. */
  function SubTo(theta: seq<real>, d: seq<real>, n: nat): (r: seq<real>)
    requires |d| == |theta| && n <= |theta|
    ensures |r| == |theta|
    ensures forall i :: 0 <= i < n ==> r[i] == theta[i] - d[i]
    ensures forall i :: n <= i < |theta| ==> r[i] == theta[i]
    ensures n == |theta| ==> r == Sub(theta, d)
    ensures n == 0 ==> r == theta
  {
    seq(|theta|, i requires 0 <= i < |theta| => if i < n then theta[i] - d[i] else theta[i])
  }

  /** A sequence that agrees with SubTo entry by entry is SubTo. */
  lemma SubToPointwise(theta: seq<real>, d: seq<real>, t: seq<real>, n: nat)
    requires |d| == |theta| == |t| && n <= |theta|
    requires forall k :: 0 <= k < n ==> t[k] == theta[k] - d[k]
    requires forall k :: n <= k < |theta| ==> t[k] == theta[k]
    ensures t == SubTo(theta, d, n)
  {
  }

  /** What the size guards of `oscats_estimate_theta_mle` and `_eap` accept:
      as many responses as items, at least one, the first item continuous
      with theta of its test dimension, and a square error matrix of that
      size when one is given. */
  predicate Acceptable(numItems: nat, numResp: nat, firstDim: Option<nat>, dim: nat, err: Option<(nat, nat)>)
  {
    && numItems == numResp && numItems > 0
    && firstDim == Some(dim)
    && (err.Some? ==> err.value.0 == err.value.1 == dim)
  }

  /** Some entry among the first n is not finite. */
  ghost predicate NonFiniteIn(s: seq<real>, n: nat, finite: real -> bool)
    requires n <= |s|
  {
    n > 0 && (NonFiniteIn(s, n - 1, finite) || !finite(s[n - 1]))
  }

  /** `NonFiniteIn` is the existence of a non-finite entry. */
  lemma {:induction false} NonFiniteInExists(s: seq<real>, n: nat, finite: real -> bool)
    requires n <= |s|
    ensures NonFiniteIn(s, n, finite) <==> exists k :: 0 <= k < n && !finite(s[k])
  {
    if n > 0 {
      NonFiniteInExists(s, n - 1, finite);
    }
  }

  /** One coordinate of a sweep: the step `x` widens the largest step seen,
      coordinate i moves by -x, and a non-finite result marks failure. */
  method Coordinate(theta: seq<real>, x: real, i: nat, diff: real, fail: bool, finite: real -> bool)
      returns (theta': seq<real>, diff': real, fail': bool)
    requires i < |theta|
    ensures theta' == theta[i := theta[i] - x]
    ensures diff' >= diff && diff' >= Abs(x) && (diff' == diff || diff' == Abs(x))
    ensures fail' <==> fail || !finite(theta'[i])
  {
    var y := x;
    diff' := diff;
    if Abs(y) > diff' {
      diff' := Abs(y);
    }
    y := theta[i] - y;
    theta' := theta[i := y];
    fail' := fail;
    if !finite(y) {
      fail' := true;
    }
  }

  /** One sweep of the Newton loop over the coordinates: each coordinate
      update first counts an iteration, and reaching MAX_MLE_ITERS fails
      before that coordinate is touched, leaving the coordinates before it
      moved; a non-finite coordinate fails. */
  method Sweep(theta: seq<real>, d: seq<real>, iters0: nat, finite: real -> bool)
      returns (theta': seq<real>, iters: nat, diff: real, fail: bool, broke: bool, ghost moved: nat)
    requires |d| == |theta| && iters0 < MaxMleIters
    ensures |theta'| == |theta|
    ensures moved <= |theta| && theta' == SubTo(theta, d, moved) && (!broke ==> moved == |theta|)
    ensures iters0 <= iters <= MaxMleIters && (|theta| > 0 ==> iters > iters0)
    ensures broke <==> iters == MaxMleIters
    ensures !broke ==> theta' == Sub(theta, d) && diff == MaxAbs(d) && iters == iters0 + |theta|
    ensures !broke ==> (fail <==> exists i :: 0 <= i < |theta| && !finite(theta'[i]))
    ensures broke ==> fail
  {
    theta' := theta;
    iters := iters0;
    diff := 0.0;
    fail := false;
    broke := false;
    var i := 0;
    while i < |theta|
      invariant 0 <= i <= |theta| && |theta'| == |theta|
      invariant iters == iters0 + i < MaxMleIters
      invariant forall k :: 0 <= k < i ==> theta'[k] == theta[k] - d[k]
      invariant forall k :: i <= k < |theta| ==> theta'[k] == theta[k]
      invariant diff == MaxAbsTo(d, i)
      invariant fail == NonFiniteIn(Sub(theta, d), i, finite)
    {
      iters := iters + 1;
      if iters == MaxMleIters {
        fail := true;
        broke := true;
        moved := i;
        SubToPointwise(theta, d, theta', i);
        return;
      }
      theta', diff, fail := Coordinate(theta', d[i], i, diff, fail, finite);
      i := i + 1;
    }
    assert theta' == Sub(theta, d);
    moved := |theta|;
    NonFiniteInExists(theta', |theta'|, finite);
  }

  /** `oscats_estimate_theta_mle`. Guards failing: failure, theta untouched.
      Otherwise the Newton loop runs until the largest step is within
      `tol` or it fails; fewer than MAX_MLE_ITERS coordinate updates happen
      in all, a success ends on a converged step with every coordinate
      finite, and the error matrix is written exactly on success. Once the
      guards pass, theta ends as the last iterate `last` with its first
      `moved` coordinates stepped: all of them, unless the iteration budget
      ran out in the middle of a sweep. */
  method Mle(numItems: nat, numResp: nat, firstDim: Option<nat>, theta: seq<real>, err: Option<(nat, nat)>,
             step: (seq<real>, nat) -> real, finite: real -> bool, tol: real)
      returns (fail: bool, theta': seq<real>, iters: nat, errWritten: bool, ghost last: seq<real>, ghost moved: nat)
    requires tol > 0.0
    ensures !Acceptable(numItems, numResp, firstDim, |theta|, err) ==> fail && theta' == theta && !errWritten
    ensures Acceptable(numItems, numResp, firstDim, |theta|, err) ==>
      |last| == |theta| && moved <= |theta| && theta' == SubTo(last, Step(step, last), moved)
    ensures !fail ==> moved == |theta|
    ensures |theta'| == |theta| && iters <= MaxMleIters
    ensures !fail ==> iters < MaxMleIters
    ensures !fail ==> |last| == |theta| && theta' == Sub(last, Step(step, last)) && MaxAbs(Step(step, last)) <= tol
    ensures !fail ==> forall i :: 0 <= i < |theta'| ==> finite(theta'[i])
    ensures errWritten <==> err.Some? && !fail
  {
    iters := 0;
    last := theta;
    moved := 0;
    if !Acceptable(numItems, numResp, firstDim, |theta|, err) {
      return true, theta, 0, false, theta, 0;
    }
    theta' := theta;
    fail := false;
    var go := true;
    while go
      invariant |theta'| == |theta| && iters <= MaxMleIters
      invariant |last| == |theta| && moved <= |theta| && theta' == SubTo(last, Step(step, last), moved)
      invariant !fail ==> moved == |theta| || (go && moved == 0)
      invariant !fail ==> iters < MaxMleIters
      invariant !go && !fail ==> |last| == |theta| && theta' == Sub(last, Step(step, last)) && MaxAbs(Step(step, last)) <= tol
      invariant !go && !fail ==> forall i :: 0 <= i < |theta'| ==> finite(theta'[i])
      invariant fail ==> !go
      decreases MaxMleIters - iters, go
    {
      var d := Step(step, theta');
      last := theta';
      var diff: real, broke: bool;
      theta', iters, diff, fail, broke, moved := Sweep(theta', d, iters, finite);
      go := diff > tol && !fail;
    }
    errWritten := err.Some? && !fail;
  }

  /** `oscats_estimate_theta_eap`. Besides the MLE guards only a
      one-dimensional theta is accepted; then theta becomes the posterior
      mean `eap` and, when given, the error matrix receives `sqrs - eap`
      (the second moment minus the mean, as the source writes it). The
      quadrature yielding `eap` and `sqrs` is supplied. */
  method Eap(numItems: nat, numResp: nat, firstDim: Option<nat>, theta: seq<real>, err: Option<(nat, nat)>,
             eap: real, sqrs: real) returns (theta': seq<real>, errValue: Option<real>)
    ensures !(Acceptable(numItems, numResp, firstDim, |theta|, err) && |theta| == 1) ==> theta' == theta && errValue.None?
    ensures Acceptable(numItems, numResp, firstDim, |theta|, err) && |theta| == 1 ==>
      theta' == [eap] && errValue == (if err.Some? then Some(sqrs - eap) else None)
  {
    if !Acceptable(numItems, numResp, firstDim, |theta|, err) || |theta| != 1 {
      return theta, None;
    }
    theta' := [eap];
    errValue := if err.Some? then Some(sqrs - eap) else None;
  }

  // ---- Settings ----

  /** The file-level TOL and EPS (Newton stopping tolerance, EAP weight threshold). */
  class Settings {
    var tol: real
    var eps: real

    ghost predicate Valid()
      reads this
    {
      tol > 0.0 && eps > 0.0
    }

    constructor ()
      ensures Valid() && tol == 0.000001 && eps == 0.00000000000001
    {
      tol := 0.000001;
      eps := 0.00000000000001;
    }

    /** `mle_set_tol`: a non-positive tolerance is refused. */
    method SetTol(t: real)
      requires Valid()
      modifies this
      ensures Valid() && eps == old(eps)
      ensures t > 0.0 ==> tol == t
      ensures t <= 0.0 ==> tol == old(tol)
    {
      if t > 0.0 {
        tol := t;
      }
    }

    /** `eap_set_eps`: a non-positive threshold is refused. */
    method SetEps(e: real)
      requires Valid()
      modifies this
      ensures Valid() && tol == old(tol)
      ensures e > 0.0 ==> eps == e
      ensures e <= 0.0 ==> eps == old(eps)
    {
      if e > 0.0 {
        eps := e;
      }
    }
  }

  // ---- The algorithm object ----

  /** n zeros: a new `gsl` vector. */
  function Zeros(n: nat): (v: seq<real>)
    ensures |v| == n && forall i :: 0 <= i < n ==> v[i] == 0.0
  {
    seq(n, _ => 0.0)
  }

  /** The n × n identity. */
  function Identity(n: nat): (m: seq<seq<real>>)
    ensures |m| == n && forall i :: 0 <= i < n ==> |m[i]| == n
    ensures forall i, j :: 0 <= i < n && 0 <= j < n ==> m[i][j] == if i == j then 1.0 else 0.0
  {
    seq(n, i => seq(n, j => if i == j then 1.0 else 0.0))
  }

  /** A square matrix of size n. */
  predicate Square(m: seq<seq<real>>, n: nat)
  {
    |m| == n && forall i :: 0 <= i < |m| ==> |m[i]| == n
  }

  class Algorithm {
    var flag: int
    /** The EAP prior: mean and covariance. */
    var mu: Option<seq<real>>
    var sigma: Option<seq<seq<real>>>
    /** Whether `administered` is connected to the test. */
    var registered: bool

    constructor (mu: Option<seq<real>>, sigma: Option<seq<seq<real>>>)
      ensures flag == 0 && this.mu == mu && this.sigma == sigma && !registered
    {
      flag := 0;
      this.mu := mu;
      this.sigma := sigma;
      registered := false;
    }

    /** `alg_register`: only for a continuous bank; a missing prior mean
        becomes zeros and a missing covariance the identity, of the bank's
        dimension; a prior of another size stops the registration, keeping
        what was already filled in. */
    method Register(isIrt: bool, dims: nat)
      modifies this
      ensures flag == old(flag)
      ensures !isIrt ==> mu == old(mu) && sigma == old(sigma) && registered == old(registered)
      ensures isIrt ==> mu == (if old(mu).Some? then old(mu) else Some(Zeros(dims)))
      ensures isIrt && old(mu).Some? && |old(mu).value| != dims ==> sigma == old(sigma) && registered == old(registered)
      ensures isIrt && (old(mu).Some? ==> |old(mu).value| == dims) ==>
        sigma == (if old(sigma).Some? then old(sigma) else Some(Identity(dims))) &&
        (registered <==> old(registered) || old(sigma).None? || Square(old(sigma).value, dims))
    {
      if !isIrt {
        return;
      }
      if mu.Some? {
        if |mu.value| != dims {
          return;
        }
      } else {
        mu := Some(Zeros(dims));
      }
      if sigma.Some? {
        if !Square(sigma.value, dims) {
          return;
        }
      } else {
        sigma := Some(Identity(dims));
      }
      registered := true;
    }

    /** `administered`, run after the item and response were appended to
        the examinee's history: the flag steps, then the estimators run as
        the flag and the MLE outcome decide. */
    method Administered(e: Examinee.Examinee, item: Item.Item, resp: nat, mleFails: bool) returns (ran: Estimators)
      modifies this
      ensures flag == NextFlag(old(flag), |e.items| == 1, resp, ItemBank.ItemMax(item, true))
      ensures ran == Dispatch(flag, mleFails)
      ensures mu == old(mu) && sigma == old(sigma) && registered == old(registered)
    {
      flag := NextFlag(flag, |e.items| == 1, resp, ItemBank.ItemMax(item, true));
      ran := Dispatch(flag, mleFails);
    }
  }
}
