// The NIDA ("noisy input, deterministic and") classification model
// (src/liboscats/models/nida.c). Each loaded attribute j has its own guess
// g_j and slip s_j; the correct-response probability is the product over the
// loaded attributes of 1 - s_j (mastered) or g_j (not mastered). With
// n = Ndims the parameter vector holds g_0 .. g_{n-1} at 0 .. n-1 and
// s_0 .. s_{n-1} at n .. 2n-1 (nida.c:30-34, 69).

module Nida {
  import opened Attributes

  /** `get_max`: the responses are 0 and 1. */
  const MaxResponse: nat := 1

  /** A parameter vector for the loaded attributes: two entries per attribute. */
  predicate Shaped(params: seq<real>, loaded: seq<bool>)
  {
    |params| == 2 * |loaded|
  }

  /** Every parameter strictly inside (0, 1), where all derivatives are finite. */
  predicate Interior(params: seq<real>)
  {
    forall i :: 0 <= i < |params| ==> 0.0 < params[i] < 1.0
  }

  /** The parameter attribute j's factor depends on: s_j when attribute j is
      mastered, g_j otherwise. */
  function Own(loaded: seq<bool>, j: nat): (a: nat)
    requires j < |loaded|
    ensures a < 2 * |loaded|
  {
    if loaded[j] then |loaded| + j else j
  }

  /** The attribute a parameter index belongs to. */
  function AttrOf(n: nat, a: nat): nat
  {
    if a < n then a else a - n
  }

  /** Attribute j's factor: 1 - s_j when mastered, g_j otherwise. */
  function Factor(params: seq<real>, loaded: seq<bool>, j: nat): real
    requires Shaped(params, loaded) && j < |loaded|
  {
    if loaded[j] then 1.0 - params[|loaded| + j] else params[j]
  }

  /** The product of the first k factors. */
  function Product(params: seq<real>, loaded: seq<bool>, k: nat): real
    requires Shaped(params, loaded) && k <= |loaded|
  {
    if k == 0 then 1.0 else Product(params, loaded, k - 1) * Factor(params, loaded, k - 1)
  }

  /** The response probability from P(1); 0 outside {0, 1}. */
  function Prob(resp: nat, p1: real): real
  {
    if resp > 1 then 0.0 else if resp == 1 then p1 else 1.0 - p1
  }

  lemma MulUnit(a: real, b: real)
    requires 0.0 <= a <= 1.0 && 0.0 <= b <= 1.0
    ensures 0.0 <= a * b <= a
  {
  }

  lemma MulUnitStrict(a: real, b: real)
    requires 0.0 < a <= 1.0 && 0.0 < b < 1.0
    ensures 0.0 < a * b < 1.0
  {
  }

  /** With every parameter in [0, 1], the product, and so P, lies in [0, 1]. */
  lemma {:induction false} ProductRange(params: seq<real>, loaded: seq<bool>, k: nat)
    requires Shaped(params, loaded) && k <= |loaded|
    requires forall i :: 0 <= i < |params| ==> 0.0 <= params[i] <= 1.0
    ensures 0.0 <= Product(params, loaded, k) <= 1.0
  {
    if k > 0 {
      ProductRange(params, loaded, k - 1);
      MulUnit(Product(params, loaded, k - 1), Factor(params, loaded, k - 1));
    }
  }

  /** With every parameter strictly inside (0, 1) and at least one loaded
      attribute, P(1) lies strictly inside (0, 1). */
  lemma {:induction false} ProductInterior(params: seq<real>, loaded: seq<bool>, k: nat)
    requires Shaped(params, loaded) && k <= |loaded| && Interior(params)
    ensures 0.0 < Product(params, loaded, k) <= 1.0
    ensures k > 0 ==> Product(params, loaded, k) < 1.0
  {
    if k > 0 {
      ProductInterior(params, loaded, k - 1);
      MulUnitStrict(Product(params, loaded, k - 1), Factor(params, loaded, k - 1));
    }
  }

  lemma ProbRange(resp: nat, params: seq<real>, loaded: seq<bool>)
    requires Shaped(params, loaded)
    requires forall i :: 0 <= i < |params| ==> 0.0 <= params[i] <= 1.0
    ensures 0.0 <= Prob(resp, Product(params, loaded, |loaded|)) <= 1.0
    ensures Prob(0, Product(params, loaded, |loaded|)) + Prob(1, Product(params, loaded, |loaded|)) == 1.0
  {
    ProductRange(params, loaded, |loaded|);
  }

  /** `P` (nida.c:90-101): the product over the loaded attributes. */
  method P(params: seq<real>, dims: seq<Index>, resp: nat, attr: Attributes) returns (p: real)
    requires |params| == 2 * |dims|
    ensures p == Prob(resp, Product(params, Loaded(attr.data, attr.num, dims), |dims|))
  {
    if !(resp == 0 || resp == 1) {
      return 0.0;
    }
    ghost var loaded := Loaded(attr.data, attr.num, dims);
    p := 1.0;
    var i := 0;
    while i < |dims|
      invariant 0 <= i <= |dims|
      invariant p == Product(params, loaded, i)
    {
      p := p * (if attr.Get(dims[i]) then 1.0 - params[|dims| + i] else params[i]);
      i := i + 1;
    }
    if resp == 0 {
      p := 1.0 - p;
    }
  }

  // ---- Parameter names (nida.c:62-83) ----

  function DecimalDigit(d: nat): char
    requires d < 10
  {
    "0123456789"[d]
  }

  /** `%d` of a nonnegative number. */
  function Decimal(n: nat): (s: string)
    ensures |s| >= 1
  {
    if n < 10 then [DecimalDigit(n)] else Decimal(n / 10) + [DecimalDigit(n % 10)]
  }

  /** The name of parameter a: `Guess.<d+1>` in the first block and `Diff.<d+1>`
      in the second, d being the attribute the parameter belongs to. */
  function ParamName(dims: seq<Index>, a: nat): (r: string)
    requires a < 2 * |dims|
    ensures |r| > 5
    ensures r[0] == 'G' <==> a < |dims|
    ensures r[0] == 'D' <==> a >= |dims|
  {
    if a < |dims| then "Guess." + Decimal(dims[a] as nat + 1) else "Diff." + Decimal(dims[a - |dims|] as nat + 1)
  }

  // ---- Derivatives of log P with respect to the parameters (nida.c:103-170) ----

  /** What a response of 1 adds to grad[a]: d/ds_j log(1 - s_j) = 1/(s_j - 1)
      and d/dg_j log g_j = 1/g_j for each attribute's own parameter. */
  function Resp1Grad(params: seq<real>, loaded: seq<bool>, a: nat): real
    requires Shaped(params, loaded) && Interior(params) && a < |params|
  {
    var j := AttrOf(|loaded|, a);
    if a != Own(loaded, j) then 0.0
    else if loaded[j] then 1.0 / (params[a] - 1.0)
    else 1.0 / params[a]
  }

  /** What a response of 1 adds to hes[a, b]: minus the squared score on the
      diagonal entries of the own parameters, nothing elsewhere. */
  function Resp1Hes(params: seq<real>, loaded: seq<bool>, a: nat, b: nat): real
    requires Shaped(params, loaded) && Interior(params) && a < |params| && b < |params|
  {
    if a != b then 0.0 else -(Resp1Grad(params, loaded, a) * Resp1Grad(params, loaded, a))
  }

  /** P(1) / P(0), the ratio the response-0 derivatives scale by. */
  function Odds(params: seq<real>, loaded: seq<bool>): real
    requires Shaped(params, loaded) && Interior(params) && |loaded| > 0
  {
    ProductInterior(params, loaded, |loaded|);
    var p1 := Product(params, loaded, |loaded|);
    p1 / (1.0 - p1)
  }

  /** What a response of 0 adds to grad[a]: d/dθ log(1 - P(1)). */
  function Resp0Grad(params: seq<real>, loaded: seq<bool>, a: nat): real
    requires Shaped(params, loaded) && Interior(params) && a < |params|
  {
    var j := AttrOf(|loaded|, a);
    if a != Own(loaded, j) then 0.0
    else if loaded[j] then Odds(params, loaded) / Factor(params, loaded, j)
    else -(Odds(params, loaded) / Factor(params, loaded, j))
  }

  /** What a response of 0 adds to hes[a, b]. Between the own parameters of
      two different attributes the entry is -σ_j σ_k · L / (1 - P(1)) / W_j / W_k
      with L the odds, W the factors and σ the signs. */
  function Resp0Hes(params: seq<real>, loaded: seq<bool>, a: nat, b: nat): real
    requires Shaped(params, loaded) && Interior(params) && a < |params| && b < |params|
  {
    var n := |loaded|;
    var j, k := AttrOf(n, a), AttrOf(n, b);
    if a != Own(loaded, j) || b != Own(loaded, k) then 0.0
    else if j == k then -(Resp0Grad(params, loaded, a) * Resp0Grad(params, loaded, a))
    else
      var lo, hi := if j < k then j else k, if j < k then k else j;
      if loaded[j] == loaded[k] then -(Scaled(params, loaded, lo) / Factor(params, loaded, hi))
      else Scaled(params, loaded, lo) / Factor(params, loaded, hi)
  }

  /** L / W_j / (1 - P(1)): the factor attribute j contributes to every cross
      entry it takes part in, L being the odds. */
  function Scaled(params: seq<real>, loaded: seq<bool>, j: nat): real
    requires Shaped(params, loaded) && Interior(params) && j < |loaded|
  {
    ProductInterior(params, loaded, |loaded|);
    Odds(params, loaded) / Factor(params, loaded, j) / (1.0 - Product(params, loaded, |loaded|))
  }

  // ---- The additions the loops make, with the added values kept abstract ----
  //
  // Each loop adds, attribute by attribute, one value at the own parameter of
  // that attribute (and, for a response of 0, one value at each pair of own
  // parameters). The functions below describe where the additions go, for
  // any sequence of added values; separate lemmas then show that the values
  // the code computes are the derivatives above.

  function Zeros(m: nat): (v: seq<real>)
    ensures |v| == m
  {
    seq(m, _ => 0.0)
  }

  /** A square matrix of side m. */
  predicate Square(h: seq<seq<real>>, m: nat)
  {
    |h| == m && forall i :: 0 <= i < m ==> |h[i]| == m
  }

  function ZeroMatrix(m: nat): (h: seq<seq<real>>)
    ensures Square(h, m)
  {
    seq(m, _ => Zeros(m))
  }

  /** `v[i] += x`. */
  function AddAt(v: seq<real>, i: nat, x: real): (r: seq<real>)
    requires i < |v|
    ensures |r| == |v|
  {
    v[i := v[i] + x]
  }

  /** `h[i][k] += x`. */
  function AddAt2(h: seq<seq<real>>, i: nat, k: nat, x: real): (r: seq<seq<real>>)
    requires Square(h, |h|) && i < |h| && k < |h|
    ensures Square(r, |h|)
  {
    h[i := h[i][k := h[i][k] + x]]
  }

  /** Whether parameter a is the own parameter of its attribute. */
  predicate IsOwn(loaded: seq<bool>, a: nat)
  {
    a < 2 * |loaded| && a == Own(loaded, AttrOf(|loaded|, a))
  }

  /** The gradient after attributes 0 .. j-1 have each added vals[k] at their own parameter. */
  function GradUpto(loaded: seq<bool>, vals: seq<real>, j: nat): (v: seq<real>)
    requires |vals| == |loaded| && j <= |loaded|
    ensures |v| == 2 * |loaded|
  {
    if j == 0 then Zeros(2 * |loaded|)
    else AddAt(GradUpto(loaded, vals, j - 1), Own(loaded, j - 1), vals[j - 1])
  }

  /** The Hessian after attributes 0 .. j-1 have each added vals[k] at their own diagonal entry. */
  function DiagUpto(loaded: seq<bool>, vals: seq<real>, j: nat): (h: seq<seq<real>>)
    requires |vals| == |loaded| && j <= |loaded|
    ensures Square(h, 2 * |loaded|)
  {
    if j == 0 then ZeroMatrix(2 * |loaded|)
    else
      var own := Own(loaded, j - 1);
      AddAt2(DiagUpto(loaded, vals, j - 1), own, own, vals[j - 1])
  }

  /** Attribute k's addition reaches exactly its own parameter. */
  lemma {:induction false} GradUptoAt(loaded: seq<bool>, vals: seq<real>, j: nat)
    requires |vals| == |loaded| && j <= |loaded|
    ensures forall a :: 0 <= a < 2 * |loaded| ==>
      GradUpto(loaded, vals, j)[a] == if AttrOf(|loaded|, a) < j && IsOwn(loaded, a) then vals[AttrOf(|loaded|, a)] else 0.0
  {
    if j > 0 {
      GradUptoAt(loaded, vals, j - 1);
    }
  }

  lemma {:induction false} DiagUptoAt(loaded: seq<bool>, vals: seq<real>, j: nat)
    requires |vals| == |loaded| && j <= |loaded|
    ensures forall a, b :: 0 <= a < 2 * |loaded| && 0 <= b < 2 * |loaded| ==>
      DiagUpto(loaded, vals, j)[a][b]
      == if AttrOf(|loaded|, a) < j && IsOwn(loaded, a) && b == a then vals[AttrOf(|loaded|, a)] else 0.0
  {
    if j > 0 {
      DiagUptoAt(loaded, vals, j - 1);
    }
  }

  // ---- Response 1 (nida.c:118-129) ----

  /** sc[k] and dg[k] are the score and Hessian of log P(1) at attribute k's own parameter. */
  predicate Values1(params: seq<real>, loaded: seq<bool>, sc: seq<real>, dg: seq<real>, k: nat)
    requires Shaped(params, loaded) && Interior(params) && |sc| == |dg| == |loaded| && k < |loaded|
  {
    var own := Own(loaded, k);
    sc[k] == Resp1Grad(params, loaded, own) && dg[k] == Resp1Hes(params, loaded, own, own)
  }

  lemma MakeValues1(params: seq<real>, loaded: seq<bool>) returns (sc: seq<real>, dg: seq<real>)
    requires Shaped(params, loaded) && Interior(params)
    ensures |sc| == |dg| == |loaded|
    ensures forall k :: 0 <= k < |loaded| ==> Values1(params, loaded, sc, dg, k)
  {
    sc := seq(|loaded|, k requires 0 <= k < |loaded| => Resp1Grad(params, loaded, Own(loaded, k)));
    dg := seq(|loaded|, k requires 0 <= k < |loaded| => Resp1Hes(params, loaded, Own(loaded, k), Own(loaded, k)));
  }

  /** Entry by entry: the additions of all attributes are the derivatives of log P(1). */
  lemma Resp1ClosedAt(params: seq<real>, loaded: seq<bool>, sc: seq<real>, dg: seq<real>, a: nat, b: nat)
    requires Shaped(params, loaded) && Interior(params) && |sc| == |dg| == |loaded|
    requires a < |params| && b < |params|
    requires IsOwn(loaded, a) ==> Values1(params, loaded, sc, dg, AttrOf(|loaded|, a))
    ensures (if IsOwn(loaded, a) then sc[AttrOf(|loaded|, a)] else 0.0) == Resp1Grad(params, loaded, a)
    ensures (if IsOwn(loaded, a) && b == a then dg[AttrOf(|loaded|, a)] else 0.0) == Resp1Hes(params, loaded, a, b)
  {
  }

  /** Once every attribute has added its score, the gradient additions are
      the gradient of log P(1). */
  lemma Resp1GradClosed(params: seq<real>, loaded: seq<bool>, sc: seq<real>, dg: seq<real>)
    requires Shaped(params, loaded) && Interior(params) && |sc| == |dg| == |loaded|
    requires forall k :: 0 <= k < |loaded| ==> Values1(params, loaded, sc, dg, k)
    ensures forall a :: 0 <= a < |params| ==>
      GradUpto(loaded, sc, |loaded|)[a] == Resp1Grad(params, loaded, a)
  {
    var n := |loaded|;
    GradUptoAt(loaded, sc, n);
    forall a | 0 <= a < |params|
      ensures GradUpto(loaded, sc, n)[a] == Resp1Grad(params, loaded, a)
    {
      if IsOwn(loaded, a) {
        assert Values1(params, loaded, sc, dg, AttrOf(n, a));
      }
      Resp1ClosedAt(params, loaded, sc, dg, a, a);
    }
  }

  /** Once every attribute has added its diagonal value, the Hessian additions
      are the Hessian of log P(1). */
  lemma Resp1HesClosed(params: seq<real>, loaded: seq<bool>, sc: seq<real>, dg: seq<real>)
    requires Shaped(params, loaded) && Interior(params) && |sc| == |dg| == |loaded|
    requires forall k :: 0 <= k < |loaded| ==> Values1(params, loaded, sc, dg, k)
    ensures forall a, b :: 0 <= a < |params| && 0 <= b < |params| ==>
      DiagUpto(loaded, dg, |loaded|)[a][b] == Resp1Hes(params, loaded, a, b)
  {
    var n := |loaded|;
    DiagUptoAt(loaded, dg, n);
    forall a, b | 0 <= a < |params| && 0 <= b < |params|
      ensures DiagUpto(loaded, dg, n)[a][b] == Resp1Hes(params, loaded, a, b)
    {
      if IsOwn(loaded, a) {
        assert Values1(params, loaded, sc, dg, AttrOf(n, a));
      }
      Resp1ClosedAt(params, loaded, sc, dg, a, b);
    }
  }

  /** One pass of the response-1 loop: attribute j adds its score at its own
      parameter and minus the squared score at that diagonal entry. Either
      buffer may be absent (NULL), and is then skipped. */
  method AddResp1At(params: seq<real>, dims: seq<Index>, attr: Attributes, j: nat,
                    ghost sc: seq<real>, ghost dg: seq<real>, grad: array?<real>, hes: array2?<real>)
    requires |params| == 2 * |dims| && Interior(params) && j < |dims| && |sc| == |dg| == |dims|
    requires Values1(params, Loaded(attr.data, attr.num, dims), sc, dg, j)
    requires grad != null ==> grad.Length == |params|
    requires hes != null ==> hes.Length0 == |params| && hes.Length1 == |params|
    modifies grad, hes
    ensures grad != null ==>
      forall a :: 0 <= a < |params| ==> grad[a] == old(grad[a]) + (if a == Own(Loaded(attr.data, attr.num, dims), j) then sc[j] else 0.0)
    ensures hes != null ==> forall a, b :: 0 <= a < |params| && 0 <= b < |params| ==>
      hes[a, b] == old(hes[a, b]) + (if a == Own(Loaded(attr.data, attr.num, dims), j) && b == a then dg[j] else 0.0)
  {
    var n := |dims|;
    if attr.Get(dims[j]) {
      var gradVal := 1.0 / (params[n + j] - 1.0);
      if grad != null { grad[n + j] := grad[n + j] + gradVal; }
      if hes != null { hes[n + j, n + j] := hes[n + j, n + j] - gradVal * gradVal; }
    } else {
      var gradVal := 1.0 / params[j];
      if grad != null { grad[j] := grad[j] + gradVal; }
      if hes != null { hes[j, j] := hes[j, j] - gradVal * gradVal; }
    }
  }

  /** The response-1 branch: adds the derivatives of log P(1) to each buffer
      that is present. */
  method AddResp1(params: seq<real>, dims: seq<Index>, attr: Attributes, grad: array?<real>, hes: array2?<real>)
    requires |params| == 2 * |dims| && Interior(params)
    requires grad != null ==> grad.Length == |params|
    requires hes != null ==> hes.Length0 == |params| && hes.Length1 == |params|
    modifies grad, hes
    ensures grad != null ==> forall a :: 0 <= a < |params| ==>
      grad[a] == old(grad[a]) + Resp1Grad(params, Loaded(attr.data, attr.num, dims), a)
    ensures hes != null ==> forall a, b :: 0 <= a < |params| && 0 <= b < |params| ==>
      hes[a, b] == old(hes[a, b]) + Resp1Hes(params, Loaded(attr.data, attr.num, dims), a, b)
  {
    ghost var loaded := Loaded(attr.data, attr.num, dims);
    ghost var sc, dg := MakeValues1(params, loaded);
    var j := 0;
    while j < |dims|
      invariant 0 <= j <= |dims|
      invariant grad != null ==> forall a :: 0 <= a < |params| ==> grad[a] == old(grad[a]) + GradUpto(loaded, sc, j)[a]
      invariant hes != null ==> forall a, b :: 0 <= a < |params| && 0 <= b < |params| ==>
        hes[a, b] == old(hes[a, b]) + DiagUpto(loaded, dg, j)[a][b]
    {
      AddResp1At(params, dims, attr, j, sc, dg, grad, hes);
      j := j + 1;
    }
    Resp1GradClosed(params, loaded, sc, dg);
    Resp1HesClosed(params, loaded, sc, dg);
  }

  // ---- Response 0 (nida.c:130-169) ----

  /** The smaller and the larger attribute of entry (a, b). */
  function Lo(n: nat, a: nat, b: nat): nat
  {
    if AttrOf(n, a) < AttrOf(n, b) then AttrOf(n, a) else AttrOf(n, b)
  }

  function Hi(n: nat, a: nat, b: nat): nat
  {
    if AttrOf(n, a) < AttrOf(n, b) then AttrOf(n, b) else AttrOf(n, a)
  }

  /** Whether the response-0 loops have reached entry (a, b) when the outer
      loop is at attribute j and the inner loop at attribute k. */
  predicate Done(n: nat, a: nat, b: nat, j: nat, k: nat)
  {
    Lo(n, a, b) < j || (Lo(n, a, b) == j && Hi(n, a, b) < k)
  }

  /** The value the response-0 loops add at entry (a, b): dg[j] on the own
      diagonal entry of attribute j, cr[j][k] at both entries pairing the own
      parameters of attributes j < k, nothing elsewhere. */
  function Entry0(loaded: seq<bool>, dg: seq<real>, cr: seq<seq<real>>, a: nat, b: nat): real
    requires |dg| == |loaded| && Square(cr, |loaded|) && a < 2 * |loaded| && b < 2 * |loaded|
  {
    var n := |loaded|;
    if !(IsOwn(loaded, a) && IsOwn(loaded, b)) then 0.0
    else if AttrOf(n, a) == AttrOf(n, b) then dg[AttrOf(n, a)]
    else cr[Lo(n, a, b)][Hi(n, a, b)]
  }

  /** The Hessian after the outer loop has finished attributes 0 .. j-1. */
  function HesDone(loaded: seq<bool>, dg: seq<real>, cr: seq<seq<real>>, j: nat): (h: seq<seq<real>>)
    requires |dg| == |loaded| && Square(cr, |loaded|) && j <= |loaded|
    ensures Square(h, 2 * |loaded|)
    decreases j, 0
  {
    if j == 0 then ZeroMatrix(2 * |loaded|) else HesRow(loaded, dg, cr, j - 1, |loaded|)
  }

  /** The Hessian inside outer pass j, once the diagonal entry and the pairs
      (j, j+1) .. (j, k-1) have been added. */
  function HesRow(loaded: seq<bool>, dg: seq<real>, cr: seq<seq<real>>, j: nat, k: nat): (h: seq<seq<real>>)
    requires |dg| == |loaded| && Square(cr, |loaded|) && j < k <= |loaded|
    ensures Square(h, 2 * |loaded|)
    decreases j, k
  {
    var own := Own(loaded, j);
    if k == j + 1 then AddAt2(HesDone(loaded, dg, cr, j), own, own, dg[j])
    else
      var other := Own(loaded, k - 1);
      var h := HesRow(loaded, dg, cr, j, k - 1);
      AddAt2(AddAt2(h, own, other, cr[j][k - 1]), other, own, cr[j][k - 1])
  }

  lemma {:induction false} HesDoneAt(loaded: seq<bool>, dg: seq<real>, cr: seq<seq<real>>, j: nat, a: nat, b: nat)
    requires |dg| == |loaded| && Square(cr, |loaded|) && j <= |loaded|
    requires a < 2 * |loaded| && b < 2 * |loaded|
    ensures HesDone(loaded, dg, cr, j)[a][b] == if Lo(|loaded|, a, b) < j then Entry0(loaded, dg, cr, a, b) else 0.0
    decreases j, 0, 0
  {
    if j > 0 {
      HesRowAt(loaded, dg, cr, j - 1, |loaded|, a, b);
    }
  }

  /** Entry (a, b) inside outer pass j holds its value once the loops have reached it. */
  lemma {:induction false} HesRowAt(loaded: seq<bool>, dg: seq<real>, cr: seq<seq<real>>, j: nat, k: nat, a: nat, b: nat)
    requires |dg| == |loaded| && Square(cr, |loaded|) && j < k <= |loaded|
    requires a < 2 * |loaded| && b < 2 * |loaded|
    ensures HesRow(loaded, dg, cr, j, k)[a][b] == if Done(|loaded|, a, b, j, k) then Entry0(loaded, dg, cr, a, b) else 0.0
    decreases j, k, 1
  {
    if k == j + 1 {
      HesRowFirstAt(loaded, dg, cr, j, a, b);
    } else {
      HesRowNextAt(loaded, dg, cr, j, k - 1, a, b);
    }
  }

  lemma {:induction false} HesRowFirstAt(loaded: seq<bool>, dg: seq<real>, cr: seq<seq<real>>, j: nat, a: nat, b: nat)
    requires |dg| == |loaded| && Square(cr, |loaded|) && j < |loaded|
    requires a < 2 * |loaded| && b < 2 * |loaded|
    ensures HesRow(loaded, dg, cr, j, j + 1)[a][b] == if Done(|loaded|, a, b, j, j + 1) then Entry0(loaded, dg, cr, a, b) else 0.0
    decreases j, j + 1, 0
  {
    HesDoneAt(loaded, dg, cr, j, a, b);
    RowFirst(loaded, dg, cr, j, a, b);
    DiagReached(loaded, dg, cr, j, a, b);
  }

  lemma {:induction false} HesRowNextAt(loaded: seq<bool>, dg: seq<real>, cr: seq<seq<real>>, j: nat, k: nat, a: nat, b: nat)
    requires |dg| == |loaded| && Square(cr, |loaded|) && j < k < |loaded|
    requires a < 2 * |loaded| && b < 2 * |loaded|
    ensures HesRow(loaded, dg, cr, j, k + 1)[a][b] == if Done(|loaded|, a, b, j, k + 1) then Entry0(loaded, dg, cr, a, b) else 0.0
    decreases j, k + 1, 0
  {
    HesRowAt(loaded, dg, cr, j, k, a, b);
    RowNext(loaded, dg, cr, j, k, a, b);
    CrossReached(loaded, dg, cr, j, k, a, b);
  }

  /** Outer pass j begins by adding dg[j] at its own diagonal entry. */
  lemma RowFirst(loaded: seq<bool>, dg: seq<real>, cr: seq<seq<real>>, j: nat, a: nat, b: nat)
    requires |dg| == |loaded| && Square(cr, |loaded|) && j < |loaded|
    requires a < 2 * |loaded| && b < 2 * |loaded|
    ensures var own := Own(loaded, j);
      HesRow(loaded, dg, cr, j, j + 1)[a][b]
      == HesDone(loaded, dg, cr, j)[a][b] + (if a == own && b == own then dg[j] else 0.0)
  {
  }

  /** Inner pass k adds cr[j][k] at the two entries pairing the own parameters of j and k. */
  lemma RowNext(loaded: seq<bool>, dg: seq<real>, cr: seq<seq<real>>, j: nat, k: nat, a: nat, b: nat)
    requires |dg| == |loaded| && Square(cr, |loaded|) && j < k < |loaded|
    requires a < 2 * |loaded| && b < 2 * |loaded|
    ensures var oj, ok := Own(loaded, j), Own(loaded, k);
      HesRow(loaded, dg, cr, j, k + 1)[a][b]
      == HesRow(loaded, dg, cr, j, k)[a][b] + (if (a == oj && b == ok) || (a == ok && b == oj) then cr[j][k] else 0.0)
  {
  }

  /** RowNext at every entry of the Hessian. */
  lemma RowStep(loaded: seq<bool>, dg: seq<real>, cr: seq<seq<real>>, j: nat, k: nat)
    requires |dg| == |loaded| && Square(cr, |loaded|) && j < k < |loaded|
    ensures forall a, b :: 0 <= a < 2 * |loaded| && 0 <= b < 2 * |loaded| ==>
      var oj, ok := Own(loaded, j), Own(loaded, k);
      HesRow(loaded, dg, cr, j, k + 1)[a][b]
      == HesRow(loaded, dg, cr, j, k)[a][b] + (if (a == oj && b == ok) || (a == ok && b == oj) then cr[j][k] else 0.0)
  {
    forall a, b | 0 <= a < 2 * |loaded| && 0 <= b < 2 * |loaded|
      ensures var oj, ok := Own(loaded, j), Own(loaded, k);
        HesRow(loaded, dg, cr, j, k + 1)[a][b]
        == HesRow(loaded, dg, cr, j, k)[a][b] + (if (a == oj && b == ok) || (a == ok && b == oj) then cr[j][k] else 0.0)
    {
      RowNext(loaded, dg, cr, j, k, a, b);
    }
  }

  /** The only own pair whose attributes are both j is the own diagonal entry of j. */
  lemma DiagReached(loaded: seq<bool>, dg: seq<real>, cr: seq<seq<real>>, j: nat, a: nat, b: nat)
    requires |dg| == |loaded| && Square(cr, |loaded|) && j < |loaded|
    requires a < 2 * |loaded| && b < 2 * |loaded|
    ensures var own := Own(loaded, j);
      (if Done(|loaded|, a, b, j, j + 1) then Entry0(loaded, dg, cr, a, b) else 0.0)
      == (if Done(|loaded|, a, b, j, j) then Entry0(loaded, dg, cr, a, b) else 0.0)
         + (if a == own && b == own then dg[j] else 0.0)
  {
  }

  /** The only own pairs whose attributes are j and k are (own_j, own_k) and (own_k, own_j). */
  lemma CrossReached(loaded: seq<bool>, dg: seq<real>, cr: seq<seq<real>>, j: nat, k: nat, a: nat, b: nat)
    requires |dg| == |loaded| && Square(cr, |loaded|) && j < k < |loaded|
    requires a < 2 * |loaded| && b < 2 * |loaded|
    ensures var oj, ok := Own(loaded, j), Own(loaded, k);
      (if Done(|loaded|, a, b, j, k + 1) then Entry0(loaded, dg, cr, a, b) else 0.0)
      == (if Done(|loaded|, a, b, j, k) then Entry0(loaded, dg, cr, a, b) else 0.0)
         + (if (a == oj && b == ok) || (a == ok && b == oj) then cr[j][k] else 0.0)
  {
  }

  /** The values the response-0 loops add at attribute k's own parameter and own diagonal entry. */
  predicate Values0(params: seq<real>, loaded: seq<bool>, sc: seq<real>, dg: seq<real>, k: nat)
    requires Shaped(params, loaded) && Interior(params) && |sc| == |dg| == |loaded| && k < |loaded|
  {
    var own := Own(loaded, k);
    sc[k] == Resp0Grad(params, loaded, own) && dg[k] == Resp0Hes(params, loaded, own, own)
  }

  /** The value the response-0 loops add at the entries pairing the own parameters of j and k. */
  predicate Cross0(params: seq<real>, loaded: seq<bool>, cr: seq<seq<real>>, j: nat, k: nat)
    requires Shaped(params, loaded) && Interior(params) && Square(cr, |loaded|) && j < |loaded| && k < |loaded|
  {
    cr[j][k] == Resp0Hes(params, loaded, Own(loaded, j), Own(loaded, k))
  }

  lemma MakeValues0(params: seq<real>, loaded: seq<bool>) returns (sc: seq<real>, dg: seq<real>, cr: seq<seq<real>>)
    requires Shaped(params, loaded) && Interior(params)
    ensures |sc| == |dg| == |loaded| && Square(cr, |loaded|)
    ensures forall k :: 0 <= k < |loaded| ==> Values0(params, loaded, sc, dg, k)
    ensures forall j, k :: 0 <= j < |loaded| && 0 <= k < |loaded| ==> Cross0(params, loaded, cr, j, k)
  {
    var n := |loaded|;
    sc := seq(n, k requires 0 <= k < n => Resp0Grad(params, loaded, Own(loaded, k)));
    dg := seq(n, k requires 0 <= k < n => Resp0Hes(params, loaded, Own(loaded, k), Own(loaded, k)));
    cr := seq(n, j requires 0 <= j < n =>
            seq(n, k requires 0 <= k < n => Resp0Hes(params, loaded, Own(loaded, j), Own(loaded, k))));
  }

  /** Entry by entry: what the response-0 loops add is the Hessian of log P(0). */
  lemma Resp0HesClosedAt(params: seq<real>, loaded: seq<bool>, dg: seq<real>, cr: seq<seq<real>>, a: nat, b: nat)
    requires Shaped(params, loaded) && Interior(params) && |dg| == |loaded| && Square(cr, |loaded|)
    requires a < |params| && b < |params|
    requires IsOwn(loaded, a) && IsOwn(loaded, b) && AttrOf(|loaded|, a) == AttrOf(|loaded|, b) ==>
      dg[AttrOf(|loaded|, a)] == Resp0Hes(params, loaded, a, a)
    requires IsOwn(loaded, a) && IsOwn(loaded, b) && AttrOf(|loaded|, a) != AttrOf(|loaded|, b) ==>
      Cross0(params, loaded, cr, Lo(|loaded|, a, b), Hi(|loaded|, a, b))
    ensures Entry0(loaded, dg, cr, a, b) == Resp0Hes(params, loaded, a, b)
  {
  }

  lemma Resp0GradClosed(params: seq<real>, loaded: seq<bool>, sc: seq<real>, dg: seq<real>)
    requires Shaped(params, loaded) && Interior(params) && |sc| == |dg| == |loaded|
    requires forall k :: 0 <= k < |loaded| ==> Values0(params, loaded, sc, dg, k)
    ensures forall a :: 0 <= a < |params| ==>
      GradUpto(loaded, sc, |loaded|)[a] == Resp0Grad(params, loaded, a)
  {
    var n := |loaded|;
    GradUptoAt(loaded, sc, n);
    forall a | 0 <= a < |params|
      ensures GradUpto(loaded, sc, n)[a] == Resp0Grad(params, loaded, a)
    {
      if IsOwn(loaded, a) {
        assert Values0(params, loaded, sc, dg, AttrOf(n, a));
      }
    }
  }

  lemma Resp0HesClosed(params: seq<real>, loaded: seq<bool>, sc: seq<real>, dg: seq<real>, cr: seq<seq<real>>)
    requires Shaped(params, loaded) && Interior(params) && |sc| == |dg| == |loaded| && Square(cr, |loaded|)
    requires forall k :: 0 <= k < |loaded| ==> Values0(params, loaded, sc, dg, k)
    requires forall j, k :: 0 <= j < |loaded| && 0 <= k < |loaded| ==> Cross0(params, loaded, cr, j, k)
    ensures forall a, b :: 0 <= a < |params| && 0 <= b < |params| ==>
      HesDone(loaded, dg, cr, |loaded|)[a][b] == Resp0Hes(params, loaded, a, b)
  {
    var n := |loaded|;
    forall a, b | 0 <= a < |params| && 0 <= b < |params|
      ensures HesDone(loaded, dg, cr, n)[a][b] == Resp0Hes(params, loaded, a, b)
    {
      HesDoneAt(loaded, dg, cr, n, a, b);
      if IsOwn(loaded, a) && IsOwn(loaded, b) {
        assert Values0(params, loaded, sc, dg, AttrOf(n, a));
        assert Cross0(params, loaded, cr, Lo(n, a, b), Hi(n, a, b));
      }
      Resp0HesClosedAt(params, loaded, dg, cr, a, b);
    }
  }

  /** The first part of outer pass j of the response-0 loop: the score at the
      own parameter and minus its square at that diagonal entry. Returns the
      unsigned score L / W_j. */
  method AddResp0Own(params: seq<real>, dims: seq<Index>, attr: Attributes, j: nat, logit: real,
                     ghost sc: seq<real>, ghost dg: seq<real>, grad: array<real>, hes: array2<real>)
    returns (gradVal: real)
    requires |params| == 2 * |dims| && Interior(params) && j < |dims| && |sc| == |dg| == |dims|
    requires logit == Odds(params, Loaded(attr.data, attr.num, dims))
    requires Values0(params, Loaded(attr.data, attr.num, dims), sc, dg, j)
    requires grad.Length == |params| && hes.Length0 == |params| && hes.Length1 == |params|
    modifies grad, hes
    ensures gradVal == logit / Factor(params, Loaded(attr.data, attr.num, dims), j)
    ensures forall a :: 0 <= a < |params| ==> grad[a] == old(grad[a]) + (if a == Own(Loaded(attr.data, attr.num, dims), j) then sc[j] else 0.0)
    ensures forall a, b :: 0 <= a < |params| && 0 <= b < |params| ==>
      hes[a, b] == old(hes[a, b]) + (if a == Own(Loaded(attr.data, attr.num, dims), j) && b == a then dg[j] else 0.0)
  {
    var n := |dims|;
    if attr.Get(dims[j]) {
      gradVal := logit / (1.0 - params[n + j]);
      grad[n + j] := grad[n + j] + gradVal;
      hes[n + j, n + j] := hes[n + j, n + j] - gradVal * gradVal;
    } else {
      gradVal := logit / params[j];
      grad[j] := grad[j] - gradVal;
      hes[j, j] := hes[j, j] - gradVal * gradVal;
    }
  }

  /** One pass of the inner response-0 loop: the cross entries between the own
      parameters of attributes j < k, subtracted when both are mastered or both
      are not, added otherwise. */
  method AddResp0Cross(params: seq<real>, dims: seq<Index>, attr: Attributes, j: nat, k: nat, gradVal: real,
                       ghost cr: seq<seq<real>>, hes: array2<real>)
    requires |params| == 2 * |dims| && Interior(params) && j < k < |dims| && Square(cr, |dims|)
    requires gradVal == Scaled(params, Loaded(attr.data, attr.num, dims), j)
    requires Cross0(params, Loaded(attr.data, attr.num, dims), cr, j, k)
    requires hes.Length0 == |params| && hes.Length1 == |params|
    modifies hes
    ensures forall a, b :: 0 <= a < |params| && 0 <= b < |params| ==>
      var oj, ok := Own(Loaded(attr.data, attr.num, dims), j), Own(Loaded(attr.data, attr.num, dims), k);
      hes[a, b] == old(hes[a, b]) + (if (a == oj && b == ok) || (a == ok && b == oj) then cr[j][k] else 0.0)
  {
    var n := |dims|;
    if attr.Get(dims[j]) {
      if attr.Get(dims[k]) {
        var hesVal := gradVal / (1.0 - params[n + k]);
        hes[n + j, n + k] := hes[n + j, n + k] - hesVal;
        hes[n + k, n + j] := hes[n + k, n + j] - hesVal;
      } else {
        var hesVal := gradVal / params[k];
        hes[n + j, k] := hes[n + j, k] + hesVal;
        hes[k, n + j] := hes[k, n + j] + hesVal;
      }
    } else {
      if attr.Get(dims[k]) {
        var hesVal := gradVal / (1.0 - params[n + k]);
        hes[j, n + k] := hes[j, n + k] + hesVal;
        hes[n + k, j] := hes[n + k, j] + hesVal;
      } else {
        var hesVal := gradVal / params[k];
        hes[j, k] := hes[j, k] - hesVal;
        hes[k, j] := hes[k, j] - hesVal;
      }
    }
  }

  /** One pass of the inner response-0 loop, stated against the Hessian
      the loops have built so far: from HesRow at k to HesRow at k + 1. */
  method AddResp0Step(params: seq<real>, dims: seq<Index>, attr: Attributes, j: nat, k: nat, gradVal: real,
                      ghost loaded: seq<bool>, ghost dg: seq<real>, ghost cr: seq<seq<real>>,
                      ghost h0: seq<seq<real>>, hes: array2<real>)
    requires |params| == 2 * |dims| && Interior(params) && j < k < |dims|
    requires loaded == Loaded(attr.data, attr.num, dims)
    requires |dg| == |dims| && Square(cr, |dims|) && Square(h0, |params|)
    requires gradVal == Scaled(params, loaded, j)
    requires Cross0(params, loaded, cr, j, k)
    requires hes.Length0 == |params| && hes.Length1 == |params|
    requires forall a, b :: 0 <= a < |params| && 0 <= b < |params| ==>
      hes[a, b] == h0[a][b] + HesRow(loaded, dg, cr, j, k)[a][b]
    modifies hes
    ensures forall a, b :: 0 <= a < |params| && 0 <= b < |params| ==>
      hes[a, b] == h0[a][b] + HesRow(loaded, dg, cr, j, k + 1)[a][b]
  {
    AddResp0Cross(params, dims, attr, j, k, gradVal, cr, hes);
    RowStep(loaded, dg, cr, j, k);
  }

  /** The inner response-0 loop of outer pass j, for k = j+1 .. Ndims-1: takes
      the Hessian from the state after the diagonal entry of j to the state
      after the whole pass, relative to a fixed base `h0`. */
  method AddResp0Row(params: seq<real>, dims: seq<Index>, attr: Attributes, j: nat, gradVal: real,
                     ghost dg: seq<real>, ghost cr: seq<seq<real>>, ghost h0: seq<seq<real>>, hes: array2<real>)
    requires |params| == 2 * |dims| && Interior(params) && j < |dims|
    requires |dg| == |dims| && Square(cr, |dims|) && Square(h0, |params|)
    requires gradVal == Scaled(params, Loaded(attr.data, attr.num, dims), j)
    requires forall k :: 0 <= k < |dims| ==> Cross0(params, Loaded(attr.data, attr.num, dims), cr, j, k)
    requires hes.Length0 == |params| && hes.Length1 == |params|
    requires forall a, b :: 0 <= a < |params| && 0 <= b < |params| ==>
      hes[a, b] == h0[a][b] + HesRow(Loaded(attr.data, attr.num, dims), dg, cr, j, j + 1)[a][b]
    modifies hes
    ensures forall a, b :: 0 <= a < |params| && 0 <= b < |params| ==>
      hes[a, b] == h0[a][b] + HesDone(Loaded(attr.data, attr.num, dims), dg, cr, j + 1)[a][b]
  {
    ghost var loaded := Loaded(attr.data, attr.num, dims);
    var k := j + 1;
    while k < |dims|
      invariant j + 1 <= k <= |dims|
      invariant forall a, b :: 0 <= a < |params| && 0 <= b < |params| ==>
        hes[a, b] == h0[a][b] + HesRow(loaded, dg, cr, j, k)[a][b]
    {
      AddResp0Step(params, dims, attr, j, k, gradVal, loaded, dg, cr, h0, hes);
      k := k + 1;
    }
  }

  /** Outer pass j of the response-0 loop: the score and diagonal entry of
      attribute j, then its cross entries with every later attribute. */
  method AddResp0Pass(params: seq<real>, dims: seq<Index>, attr: Attributes, j: nat, p: real, logit: real,
                      ghost sc: seq<real>, ghost dg: seq<real>, ghost cr: seq<seq<real>>,
                      ghost g0: seq<real>, ghost h0: seq<seq<real>>, grad: array<real>, hes: array2<real>)
    requires |params| == 2 * |dims| && Interior(params) && j < |dims|
    requires |sc| == |dg| == |dims| && Square(cr, |dims|) && |g0| == |params| && Square(h0, |params|)
    requires p == Product(params, Loaded(attr.data, attr.num, dims), |dims|)
    requires logit == Odds(params, Loaded(attr.data, attr.num, dims))
    requires Values0(params, Loaded(attr.data, attr.num, dims), sc, dg, j)
    requires forall k :: 0 <= k < |dims| ==> Cross0(params, Loaded(attr.data, attr.num, dims), cr, j, k)
    requires grad.Length == |params| && hes.Length0 == |params| && hes.Length1 == |params|
    requires forall a :: 0 <= a < |params| ==> grad[a] == g0[a] + GradUpto(Loaded(attr.data, attr.num, dims), sc, j)[a]
    requires forall a, b :: 0 <= a < |params| && 0 <= b < |params| ==>
      hes[a, b] == h0[a][b] + HesDone(Loaded(attr.data, attr.num, dims), dg, cr, j)[a][b]
    modifies grad, hes
    ensures forall a :: 0 <= a < |params| ==> grad[a] == g0[a] + GradUpto(Loaded(attr.data, attr.num, dims), sc, j + 1)[a]
    ensures forall a, b :: 0 <= a < |params| && 0 <= b < |params| ==>
      hes[a, b] == h0[a][b] + HesDone(Loaded(attr.data, attr.num, dims), dg, cr, j + 1)[a][b]
  {
    ghost var loaded := Loaded(attr.data, attr.num, dims);
    var gradVal := AddResp0Own(params, dims, attr, j, logit, sc, dg, grad, hes);
    forall a, b | 0 <= a < |params| && 0 <= b < |params|
      ensures var own := Own(loaded, j);
        HesRow(loaded, dg, cr, j, j + 1)[a][b]
        == HesDone(loaded, dg, cr, j)[a][b] + (if a == own && b == own then dg[j] else 0.0)
    {
      RowFirst(loaded, dg, cr, j, a, b);
    }
    ProductInterior(params, loaded, |dims|);
    gradVal := gradVal / (1.0 - p);
    AddResp0Row(params, dims, attr, j, gradVal, dg, cr, h0, hes);
  }

  /** The outer loop of the response-0 branch: passes 0 .. Ndims-1 add every
      score, diagonal and cross entry. */
  method AddResp0Passes(params: seq<real>, dims: seq<Index>, attr: Attributes, p: real, logit: real,
                        ghost sc: seq<real>, ghost dg: seq<real>, ghost cr: seq<seq<real>>,
                        grad: array<real>, hes: array2<real>)
    requires |params| == 2 * |dims| && Interior(params) && |dims| > 0
    requires |sc| == |dg| == |dims| && Square(cr, |dims|)
    requires p == Product(params, Loaded(attr.data, attr.num, dims), |dims|)
    requires logit == Odds(params, Loaded(attr.data, attr.num, dims))
    requires forall k :: 0 <= k < |dims| ==> Values0(params, Loaded(attr.data, attr.num, dims), sc, dg, k)
    requires forall j, k :: 0 <= j < |dims| && 0 <= k < |dims| ==> Cross0(params, Loaded(attr.data, attr.num, dims), cr, j, k)
    requires grad.Length == |params| && hes.Length0 == |params| && hes.Length1 == |params|
    modifies grad, hes
    ensures forall a :: 0 <= a < |params| ==>
      grad[a] == old(grad[a]) + GradUpto(Loaded(attr.data, attr.num, dims), sc, |dims|)[a]
    ensures forall a, b :: 0 <= a < |params| && 0 <= b < |params| ==>
      hes[a, b] == old(hes[a, b]) + HesDone(Loaded(attr.data, attr.num, dims), dg, cr, |dims|)[a][b]
  {
    ghost var loaded := Loaded(attr.data, attr.num, dims);
    var n, m := |dims|, |params|;
    ghost var g0 := grad[..];
    ghost var h0 := seq(m, a requires 0 <= a < m reads hes => seq(m, b requires 0 <= b < m reads hes => hes[a, b]));
    var j := 0;
    while j < n
      invariant 0 <= j <= n
      invariant forall a :: 0 <= a < m ==> grad[a] == g0[a] + GradUpto(loaded, sc, j)[a]
      invariant forall a, b :: 0 <= a < m && 0 <= b < m ==> hes[a, b] == h0[a][b] + HesDone(loaded, dg, cr, j)[a][b]
    {
      AddResp0Pass(params, dims, attr, j, p, logit, sc, dg, cr, g0, h0, grad, hes);
      j := j + 1;
    }
  }

  /** The response-0 branch: adds the derivatives of log P(0), with the ratio
      taken of P(1) and the cross terms between two guesses subtracted. */
  method AddResp0(params: seq<real>, dims: seq<Index>, attr: Attributes, grad: array<real>, hes: array2<real>)
    requires |params| == 2 * |dims| && Interior(params)
    requires grad.Length == |params| && hes.Length0 == |params| && hes.Length1 == |params|
    modifies grad, hes
    ensures forall a :: 0 <= a < |params| ==>
      grad[a] == old(grad[a]) + Resp0Grad(params, Loaded(attr.data, attr.num, dims), a)
    ensures forall a, b :: 0 <= a < |params| && 0 <= b < |params| ==>
      hes[a, b] == old(hes[a, b]) + Resp0Hes(params, Loaded(attr.data, attr.num, dims), a, b)
  {
    ghost var loaded := Loaded(attr.data, attr.num, dims);
    var n := |dims|;
    if n == 0 {
      return;
    }
    var p := P(params, dims, 1, attr);
    ProductInterior(params, loaded, n);
    var logit := p / (1.0 - p);
    ghost var sc, dg, cr := MakeValues0(params, loaded);
    AddResp0Passes(params, dims, attr, p, logit, sc, dg, cr, grad, hes);
    Resp0GradClosed(params, loaded, sc, dg);
    Resp0HesClosed(params, loaded, sc, dg, cr);
  }

  /** `logLik_dparam` (nida.c:103-170): adds the derivatives of log P for the
      given response to the gradient and Hessian; a response outside {0, 1}
      changes nothing. For response 1 either buffer may be absent (NULL); the
      response-0 branch writes both without a NULL test, so there both must be
      present, unless the item loads on no attribute and its loops write
      nothing. */
  method LogLikDparam(params: seq<real>, dims: seq<Index>, resp: nat, attr: Attributes,
                      grad: array?<real>, hes: array2?<real>)
    requires |params| == 2 * |dims| && Interior(params)
    requires grad != null ==> grad.Length == |params|
    requires hes != null ==> hes.Length0 == |params| && hes.Length1 == |params|
    requires resp == 0 && |dims| > 0 ==> grad != null && hes != null
    modifies grad, hes
    ensures resp > 1 && grad != null ==> grad[..] == old(grad[..])
    ensures resp > 1 && hes != null ==>
      forall a, b :: 0 <= a < |params| && 0 <= b < |params| ==> hes[a, b] == old(hes[a, b])
    ensures resp == 1 ==>
      && (grad != null ==> forall a :: 0 <= a < |params| ==>
            grad[a] == old(grad[a]) + Resp1Grad(params, Loaded(attr.data, attr.num, dims), a))
      && (hes != null ==> forall a, b :: 0 <= a < |params| && 0 <= b < |params| ==>
            hes[a, b] == old(hes[a, b]) + Resp1Hes(params, Loaded(attr.data, attr.num, dims), a, b))
    ensures resp == 0 ==>
      && (forall a :: 0 <= a < |params| ==>
            grad[a] == old(grad[a]) + Resp0Grad(params, Loaded(attr.data, attr.num, dims), a))
      && (forall a, b :: 0 <= a < |params| && 0 <= b < |params| ==>
            hes[a, b] == old(hes[a, b]) + Resp0Hes(params, Loaded(attr.data, attr.num, dims), a, b))
  {
    if resp == 1 {
      AddResp1(params, dims, attr, grad, hes);
    } else if resp == 0 && |dims| > 0 {
      AddResp0(params, dims, attr, grad, hes);
    }
  }

  // ---- The two identities every log-likelihood derivative satisfies ----
  //
  // Averaged over the two responses, the score is zero and the Hessian is
  // minus the squared score. Each proof first relates the response-0
  // derivatives to the response-1 ones through the odds L = P(1) / P(0),
  // then closes with a division-free polynomial identity.

  /** P(1), the probability of a correct response. */
  function Correct(params: seq<real>, loaded: seq<bool>): real
    requires Shaped(params, loaded)
  {
    Product(params, loaded, |loaded|)
  }

  /** 1 / P(0). */
  function InvP0(params: seq<real>, loaded: seq<bool>): (r: real)
    requires Shaped(params, loaded) && Interior(params) && |loaded| > 0
    ensures r * (1.0 - Correct(params, loaded)) == 1.0
  {
    ProductInterior(params, loaded, |loaded|);
    1.0 / (1.0 - Product(params, loaded, |loaded|))
  }

  /** The odds are P(1) / P(0), and 1 / P(0) is one plus the odds. */
  lemma {:induction false} OddsForm(params: seq<real>, loaded: seq<bool>)
    requires Shaped(params, loaded) && Interior(params) && |loaded| > 0
    ensures 0.0 < Correct(params, loaded) < 1.0
    ensures Odds(params, loaded) == Correct(params, loaded) * InvP0(params, loaded)
    ensures InvP0(params, loaded) == 1.0 + Odds(params, loaded)
    ensures Prob(1, Correct(params, loaded)) == Correct(params, loaded)
    ensures Prob(0, Correct(params, loaded)) == 1.0 - Correct(params, loaded)
  {
    ProductInterior(params, loaded, |loaded|);
    var p := Product(params, loaded, |loaded|);
    assert InvP0(params, loaded) == 1.0 / (1.0 - p);
    assert Odds(params, loaded) == p / (1.0 - p);
  }

  lemma FactorPositive(params: seq<real>, loaded: seq<bool>, j: nat)
    requires Shaped(params, loaded) && Interior(params) && j < |loaded|
    ensures 0.0 < Factor(params, loaded, j) < 1.0
  {
    if loaded[j] {
      assert 0.0 < params[|loaded| + j] < 1.0;
    } else {
      assert 0.0 < params[j] < 1.0;
    }
  }

  /** The response-0 score is minus the odds times the response-1 score. */
  lemma {:induction false} ScoreRelation(params: seq<real>, loaded: seq<bool>, a: nat)
    requires Shaped(params, loaded) && Interior(params) && a < |params|
    ensures Resp0Grad(params, loaded, a) + Odds(params, loaded) * Resp1Grad(params, loaded, a) == 0.0
  {
    var n := |loaded|;
    var j := AttrOf(n, a);
    if a == Own(loaded, j) {
      FactorPositive(params, loaded, j);
      var o, f := Odds(params, loaded), Factor(params, loaded, j);
      if loaded[j] {
        assert params[a] - 1.0 == -f;
        assert Resp1Grad(params, loaded, a) == 1.0 / (-f);
        assert Resp0Grad(params, loaded, a) == o / f;
        assert o * (1.0 / (-f)) == -(o / f);
      } else {
        assert params[a] == f;
        assert Resp1Grad(params, loaded, a) == 1.0 / f;
        assert Resp0Grad(params, loaded, a) == -(o / f);
        assert o * (1.0 / f) == o / f;
      }
    }
  }

  /** The expectation over the response of a quantity worth x1 after a
      response of 1 and x0 after a response of 0, when P(1) is p1. */
  function Expected(p1: real, x1: real, x0: real): real
  {
    Prob(1, p1) * x1 + Prob(0, p1) * x0
  }

  /** A Hessian entry plus the product of the two scores it pairs. */
  function Info(h: real, ga: real, gb: real): real
  {
    h + ga * gb
  }

  lemma ScorePoly(p: real, o: real, r: real, g1: real, g0: real)
    requires o == p * r && r == 1.0 + o && g0 + o * g1 == 0.0
    ensures Expected(p, g1, g0) == 0.0
  {
    assert (1.0 - p) * o == p;
    assert (1.0 - p) * g0 == -((1.0 - p) * o) * g1;
  }

  /** The expected score is zero: P(1) times the response-1 score plus P(0)
      times the response-0 score vanishes at every parameter. */
  lemma {:induction false} ScoreIdentity(params: seq<real>, loaded: seq<bool>, a: nat)
    requires Shaped(params, loaded) && Interior(params) && a < |params|
    ensures Expected(Correct(params, loaded), Resp1Grad(params, loaded, a), Resp0Grad(params, loaded, a)) == 0.0
  {
    OddsForm(params, loaded);
    ScoreRelation(params, loaded, a);
    ScorePoly(Correct(params, loaded), Odds(params, loaded), InvP0(params, loaded),
              Resp1Grad(params, loaded, a), Resp0Grad(params, loaded, a));
  }

  lemma {:induction false} CorrectRange(params: seq<real>, loaded: seq<bool>)
    requires Shaped(params, loaded) && Interior(params) && |loaded| > 0
    ensures 0.0 < Correct(params, loaded) < 1.0
  {
    ProductInterior(params, loaded, |loaded|);
  }

  /** x·y as one term, so that facts about products pass between lemmas
      unchanged. */
  function Mul(x: real, y: real): real
  {
    x * y
  }

  lemma DivRecip(x: real, y: real)
    requires y != 0.0
    ensures x / y == Mul(x, 1.0 / y)
    ensures 1.0 / (-y) == -(1.0 / y)
  {
  }

  /** The two scores of one own parameter with the divisions written as
      products by the reciprocal of the factor. */
  lemma ScoreRecip(o: real, x: real, f: real, g1: real, g0: real, s: bool)
    requires f == (if s then 1.0 - x else x) && 0.0 < f
    requires g1 == (if s then 1.0 / (x - 1.0) else 1.0 / x)
    requires g0 == (if s then o / f else -(o / f))
    ensures g1 == (if s then -(1.0 / f) else 1.0 / f)
    ensures g0 == (if s then Mul(o, 1.0 / f) else -Mul(o, 1.0 / f))
  {
    DivRecip(o, f);
    if s {
      assert x - 1.0 == -f;
      DivRecip(1.0, f);
    }
  }

  /** The cross factor with the divisions written as products by reciprocals;
      fl, fh are fa, fb in the order of the attributes. */
  lemma CrossRecip(c: real, o: real, fa: real, fb: real, fl: real, fh: real, w: real)
    requires 0.0 < c < 1.0 && 0.0 < fa && 0.0 < fb
    requires (fl == fa && fh == fb) || (fl == fb && fh == fa)
    requires w == o / fl / (1.0 - c) / fh
    ensures w == Mul(Mul(o, 1.0 / (1.0 - c)), Mul(1.0 / fa, 1.0 / fb))
  {
    DivRecip(o, fl);
    DivRecip(o / fl, 1.0 - c);
    DivRecip(o / fl / (1.0 - c), fh);
    assert Mul(1.0 / fl, 1.0 / fh) == Mul(1.0 / fa, 1.0 / fb);
  }

  /** The two Info terms of a cross entry with their signs taken out: ra, rb
      are the magnitudes of the response-1 scores, ua, ub those of the
      response-0 scores and w that of the response-0 Hessian entry. */
  lemma CrossSigns(ra: real, rb: real, ua: real, ub: real, w: real,
                   h1: real, g1a: real, g1b: real, h0: real, g0a: real, g0b: real, sa: bool, sb: bool)
    requires g1a == (if sa then -ra else ra) && g1b == (if sb then -rb else rb)
    requires g0a == (if sa then ua else -ua) && g0b == (if sb then ub else -ub)
    requires h1 == 0.0 && h0 == (if sa == sb then -w else w)
    ensures sa == sb ==> Info(h1, g1a, g1b) == Mul(ra, rb) && Info(h0, g0a, g0b) == Mul(ua, ub) - w
    ensures sa != sb ==> Info(h1, g1a, g1b) == -Mul(ra, rb) && Info(h0, g0a, g0b) == w - Mul(ua, ub)
  {
  }

  /** The algebra of a cross entry once the signs are out: with q = 1 / P(0),
      the odds o = P(1)·q and the magnitudes as products by the reciprocals. */
  lemma CrossAlgebra(c: real, q: real, o: real, ra: real, rb: real, ua: real, ub: real, w: real, i1: real, i0: real)
    requires Mul(1.0 - c, q) == 1.0 && o == Mul(c, q)
    requires ua == Mul(o, ra) && ub == Mul(o, rb) && w == Mul(Mul(o, q), Mul(ra, rb))
    requires (i1 == Mul(ra, rb) && i0 == Mul(ua, ub) - w) || (i1 == -Mul(ra, rb) && i0 == w - Mul(ua, ub))
    ensures Expected(c, i1, i0) == 0.0
  {
    var m := ra * rb;
    assert Mul(ua, ub) - w == m * (o * o - o * q);
    assert (1.0 - c) * o == c;
    assert (1.0 - c) * (o * o - o * q) == -c;
  }

  /** The second identity at a cross entry, with the divisions written as
      products by the reciprocals ra, rb of the two factors and q of P(0). */
  lemma CrossCore(c: real, q: real, o: real, ra: real, rb: real, w: real,
                  h1: real, g1a: real, g1b: real, h0: real, g0a: real, g0b: real, sa: bool, sb: bool)
    requires Mul(1.0 - c, q) == 1.0 && o == Mul(c, q)
    requires g1a == (if sa then -ra else ra) && g1b == (if sb then -rb else rb)
    requires g0a == (if sa then Mul(o, ra) else -Mul(o, ra)) && g0b == (if sb then Mul(o, rb) else -Mul(o, rb))
    requires w == Mul(Mul(o, q), Mul(ra, rb))
    requires h1 == 0.0 && h0 == (if sa == sb then -w else w)
    ensures Expected(c, Info(h1, g1a, g1b), Info(h0, g0a, g0b)) == 0.0
  {
    CrossSigns(ra, rb, Mul(o, ra), Mul(o, rb), w, h1, g1a, g1b, h0, g0a, g0b, sa, sb);
    CrossAlgebra(c, q, o, ra, rb, Mul(o, ra), Mul(o, rb), w, Info(h1, g1a, g1b), Info(h0, g0a, g0b));
  }

  /** The second identity at an entry between the own parameters of two
      different attributes, on plain numbers: c is P(1), o the odds, x the two
      parameters, f their factors (fl, fh in the order of the attributes), w
      the cross factor and s whether each attribute is mastered. */
  lemma CrossPoly(c: real, o: real, xa: real, xb: real, fa: real, fb: real, fl: real, fh: real, w: real,
                  h1: real, g1a: real, g1b: real, h0: real, g0a: real, g0b: real, sa: bool, sb: bool)
    requires 0.0 < c < 1.0 && o == c / (1.0 - c)
    requires fa == (if sa then 1.0 - xa else xa) && 0.0 < fa
    requires fb == (if sb then 1.0 - xb else xb) && 0.0 < fb
    requires (fl == fa && fh == fb) || (fl == fb && fh == fa)
    requires g1a == (if sa then 1.0 / (xa - 1.0) else 1.0 / xa)
    requires g1b == (if sb then 1.0 / (xb - 1.0) else 1.0 / xb)
    requires g0a == (if sa then o / fa else -(o / fa))
    requires g0b == (if sb then o / fb else -(o / fb))
    requires w == o / fl / (1.0 - c) / fh
    requires h1 == 0.0 && h0 == (if sa == sb then -w else w)
    ensures Expected(c, Info(h1, g1a, g1b), Info(h0, g0a, g0b)) == 0.0
  {
    DivRecip(c, 1.0 - c);
    assert Mul(1.0 - c, 1.0 / (1.0 - c)) == 1.0;
    ScoreRecip(o, xa, fa, g1a, g0a, sa);
    ScoreRecip(o, xb, fb, g1b, g0b, sb);
    CrossRecip(c, o, fa, fb, fl, fh, w);
    CrossCore(c, 1.0 / (1.0 - c), o, 1.0 / fa, 1.0 / fb, w,
              h1, g1a, g1b, h0, g0a, g0b, sa, sb);
  }

  /** The second identity at an entry between the own parameters of two
      different attributes. */
  lemma {:induction false} CrossSecond(params: seq<real>, loaded: seq<bool>, a: nat, b: nat)
    requires Shaped(params, loaded) && Interior(params) && a < |params| && b < |params|
    requires IsOwn(loaded, a) && IsOwn(loaded, b) && AttrOf(|loaded|, a) != AttrOf(|loaded|, b)
    ensures Expected(Correct(params, loaded),
                     Info(Resp1Hes(params, loaded, a, b), Resp1Grad(params, loaded, a), Resp1Grad(params, loaded, b)),
                     Info(Resp0Hes(params, loaded, a, b), Resp0Grad(params, loaded, a), Resp0Grad(params, loaded, b)))
            == 0.0
  {
    var n := |loaded|;
    var j, k := AttrOf(n, a), AttrOf(n, b);
    CorrectRange(params, loaded);
    FactorPositive(params, loaded, j);
    FactorPositive(params, loaded, k);
    var lo, hi := if j < k then j else k, if j < k then k else j;
    CrossPoly(Correct(params, loaded), Odds(params, loaded), params[a], params[b],
              Factor(params, loaded, j), Factor(params, loaded, k), Factor(params, loaded, lo), Factor(params, loaded, hi),
              Scaled(params, loaded, lo) / Factor(params, loaded, hi),
              Resp1Hes(params, loaded, a, b), Resp1Grad(params, loaded, a), Resp1Grad(params, loaded, b),
              Resp0Hes(params, loaded, a, b), Resp0Grad(params, loaded, a), Resp0Grad(params, loaded, b),
              loaded[j], loaded[k]);
  }

  /** The expected Hessian is minus the expected outer product of the score,
      at every entry: the second identity every log-likelihood satisfies. */
  lemma {:induction false} InformationIdentity(params: seq<real>, loaded: seq<bool>, a: nat, b: nat)
    requires Shaped(params, loaded) && Interior(params) && a < |params| && b < |params|
    ensures Expected(Correct(params, loaded),
                     Info(Resp1Hes(params, loaded, a, b), Resp1Grad(params, loaded, a), Resp1Grad(params, loaded, b)),
                     Info(Resp0Hes(params, loaded, a, b), Resp0Grad(params, loaded, a), Resp0Grad(params, loaded, b)))
            == 0.0
  {
    var n := |loaded|;
    if IsOwn(loaded, a) && IsOwn(loaded, b) && AttrOf(n, a) != AttrOf(n, b) {
      CrossSecond(params, loaded, a, b);
    } else {
      if a != b {
        if IsOwn(loaded, a) {
          assert !IsOwn(loaded, b);
        }
      }
      assert Info(Resp1Hes(params, loaded, a, b), Resp1Grad(params, loaded, a), Resp1Grad(params, loaded, b)) == 0.0;
      assert Info(Resp0Hes(params, loaded, a, b), Resp0Grad(params, loaded, a), Resp0Grad(params, loaded, b)) == 0.0;
      assert Expected(Correct(params, loaded), 0.0, 0.0) == 0.0;
    }
  }

  // ---- Two places where nida.c departs from the derivatives of log P(0) ----

  /** The ratio as nida.c:132-133 computes it: from P(0) instead of P(1),
      giving P(0) / P(1), the reciprocal of the odds. */
  function OddsAsWritten(params: seq<real>, loaded: seq<bool>): (r: real)
    requires Shaped(params, loaded) && Interior(params)
    ensures |loaded| > 0 ==> r > 0.0 && r * Odds(params, loaded) == 1.0
  {
    ProductInterior(params, loaded, |loaded|);
    var p := 1.0 - Product(params, loaded, |loaded|);
    p / (1.0 - p)
  }

  /** The response-0 score as written: the right factor and sign, scaled by the
      wrong ratio. */
  function Resp0GradAsWritten(params: seq<real>, loaded: seq<bool>, a: nat): (r: real)
    requires Shaped(params, loaded) && Interior(params) && a < |params|
    ensures |loaded| > 0 ==> r * Odds(params, loaded) * Odds(params, loaded) == Resp0Grad(params, loaded, a)
  {
    var j := AttrOf(|loaded|, a);
    if a != Own(loaded, j) then 0.0
    else if loaded[j] then OddsAsWritten(params, loaded) / Factor(params, loaded, j)
    else -(OddsAsWritten(params, loaded) / Factor(params, loaded, j))
  }

  /** One attribute, mastered, guess 1/2 and slip 1/4, so P(1) = 3/4: the
      expected score at the slip is -8/9 as written instead of 0. */
  lemma Resp0GradAsWrittenBreaksScore()
    ensures var params, loaded := [0.5, 0.25], [true];
      Shaped(params, loaded) && Interior(params)
      && Product(params, loaded, 1) == 0.75
      && Expected(0.75, Resp1Grad(params, loaded, 1), Resp0GradAsWritten(params, loaded, 1)) == -8.0 / 9.0
  {
    var params, loaded := [0.5, 0.25], [true];
    assert Product(params, loaded, 0) == 1.0;
    assert Factor(params, loaded, 0) == 0.75;
    assert Product(params, loaded, 1) == 0.75;
    assert OddsAsWritten(params, loaded) == 1.0 / 3.0;
    assert Resp1Grad(params, loaded, 1) == -4.0 / 3.0;
    assert Resp0GradAsWritten(params, loaded, 1) == 4.0 / 9.0;
  }

  /** The sign error of nida.c:165-166 alone: the cross entry between two
      guesses is added where the derivative of log P(0) subtracts it, and
      every other entry, as well as the ratio, is as in Resp0Hes. This
      isolates the sign from the ratio error of nida.c:132-133. */
  function Resp0HesSignAsWritten(params: seq<real>, loaded: seq<bool>, a: nat, b: nat): (r: real)
    requires Shaped(params, loaded) && Interior(params) && a < |params| && b < |params|
    ensures r == Resp0Hes(params, loaded, a, b) || r == -Resp0Hes(params, loaded, a, b)
    ensures r != Resp0Hes(params, loaded, a, b) ==> a != b && a < |loaded| && b < |loaded|
  {
    var n := |loaded|;
    var j, k := AttrOf(n, a), AttrOf(n, b);
    if a == Own(loaded, j) && b == Own(loaded, k) && j != k && !loaded[j] && !loaded[k]
    then -Resp0Hes(params, loaded, a, b)
    else Resp0Hes(params, loaded, a, b)
  }

  /** The cross-entry factor as nida.c:140 and 156 compute it: the ratio as
      written over the factor, divided by `1 - p` with p = P(0), that is by
      P(1) instead of P(0). */
  function ScaledAsWritten(params: seq<real>, loaded: seq<bool>, j: nat): (r: real)
    requires Shaped(params, loaded) && Interior(params) && j < |loaded|
    ensures r > 0.0
  {
    ProductInterior(params, loaded, |loaded|);
    FactorPositive(params, loaded, j);
    OddsAsWritten(params, loaded) / Factor(params, loaded, j) / Product(params, loaded, |loaded|)
  }

  /** Everything the response-0 loops of nida.c:134-168 add to hes[a, b] as
      written: the diagonal is minus the square of the score as written, the
      cross entries use ScaledAsWritten, and between two guesses the entry is
      added (nida.c:165-166). */
  function Resp0HesAsWritten(params: seq<real>, loaded: seq<bool>, a: nat, b: nat): (r: real)
    requires Shaped(params, loaded) && Interior(params) && a < |params| && b < |params|
    ensures var j, k := AttrOf(|loaded|, a), AttrOf(|loaded|, b);
      r != 0.0 <==> a == Own(loaded, j) && b == Own(loaded, k)
    ensures a == b ==> r <= 0.0
  {
    var n := |loaded|;
    var j, k := AttrOf(n, a), AttrOf(n, b);
    if a != Own(loaded, j) || b != Own(loaded, k) then 0.0
    else if j == k then
      DiagonalAsWrittenNonzero(params, loaded, a);
      -(Resp0GradAsWritten(params, loaded, a) * Resp0GradAsWritten(params, loaded, a))
    else
      CrossAsWrittenSign(params, loaded, j, k);
      CrossAsWritten(params, loaded, j, k)
  }

  /** The score as written is nonzero at an attribute's own parameter. */
  lemma DiagonalAsWrittenNonzero(params: seq<real>, loaded: seq<bool>, a: nat)
    requires Shaped(params, loaded) && Interior(params) && a < |params|
    requires a == Own(loaded, AttrOf(|loaded|, a))
    ensures Resp0GradAsWritten(params, loaded, a) * Resp0GradAsWritten(params, loaded, a) > 0.0
  {
    var j := AttrOf(|loaded|, a);
    FactorPositive(params, loaded, j);
    var g := OddsAsWritten(params, loaded) / Factor(params, loaded, j);
    assert g > 0.0;
    assert Resp0GradAsWritten(params, loaded, a) == g || Resp0GradAsWritten(params, loaded, a) == -g;
  }

  /** The cross entry the code adds for attributes j and k (nida.c:140-167):
      the scaled factor as written over the other attribute's factor,
      negated only between two masteries. */
  function CrossAsWritten(params: seq<real>, loaded: seq<bool>, j: nat, k: nat): (r: real)
    requires Shaped(params, loaded) && Interior(params) && j < |loaded| && k < |loaded|
  {
    var lo, hi := if j < k then j else k, if j < k then k else j;
    var w := ScaledAsWritten(params, loaded, lo) / Factor(params, loaded, hi);
    if loaded[j] && loaded[k] then -w else w
  }
  /** A cross entry as written is never zero, and it is negative exactly
      between two masteries. */
  lemma CrossAsWrittenSign(params: seq<real>, loaded: seq<bool>, j: nat, k: nat)
    requires Shaped(params, loaded) && Interior(params) && j < |loaded| && k < |loaded|
    ensures var r := CrossAsWritten(params, loaded, j, k);
      r != 0.0 && (r < 0.0 <==> loaded[j] && loaded[k])
  {
    var lo, hi := if j < k then j else k, if j < k then k else j;
    FactorPositive(params, loaded, hi);
    assert ScaledAsWritten(params, loaded, lo) / Factor(params, loaded, hi) > 0.0;
  }


  /** The intended cross entry for attributes j and k, as Resp0Hes has it:
      negated wherever the two attributes agree. */
  function Cross(params: seq<real>, loaded: seq<bool>, j: nat, k: nat): real
    requires Shaped(params, loaded) && Interior(params) && j < |loaded| && k < |loaded|
  {
    var lo, hi := if j < k then j else k, if j < k then k else j;
    var v := Scaled(params, loaded, lo) / Factor(params, loaded, hi);
    if loaded[j] == loaded[k] then -v else v
  }

  lemma DiagonalScale(l: real, r: real, x: real)
    requires r * l == 1.0 && x != 0.0
    ensures -((r / x) * (r / x)) * (l * l * l * l) == -((l / x) * (l / x))
  {
    assert (r / x) * l == 1.0 / x by {
      assert (r / x) * l == (r * l) / x;
    }
    assert (r / x) * (r / x) * (l * l * l * l) == ((r / x) * l) * ((r / x) * l) * (l * l);
    assert (l / x) * (l / x) == (1.0 / x) * (1.0 / x) * (l * l);
  }

  lemma Cancel(a: real, b: real, k: real)
    requires k != 0.0 && a * k == b * k
    ensures a == b
  {
    assert (a - b) * k == 0.0;
  }

  lemma DivBack(a: real, b: real)
    requires b != 0.0
    ensures (a / b) * b == a
  {
  }

  /** w = r / x / p / y, written as what multiplying back gives. */
  lemma Unwind(r: real, x: real, p: real, y: real)
    requires x != 0.0 && p != 0.0 && y != 0.0
    ensures (r / x / p / y) * (y * p * x) == r
  {
    var t1 := r / x;
    var t2 := t1 / p;
    var w := t2 / y;
    DivBack(t2, y);
    DivBack(t1, p);
    DivBack(r, x);
    assert w * (y * p * x) == ((w * y) * p) * x;
  }

  lemma AsWrittenCrossPoly(w: real, y: real, p: real, x: real, q: real, l: real, r: real)
    requires w * (y * p * x) == r && r * l == 1.0 && l * q == p
    ensures (w * (l * l * l)) * (y * q * x) * p == l * p
  {
    calc {
      (w * (l * l * l)) * (y * q * x) * p;
      (w * (y * p * x)) * (l * l * l) * q;
      r * (l * l * l) * q;
      (r * l) * l * (l * q);
      l * p;
    }
  }

  /** The odds and their reciprocal, as products. */
  lemma Reciprocals(p: real, q: real, l: real, r: real)
    requires p != 0.0 && q != 0.0 && l == p / q && r == q / p
    ensures l * q == p && r * p == q && r * l == 1.0
  {
    DivBack(p, q);
    DivBack(q, p);
    assert r * l * (p * q) == (r * p) * (l * q);
    Cancel(r * l, 1.0, p * q);
  }

  lemma NonZero3(y: real, q: real, x: real)
    requires y != 0.0 && q != 0.0 && x != 0.0
    ensures y * q * x != 0.0
  {
    assert y * q != 0.0;
  }

  /** w * L^3, multiplied back by everything l / x / q / y divides by. */
  lemma CrossNumerator(w: real, y: real, p: real, x: real, q: real, l: real, r: real)
    requires x != 0.0 && p != 0.0 && y != 0.0
    requires w == r / x / p / y && r * l == 1.0 && l * q == p
    ensures (w * (l * l * l)) * (y * q * x) == l
  {
    Unwind(r, x, p, y);
    AsWrittenCrossPoly(w, y, p, x, q, l, r);
    Cancel((w * (l * l * l)) * (y * q * x), l, p);
  }

  /** With P(1) = p, q = 1 - p, the odds l = p / q, the odds as written r =
      q / p and the factors x and y: the cross factor as written, sw = r / x
      / p, times l^3 is the intended one, sv = l / x / q (both over y). */
  lemma CrossScale(p: real, q: real, l: real, r: real, x: real, y: real, sw: real, sv: real)
    requires p > 0.0 && q > 0.0 && l == p / q && r == q / p && x != 0.0 && y != 0.0
    requires sw == r / x / p && sv == l / x / q
    ensures (sw / y) * (l * l * l) == sv / y
  {
    var w, v := r / x / p / y, l / x / q / y;
    NonZero3(y, q, x);
    Reciprocals(p, q, l, r);
    CrossNumerator(w, y, p, x, q, l, r);
    Unwind(l, x, q, y);
    Cancel(w * (l * l * l), v, y * q * x);
  }

  /** The two ratios in terms of P(1) = p and P(0) = 1 - p. */
  lemma OddsParts(params: seq<real>, loaded: seq<bool>)
    requires Shaped(params, loaded) && Interior(params) && |loaded| > 0
    ensures var p := Product(params, loaded, |loaded|);
      && 0.0 < p < 1.0
      && Odds(params, loaded) == p / (1.0 - p)
      && OddsAsWritten(params, loaded) == (1.0 - p) / p
  {
    ProductInterior(params, loaded, |loaded|);
    var p := Product(params, loaded, |loaded|);
    assert 1.0 - (1.0 - p) == p;
  }

  /** The two cross factors in terms of the ratios, P(1) and P(0). */
  lemma ScaledParts(params: seq<real>, loaded: seq<bool>, lo: nat, hi: nat)
    requires Shaped(params, loaded) && Interior(params) && lo < |loaded| && hi < |loaded|
    ensures var p, x := Product(params, loaded, |loaded|), Factor(params, loaded, lo);
      && x != 0.0 && Factor(params, loaded, hi) != 0.0
      && ScaledAsWritten(params, loaded, lo) == OddsAsWritten(params, loaded) / x / p
      && Scaled(params, loaded, lo) == Odds(params, loaded) / x / (1.0 - p)
  {
    FactorPositive(params, loaded, lo);
    FactorPositive(params, loaded, hi);
  }

  /** A cross factor as written is the intended one divided by L^3. */
  lemma ScaledAsWrittenScale(params: seq<real>, loaded: seq<bool>, lo: nat, hi: nat)
    requires Shaped(params, loaded) && Interior(params) && lo < |loaded| && hi < |loaded|
    ensures var l := Odds(params, loaded);
      (ScaledAsWritten(params, loaded, lo) / Factor(params, loaded, hi)) * (l * l * l)
        == Scaled(params, loaded, lo) / Factor(params, loaded, hi)
  {
    OddsParts(params, loaded);
    ScaledParts(params, loaded, lo, hi);
    var p := Product(params, loaded, |loaded|);
    CrossScale(p, 1.0 - p, Odds(params, loaded), OddsAsWritten(params, loaded),
      Factor(params, loaded, lo), Factor(params, loaded, hi),
      ScaledAsWritten(params, loaded, lo), Scaled(params, loaded, lo));
  }

  /** Resp0Hes at a pair of own parameters of two attributes is their
      intended cross entry. */
  lemma CrossShape(params: seq<real>, loaded: seq<bool>, a: nat, b: nat)
    requires Shaped(params, loaded) && Interior(params) && a < |params| && b < |params|
    requires a != b && a == Own(loaded, AttrOf(|loaded|, a)) && b == Own(loaded, AttrOf(|loaded|, b))
    ensures Resp0Hes(params, loaded, a, b) == Cross(params, loaded, AttrOf(|loaded|, a), AttrOf(|loaded|, b))
  {
  }

  /** A cross entry as written is the intended one divided by L^3, with the
      opposite sign between two guesses. */
  /** Between two masteries both entries are negated. */
  lemma CrossScaleMasteries(params: seq<real>, loaded: seq<bool>, j: nat, k: nat)
    requires Shaped(params, loaded) && Interior(params) && j < |loaded| && k < |loaded|
    requires loaded[j] && loaded[k]
    ensures var l := Odds(params, loaded);
      CrossAsWritten(params, loaded, j, k) * (l * l * l) == Cross(params, loaded, j, k)
  {
    var lo, hi := if j < k then j else k, if j < k then k else j;
    var w, v := ScaledAsWritten(params, loaded, lo) / Factor(params, loaded, hi),
                Scaled(params, loaded, lo) / Factor(params, loaded, hi);
    ScaledAsWrittenScale(params, loaded, lo, hi);
    assert CrossAsWritten(params, loaded, j, k) == -w && Cross(params, loaded, j, k) == -v;
  }

  /** Between two guesses only the intended entry is negated. */
  lemma CrossScaleGuesses(params: seq<real>, loaded: seq<bool>, j: nat, k: nat)
    requires Shaped(params, loaded) && Interior(params) && j < |loaded| && k < |loaded|
    requires !loaded[j] && !loaded[k]
    ensures var l := Odds(params, loaded);
      CrossAsWritten(params, loaded, j, k) * (l * l * l) == -Cross(params, loaded, j, k)
  {
    var lo, hi := if j < k then j else k, if j < k then k else j;
    var w, v := ScaledAsWritten(params, loaded, lo) / Factor(params, loaded, hi),
                Scaled(params, loaded, lo) / Factor(params, loaded, hi);
    ScaledAsWrittenScale(params, loaded, lo, hi);
    assert CrossAsWritten(params, loaded, j, k) == w && Cross(params, loaded, j, k) == -v;
  }

  /** Between a mastery and a guess neither entry is negated. */
  lemma CrossScaleMixed(params: seq<real>, loaded: seq<bool>, j: nat, k: nat)
    requires Shaped(params, loaded) && Interior(params) && j < |loaded| && k < |loaded|
    requires loaded[j] != loaded[k]
    ensures var l := Odds(params, loaded);
      CrossAsWritten(params, loaded, j, k) * (l * l * l) == Cross(params, loaded, j, k)
  {
    var lo, hi := if j < k then j else k, if j < k then k else j;
    var w, v := ScaledAsWritten(params, loaded, lo) / Factor(params, loaded, hi),
                Scaled(params, loaded, lo) / Factor(params, loaded, hi);
    ScaledAsWrittenScale(params, loaded, lo, hi);
    assert CrossAsWritten(params, loaded, j, k) == w && Cross(params, loaded, j, k) == v;
  }

  /** Every cross entry as written is the intended one divided by L^3, with
      the opposite sign between two guesses. So only at P(1) = P(0) and away
      from the guesses does the code add the right values. */
  lemma CrossScaleCases(params: seq<real>, loaded: seq<bool>, j: nat, k: nat)
    requires Shaped(params, loaded) && Interior(params) && j < |loaded| && k < |loaded|
    ensures var l, h := Odds(params, loaded), Cross(params, loaded, j, k);
      CrossAsWritten(params, loaded, j, k) * (l * l * l) == if !loaded[j] && !loaded[k] then -h else h
  {
    if loaded[j] && loaded[k] {
      CrossScaleMasteries(params, loaded, j, k);
    } else if !loaded[j] && !loaded[k] {
      CrossScaleGuesses(params, loaded, j, k);
    } else {
      CrossScaleMixed(params, loaded, j, k);
    }
  }

  /** A diagonal entry as written is the intended one divided by L^4. */
  lemma DiagonalEntryScale(params: seq<real>, loaded: seq<bool>, a: nat)
    requires Shaped(params, loaded) && Interior(params) && a < |params| && |loaded| > 0
    ensures var l := Odds(params, loaded);
      Resp0HesAsWritten(params, loaded, a, a) * (l * l * l * l) == Resp0Hes(params, loaded, a, a)
  {
    var j := AttrOf(|loaded|, a);
    if a == Own(loaded, j) {
      var l, r := Odds(params, loaded), OddsAsWritten(params, loaded);
      DiagonalScale(l, r, Factor(params, loaded, j));
    }
  }

  /** How the Hessian as written lines up with the Hessian of log P(0): with
      L the odds P(1)/P(0), every diagonal entry is the intended one divided
      by L^4; every cross entry is the cross entry as written of the two
      attributes, where Resp0Hes has the intended one (CrossScaleCases relates
      the two); every other entry is zero in both. */
  lemma Resp0HesAsWrittenScale(params: seq<real>, loaded: seq<bool>, a: nat, b: nat)
    requires Shaped(params, loaded) && Interior(params) && a < |params| && b < |params| && |loaded| > 0
    ensures var l := Odds(params, loaded);
      a == b ==> Resp0HesAsWritten(params, loaded, a, b) * (l * l * l * l) == Resp0Hes(params, loaded, a, b)
    ensures var j, k := AttrOf(|loaded|, a), AttrOf(|loaded|, b);
      a != b && a == Own(loaded, j) && b == Own(loaded, k) ==>
        Resp0HesAsWritten(params, loaded, a, b) == CrossAsWritten(params, loaded, j, k)
        && Resp0Hes(params, loaded, a, b) == Cross(params, loaded, j, k)
    ensures var j, k := AttrOf(|loaded|, a), AttrOf(|loaded|, b);
      a != Own(loaded, j) || b != Own(loaded, k) ==>
        Resp0HesAsWritten(params, loaded, a, b) == 0.0 && Resp0Hes(params, loaded, a, b) == 0.0
  {
    var j, k := AttrOf(|loaded|, a), AttrOf(|loaded|, b);
    if a == b {
      DiagonalEntryScale(params, loaded, a);
    } else if a == Own(loaded, j) && b == Own(loaded, k) {
      CrossShape(params, loaded, a, b);
    }
  }

  /** One attribute, mastered, guess 1/2 and slip 1/4, so P(1) = 3/4 and the
      odds are 3: the slip's diagonal entry as written is -16/81, where the
      Hessian of log P(0) has -16. */
  lemma Resp0HesAsWrittenSlipDiagonal()
    ensures var params, loaded := [0.5, 0.25], [true];
      Shaped(params, loaded) && Interior(params)
      && Resp0HesAsWritten(params, loaded, 1, 1) == -16.0 / 81.0
      && Resp0Hes(params, loaded, 1, 1) == -16.0
  {
    var params, loaded := [0.5, 0.25], [true];
    assert Product(params, loaded, 0) == 1.0;
    assert Factor(params, loaded, 0) == 0.75;
    assert Product(params, loaded, 1) == 0.75;
    assert Odds(params, loaded) == 3.0;
    assert OddsAsWritten(params, loaded) == 1.0 / 3.0;
    assert Resp0GradAsWritten(params, loaded, 1) == 4.0 / 9.0;
    assert Resp0Grad(params, loaded, 1) == 4.0;
  }

  /** Two unmastered attributes, every parameter 1/2, so P(1) = 1/4: the
      second identity at the entry between the two guesses gives 8/3 as
      written. */
  lemma Resp0HesAsWrittenBreaksIdentity()
    ensures var params, loaded := [0.5, 0.5, 0.5, 0.5], [false, false];
      Shaped(params, loaded) && Interior(params)
      && Product(params, loaded, 2) == 0.25
      && Expected(0.25,
                  Info(Resp1Hes(params, loaded, 0, 1), Resp1Grad(params, loaded, 0), Resp1Grad(params, loaded, 1)),
                  Info(Resp0HesSignAsWritten(params, loaded, 0, 1), Resp0Grad(params, loaded, 0), Resp0Grad(params, loaded, 1)))
         == 8.0 / 3.0
  {
    var params, loaded := [0.5, 0.5, 0.5, 0.5], [false, false];
    assert Product(params, loaded, 0) == 1.0;
    assert Product(params, loaded, 1) == 0.5;
    assert Product(params, loaded, 2) == 0.25;
    assert Odds(params, loaded) == 1.0 / 3.0;
    assert Resp1Grad(params, loaded, 0) == 2.0 && Resp1Grad(params, loaded, 1) == 2.0;
    assert Resp0Grad(params, loaded, 0) == -2.0 / 3.0 && Resp0Grad(params, loaded, 1) == -2.0 / 3.0;
    assert Scaled(params, loaded, 0) == 8.0 / 9.0;
    assert Resp0Hes(params, loaded, 0, 1) == -16.0 / 9.0;
  }
}
