// The continuous (IRT) model base (src/liboscats/irtmodel.c). A model is
// built from a bit array saying which dimensions of the test the item loads
// on; the subclass (the logistic and nominal models) fixes the parameters,
// their names, the largest response and the probability and derivative
// formulas. Those formulas enter here as function parameters: what the
// subclass computes at the given ability, and what its derivative routine
// adds to each gradient and Hessian entry.

module IrtModel {
  import opened Optional
  import opened Loadings
  import opened Search
  import opened Quarks
  import ParamTable

  /** `g_bit_array_iter_next`'s -1 stored into a `guint`. */
  const NoDim: nat := 0xFFFF_FFFF

  /** The first two iterator results of `constructed`, as stored in `dim1`
      and `dim2`: a missing position is the wrapped -1. */
  function Shortcut(positions: seq<nat>, k: nat): (d: nat)
    ensures k < |positions| ==> d == positions[k]
    ensures k >= |positions| ==> d == NoDim
  {
    if k < |positions| then positions[k] else NoDim
  }

  /** The counting loop of `constructed`: step the iterator until it reports -1. */
  method CountSet(bs: seq<bool>) returns (ndims: nat)
    ensures ndims == |From(bs, 0)|
  {
    ndims := 0;
    var iter := 0;
    var n := NextSet(bs, iter);
    while n >= 0
      invariant iter <= |bs| && n == NextSet(bs, iter)
      invariant ndims + |From(bs, iter)| == |From(bs, 0)|
      decreases |bs| - iter
    {
      NextSetFrom(bs, iter);
      ndims := ndims + 1;
      iter := n + 1;
      n := NextSet(bs, iter);
    }
    NextSetFrom(bs, iter);
  }

  /** The filling loop of `constructed`: `ndims` iterator steps list the set positions. */
  method ListSet(bs: seq<bool>, ndims: nat) returns (dims: seq<nat>)
    requires ndims == |From(bs, 0)|
    ensures dims == From(bs, 0)
  {
    dims := [];
    var iter := 0;
    var i := 0;
    while i < ndims
      invariant 0 <= i <= ndims && iter <= |bs|
      invariant dims + From(bs, iter) == From(bs, 0)
      invariant |dims| == i
    {
      NextSetFrom(bs, iter);
      var next := NextSet(bs, iter);
      assert next >= 0;
      assert (dims + [next as nat]) + From(bs, next + 1) == dims + ([next as nat] + From(bs, next + 1));
      dims := dims + [next as nat];
      iter := next + 1;
      i := i + 1;
    }
    assert |From(bs, iter)| == 0;
    assert dims == dims + From(bs, iter);
  }

  /** The two iterator steps of `constructed` for fewer than three loaded dimensions. */
  method FirstTwo(bs: seq<bool>) returns (dim1: nat, dim2: nat)
    ensures dim1 == Shortcut(Positions(bs), 0) && dim2 == Shortcut(Positions(bs), 1)
  {
    NextSetFrom(bs, 0);
    var first := NextSet(bs, 0);
    dim1 := if first >= 0 then first else NoDim;
    if first >= 0 {
      NextSetFrom(bs, first + 1);
      var second := NextSet(bs, first + 1);
      dim2 := if second >= 0 then second else NoDim;
    } else {
      dim2 := NoDim;
    }
  }

  /** The bookkeeping of `constructed`: `ndims` set bits; for fewer than
      three, their positions in `dim1` and `dim2`; otherwise all of them in
      `dims`. */
  method Loading(bs: seq<bool>) returns (ndims: nat, dim1: nat, dim2: nat, dims: seq<nat>)
    ensures ndims == |Positions(bs)|
    ensures ndims < 3 ==> dim1 == Shortcut(Positions(bs), 0) && dim2 == Shortcut(Positions(bs), 1) && dims == []
    ensures ndims >= 3 ==> dim1 == 0 && dim2 == 0 && dims == Positions(bs)
  {
    ndims := CountSet(bs);
    assert Positions(bs) == From(bs, 0);
    dim1, dim2, dims := 0, 0, [];
    if ndims < 3 {
      dim1, dim2 := FirstTwo(bs);
    } else {
      dims := ListSet(bs, ndims);
    }
  }

  /** Σ over responses k < upto of what the information-mode derivative adds
      to entry (i, j). */
  function InfoSum(info: (nat, nat, nat) -> real, upto: nat, i: nat, j: nat): real
  {
    if upto == 0 then 0.0 else InfoSum(info, upto - 1, i, j) + info(upto - 1, i, j)
  }

  /** Symmetric per-response contributions give a symmetric information increment. */
  lemma {:induction false} InfoSumSymmetric(info: (nat, nat, nat) -> real, upto: nat, i: nat, j: nat)
    requires forall k: nat :: k < upto ==> info(k, i, j) == info(k, j, i)
    ensures InfoSum(info, upto, i, j) == InfoSum(info, upto, j, i)
  {
    if upto > 0 {
      InfoSumSymmetric(info, upto - 1, i, j);
    }
  }

  /** Nonnegative per-response diagonal contributions give a nonnegative diagonal. */
  lemma {:induction false} InfoSumDiagonal(info: (nat, nat, nat) -> real, upto: nat, i: nat)
    requires forall k: nat :: k < upto ==> info(k, i, i) >= 0.0
    ensures InfoSum(info, upto, i, i) >= 0.0
  {
    if upto > 0 {
      InfoSumDiagonal(info, upto - 1, i);
    }
  }

  /** The subclass derivative routine writing into the caller's vector: it
      adds, never overwrites. */
  method AddVector(v: array<real>, add: nat -> real)
    modifies v
    ensures forall i :: 0 <= i < v.Length ==> v[i] == old(v[i]) + add(i)
  {
    var i := 0;
    while i < v.Length
      invariant 0 <= i <= v.Length
      invariant forall k :: 0 <= k < i ==> v[k] == old(v[k]) + add(k)
      invariant forall k :: i <= k < v.Length ==> v[k] == old(v[k])
    {
      v[i] := v[i] + add(i);
      i := i + 1;
    }
  }

  /** The subclass derivative routine writing into the caller's matrix: it
      adds, never overwrites. */
  method AddMatrix(m: array2<real>, add: (nat, nat) -> real)
    modifies m
    ensures forall i, j :: 0 <= i < m.Length0 && 0 <= j < m.Length1 ==> m[i, j] == old(m[i, j]) + add(i, j)
  {
    var i := 0;
    while i < m.Length0
      invariant 0 <= i <= m.Length0
      invariant forall a, b :: 0 <= a < i && 0 <= b < m.Length1 ==> m[a, b] == old(m[a, b]) + add(a, b)
      invariant forall a, b :: i <= a < m.Length0 && 0 <= b < m.Length1 ==> m[a, b] == old(m[a, b])
    {
      var j := 0;
      while j < m.Length1
        invariant 0 <= j <= m.Length1
        invariant forall a, b :: 0 <= a < i && 0 <= b < m.Length1 ==> m[a, b] == old(m[a, b]) + add(a, b)
        invariant forall b :: 0 <= b < j ==> m[i, b] == old(m[i, b]) + add(i, b)
        invariant forall a, b :: i <= a < m.Length0 && 0 <= b < m.Length1 && (a > i || b >= j) ==> m[a, b] == old(m[a, b])
      {
        m[i, j] := m[i, j] + add(i, j);
        j := j + 1;
      }
      i := i + 1;
    }
  }

  class Model {
    /** The length of the dimension bit array. */
    const testDim: nat
    const ndims: nat
    const dim1: nat
    const dim2: nat
    /** All loaded dimensions when there are three or more; NULL (empty) otherwise. */
    const dims: seq<nat>
    /** The set positions of the dimension bit array. */
    ghost const loaded: seq<nat>
    /** The subclass's `Np`, parameter names and `get_max`. */
    const np: nat
    var names: seq<nat>
    const max: nat
    const ncov: nat
    /** Where the subclass points `covariates` into `names`: the covariate
        names are the `ncov` parameter names from this index on. */
    const covStart: nat
    var params: seq<real>

    ghost predicate Valid()
      reads this
    {
      && ndims == |loaded|
      && (forall k :: 0 <= k < |loaded| ==> loaded[k] < testDim)
      && (forall k, l :: 0 <= k < l < |loaded| ==> loaded[k] < loaded[l])
      && (ndims < 3 ==> dim1 == Shortcut(loaded, 0) && dim2 == Shortcut(loaded, 1) && dims == [])
      && (ndims >= 3 ==> dims == loaded)
      && |names| == np && |params| == np && covStart + ncov <= np
    }

    /** The covariate names: a window on the parameter names, not a copy. */
    function Covariates(): (c: seq<nat>)
      reads this
      requires Valid()
      ensures |c| == ncov
      ensures forall i :: 0 <= i < ncov ==> c[i] == names[covStart + i]
    {
      names[covStart .. covStart + ncov]
    }

    /** `constructed`: without a bit array the test has one dimension and the
        item loads on it; `testDim` is the array's length and the loaded
        dimensions are its set bits. The subclass part supplies `np` names,
        the last of them or a window of them naming the covariates; its
        parameters start at 0. */
    constructor (flags: Option<seq<bool>>, names: seq<nat>, max: nat, ncov: nat, covStart: nat)
      requires covStart + ncov <= |names|
      ensures Valid()
      ensures var bs := if flags.Some? then flags.value else [true];
              testDim == |bs| && loaded == Positions(bs)
      ensures flags.None? ==> testDim == 1 && ndims == 1 && dim1 == 0 && dim2 == NoDim
      ensures this.names == names && np == |names| && this.max == max && this.ncov == ncov
      ensures this.covStart == covStart && Covariates() == names[covStart .. covStart + ncov]
      ensures params == seq(|names|, _ => 0.0)
    {
      var bs := if flags.Some? then flags.value else [true];
      var nd, d1, d2, ds := Loading(bs);
      if flags.None? {
        FromStep(bs, 0);
        assert From(bs, 1) == [];
        assert Positions(bs) == [0];
      }
      testDim := |bs|;
      ndims := nd;
      dim1 := d1;
      dim2 := d2;
      dims := ds;
      loaded := Positions(bs);
      np := |names|;
      this.names := names;
      this.max := max;
      this.ncov := ncov;
      this.covStart := covStart;
      params := seq(|names|, _ => 0.0);
    }

    /** `get_max`. */
    function GetMax(): nat
      reads this
    {
      max
    }

    /** `oscats_irt_model_P`: 0 for an ability of the wrong size, otherwise
        the subclass probability. */
    method P(resp: nat, theta: seq<real>, prob: (nat, seq<real>) -> real) returns (p: real)
      ensures |theta| != testDim ==> p == 0.0
      ensures |theta| == testDim ==> p == prob(resp, theta)
    {
      if |theta| != testDim {
        return 0.0;
      }
      p := prob(resp, theta);
    }

    /** `oscats_irt_model_distance`: 0 for an ability of the wrong size. */
    method Distance(theta: seq<real>, distance: seq<real> -> real) returns (d: real)
      ensures |theta| != testDim ==> d == 0.0
      ensures |theta| == testDim ==> d == distance(theta)
    {
      if |theta| != testDim {
        return 0.0;
      }
      d := distance(theta);
    }

    /** The size checks of both `logLik` wrappers: theta has the test
        dimension, and each buffer given has size n (n × n). */
    predicate Fits(theta: seq<real>, n: nat, grad: array?<real>, hes: array2?<real>)
      reads this
    {
      && |theta| == testDim
      && (grad != null ==> grad.Length == n)
      && (hes != null ==> hes.Length0 == n && hes.Length1 == n)
    }

    /** `oscats_irt_model_logLik_dtheta`: buffers of size testDim; the
        subclass adds its derivatives with respect to theta. */
    method LogLikDtheta(resp: nat, theta: seq<real>, grad: array?<real>, hes: array2?<real>,
                        dgrad: (nat, nat) -> real, dhes: (nat, nat, nat) -> real)
      modifies grad, hes
      ensures !Fits(theta, testDim, grad, hes) ==>
        (grad != null ==> grad[..] == old(grad[..])) &&
        (hes != null ==> forall i, j :: 0 <= i < hes.Length0 && 0 <= j < hes.Length1 ==> hes[i, j] == old(hes[i, j]))
      ensures Fits(theta, testDim, grad, hes) ==>
        (grad != null ==> forall i :: 0 <= i < testDim ==> grad[i] == old(grad[i]) + dgrad(resp, i)) &&
        (hes != null ==> forall i, j :: 0 <= i < testDim && 0 <= j < testDim ==> hes[i, j] == old(hes[i, j]) + dhes(resp, i, j))
    {
      if !Fits(theta, testDim, grad, hes) {
        return;
      }
      if grad != null {
        AddVector(grad, (i: nat) => dgrad(resp, i));
      }
      if hes != null {
        AddMatrix(hes, (i: nat, j: nat) => dhes(resp, i, j));
      }
    }

    /** `oscats_irt_model_logLik_dparam`: buffers of size Np; the subclass
        adds its derivatives with respect to the parameters. */
    method LogLikDparam(resp: nat, theta: seq<real>, grad: array?<real>, hes: array2?<real>,
                        dgrad: (nat, nat) -> real, dhes: (nat, nat, nat) -> real)
      requires Valid()
      modifies grad, hes
      ensures !Fits(theta, np, grad, hes) ==>
        (grad != null ==> grad[..] == old(grad[..])) &&
        (hes != null ==> forall i, j :: 0 <= i < hes.Length0 && 0 <= j < hes.Length1 ==> hes[i, j] == old(hes[i, j]))
      ensures Fits(theta, np, grad, hes) ==>
        (grad != null ==> forall i :: 0 <= i < np ==> grad[i] == old(grad[i]) + dgrad(resp, i)) &&
        (hes != null ==> forall i, j :: 0 <= i < np && 0 <= j < np ==> hes[i, j] == old(hes[i, j]) + dhes(resp, i, j))
    {
      if !Fits(theta, np, grad, hes) {
        return;
      }
      if grad != null {
        AddVector(grad, (i: nat) => dgrad(resp, i));
      }
      if hes != null {
        AddMatrix(hes, (i: nat, j: nat) => dhes(resp, i, j));
      }
    }

    /** `oscats_irt_model_fisher_inf`: for each response 0..max the subclass
        adds its information-mode Hessian into I, so I grows by the sum. */
    method FisherInf(theta: seq<real>, I: array2<real>, info: (nat, nat, nat) -> real)
      modifies I
      ensures !(|theta| == testDim && I.Length0 == testDim && I.Length1 == testDim) ==>
        forall i, j :: 0 <= i < I.Length0 && 0 <= j < I.Length1 ==> I[i, j] == old(I[i, j])
      ensures |theta| == testDim && I.Length0 == testDim && I.Length1 == testDim ==>
        forall i, j :: 0 <= i < testDim && 0 <= j < testDim ==> I[i, j] == old(I[i, j]) + InfoSum(info, max + 1, i, j)
    {
      if !(|theta| == testDim && I.Length0 == testDim && I.Length1 == testDim) {
        return;
      }
      var k := 0;
      while k <= max
        invariant 0 <= k <= max + 1
        invariant forall i, j :: 0 <= i < testDim && 0 <= j < testDim ==> I[i, j] == old(I[i, j]) + InfoSum(info, k, i, j)
      {
        AddMatrix(I, (i: nat, j: nat) => info(k, i, j));
        k := k + 1;
      }
    }

    /** `get_param_name`: NULL beyond Np. */
    function GetParamName(qt: QuarkTable, index: nat): (r: Option<string>)
      reads this, qt
      requires Valid() && qt.Valid()
      ensures r.Some? <==> index < np && 1 <= names[index] <= |qt.strings|
      ensures r.Some? ==> qt.TryString(r.value) == names[index] && r.value == qt.strings[names[index] - 1]
    {
      if index < np then qt.ToString(names[index]) else None
    }

    /** `has_param`: whether some parameter is named `q`. */
    method HasParam(q: nat) returns (r: bool)
      ensures r <==> q in names
    {
      var i := FirstIndex(names, q);
      r := i.Some?;
    }

    /** `has_param_name`: false for a string that was never interned. */
    method HasParamName(qt: QuarkTable, name: string) returns (r: bool)
      ensures r <==> qt.TryString(name) != 0 && qt.TryString(name) in names
    {
      var q := qt.TryString(name);
      if q == 0 {
        return false;
      }
      r := HasParam(q);
    }

    /** `get_param_by_index`: 0 at or beyond Np. */
    function GetParamByIndex(index: nat): (v: real)
      reads this
      requires Valid()
      ensures index < np ==> v == params[index]
      ensures index >= np ==> v == 0.0
    {
      if index < np then params[index] else 0.0
    }

    /** `get_param`: the first parameter named `q`, 0 for an unknown name. */
    method GetParam(q: nat) returns (v: real)
      requires Valid()
      ensures v == ParamTable.Get(names, params, q)
    {
      var i := FirstIndex(names, q);
      match i {
        case None => v := 0.0;
        case Some(k) => v := params[k];
      }
    }

    /** `get_param_by_name`: 0 for a string that was never interned. */
    method GetParamByName(qt: QuarkTable, name: string) returns (v: real)
      requires Valid()
      ensures qt.TryString(name) == 0 ==> v == 0.0
      ensures qt.TryString(name) != 0 ==> v == ParamTable.Get(names, params, qt.TryString(name))
    {
      var q := qt.TryString(name);
      if q == 0 {
        return 0.0;
      }
      v := GetParam(q);
    }

    /** `set_param_by_index`: at or beyond Np nothing changes. */
    method SetParamByIndex(index: nat, v: real)
      requires Valid()
      modifies this
      ensures Valid() && names == old(names)
      ensures index < np ==> params == old(params)[index := v]
      ensures index >= np ==> params == old(params)
    {
      if index < np {
        params := params[index := v];
      }
    }

    /** `set_param`: the first parameter named `q` takes `v`; an unknown name
        changes nothing. */
    method SetParam(q: nat, v: real)
      requires Valid()
      modifies this
      ensures Valid() && names == old(names)
      ensures params == ParamTable.Put(names, old(params), q, v)
    {
      var i := FirstIndex(names, q);
      match i {
        case None =>
        case Some(k) => params := params[k := v];
      }
    }

    /** `set_param_by_name`: a string that was never interned changes nothing. */
    method SetParamByName(qt: QuarkTable, name: string, v: real)
      requires Valid()
      modifies this
      ensures Valid() && names == old(names)
      ensures qt.TryString(name) == 0 ==> params == old(params)
      ensures qt.TryString(name) != 0 ==> params == ParamTable.Put(names, old(params), qt.TryString(name), v)
    {
      var q := qt.TryString(name);
      if q == 0 {
        return;
      }
      SetParam(q, v);
    }

    /** `get_covariate_name`: NULL beyond Ncov and for a quark without a string. */
    function GetCovariateName(qt: QuarkTable, index: nat): (r: Option<string>)
      reads this, qt
      requires Valid() && qt.Valid()
      ensures r.Some? <==> index < ncov && 1 <= Covariates()[index] <= |qt.strings|
      ensures r.Some? ==> qt.TryString(r.value) == Covariates()[index] && r.value == qt.strings[Covariates()[index] - 1]
    {
      if index < ncov then qt.ToString(names[covStart + index]) else None
    }

    /** `has_covariate`: whether some covariate is named `q`. */
    method HasCovariate(q: nat) returns (r: bool)
      requires Valid()
      ensures r <==> q in Covariates()
    {
      var i := FirstIndex(names[covStart .. covStart + ncov], q);
      r := i.Some?;
    }

    /** `has_covariate_name`: false for a string that was never interned. */
    method HasCovariateName(qt: QuarkTable, name: string) returns (r: bool)
      requires Valid()
      ensures r <==> qt.TryString(name) != 0 && qt.TryString(name) in Covariates()
    {
      var q := qt.TryString(name);
      if q == 0 {
        return false;
      }
      r := HasCovariate(q);
    }

    /** `set_covariate_name`: only slot `index` changes, and only for an
        index below Ncov and a nonzero name. The slot is a parameter name,
        so the parameter at `covStart + index` is renamed with it. */
    method SetCovariateName(index: nat, q: nat)
      requires Valid()
      modifies this
      ensures Valid() && params == old(params)
      ensures index < ncov && q != 0 ==>
        names == old(names)[covStart + index := q] && Covariates() == old(Covariates())[index := q]
      ensures !(index < ncov && q != 0) ==> names == old(names)
    {
      if index < ncov && q != 0 {
        names := names[covStart + index := q];
      }
    }

    /** `set_covariate_name_str`: the name is interned and stored in slot
        `index`; beyond Ncov nothing changes. */
    method SetCovariateNameStr(qt: QuarkTable, index: nat, name: string)
      requires Valid() && qt.Valid()
      modifies this, qt
      ensures Valid() && qt.Valid() && params == old(params)
      ensures index < ncov ==>
        && qt.TryString(name) != 0
        && names == old(names)[covStart + index := qt.TryString(name)]
        && Covariates() == old(Covariates())[index := qt.TryString(name)]
      ensures index < ncov && name in old(qt.strings) ==> qt.strings == old(qt.strings)
      ensures index < ncov && name !in old(qt.strings) ==> qt.strings == old(qt.strings) + [name]
      ensures index >= ncov ==> names == old(names) && qt.strings == old(qt.strings)
    {
      if index < ncov {
        var q := qt.FromString(name);
        names := names[covStart + index := q];
      }
    }
  }
}
