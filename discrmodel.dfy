// The discrete (cognitive-diagnosis) model base (src/liboscats/discrmodel.c;
// src/liboscats/classmodel.c is the same code under the older name, one line
// further down). A model is built from a Q-matrix row: the attributes set in
// it are the ones the item loads on. The DINA and NIDA subclasses
// (models/dina.c, models/nida.c) are the two values of `Kind`; their
// constructors fix the number of parameters and intern the parameter names.

module DiscrModel {
  import opened Optional
  import opened Bits
  import opened Attributes
  import opened Loadings
  import opened Search
  import opened Quarks
  import ParamTable
  import Dina
  import Nida

  datatype Kind = DinaModel | NidaModel

  /** `Np` as the subclass constructor sets it: 2 for DINA, 2·Ndims for NIDA. */
  function NumParams(kind: Kind, ndims: nat): nat
  {
    match kind
    case DinaModel => Dina.NumParams
    case NidaModel => 2 * ndims
  }

  /** `<prefix><d+1>` for each attribute d of `dims`, in order. */
  function Labelled(prefix: string, dims: seq<Index>): (r: seq<string>)
    ensures |r| == |dims|
    ensures forall k :: 0 <= k < |dims| ==> r[k] == prefix + Nida.Decimal(dims[k] as nat + 1)
  {
    if dims == [] then []
    else Labelled(prefix, dims[..|dims| - 1]) + [prefix + Nida.Decimal(dims[|dims| - 1] as nat + 1)]
  }

  lemma LabelledStep(prefix: string, dims: seq<Index>, i: nat)
    requires i < |dims|
    ensures Labelled(prefix, dims[..i + 1]) == Labelled(prefix, dims[..i]) + [prefix + Nida.Decimal(dims[i] as nat + 1)]
  {
    assert dims[..i + 1][..i] == dims[..i];
  }

  /** `get_max` of the subclass: both models score 0/1. */
  function KindMax(kind: Kind): (m: nat)
    ensures m == 1
  {
    match kind
    case DinaModel => Dina.MaxResponse
    case NidaModel => Nida.MaxResponse
  }

  /** What the subclass adds to gradient entry `a` for a response of 0 or 1:
      the derivative of log P in that parameter. */
  function GradTerm(kind: Kind, params: seq<real>, loaded: seq<bool>, resp: nat, a: nat): real
    requires |params| == NumParams(kind, |loaded|) && Nida.Interior(params) && a < |params|
  {
    match kind
    case DinaModel =>
      var d := Dina.LogLikDerivatives(params[Dina.Guess], params[Dina.Slip], Dina.Pass(loaded), resp == 1);
      if a == Dina.Guess then d.guess else d.slip
    case NidaModel =>
      if resp == 1 then Nida.Resp1Grad(params, loaded, a) else Nida.Resp0Grad(params, loaded, a)
  }

  /** What the subclass adds to Hessian entry (a, b) for a response of 0 or 1. */
  function HesTerm(kind: Kind, params: seq<real>, loaded: seq<bool>, resp: nat, a: nat, b: nat): real
    requires |params| == NumParams(kind, |loaded|) && Nida.Interior(params) && a < |params| && b < |params|
  {
    match kind
    case DinaModel =>
      var d := Dina.LogLikDerivatives(params[Dina.Guess], params[Dina.Slip], Dina.Pass(loaded), resp == 1);
      if a != b then 0.0 else if a == Dina.Guess then d.guessGuess else d.slipSlip
    case NidaModel =>
      if resp == 1 then Nida.Resp1Hes(params, loaded, a, b) else Nida.Resp0Hes(params, loaded, a, b)
  }

  /** Whether the subclass routine writes through an absent buffer: DINA
      writes both buffers for the responses 0 and 1 (dina.c:117-134), NIDA
      writes both for the response 0 (nida.c:137-169) once it has an attribute
      to loop over, and tests for NULL only for the response 1
      (nida.c:123-128). */
  predicate DereferencesNull(kind: Kind, resp: nat, ndims: nat, gradAbsent: bool, hesAbsent: bool)
  {
    (gradAbsent || hesAbsent) &&
    match kind
    case DinaModel => resp <= 1
    case NidaModel => resp == 0 && ndims > 0
  }

  /** The documentation allows NULL for either buffer (discrmodel.c:260-261),
      but a DINA call for response 0 or 1 with no Hessian, or a NIDA call for
      response 0 with no gradient and an attribute to loop over, writes
      through NULL. */
  lemma DocumentedNullDereferenced()
    ensures DereferencesNull(DinaModel, 0, 1, false, true) && DereferencesNull(DinaModel, 1, 1, false, true)
    ensures DereferencesNull(NidaModel, 0, 1, true, false) && !DereferencesNull(NidaModel, 1, 1, true, true)
    ensures !DereferencesNull(NidaModel, 0, 0, true, true)
  {
  }

  /** The parameter names, by index: `Guess` and `Slip` for DINA;
      `Guess.<d+1>` for each loaded attribute d, then `Diff.<d+1>` for each,
      for NIDA. */
  function ParamNames(kind: Kind, dims: seq<Index>): (r: seq<string>)
    ensures |r| == NumParams(kind, |dims|)
  {
    match kind
    case DinaModel => ["Guess", "Slip"]
    case NidaModel => Labelled("Guess.", dims) + Labelled("Diff.", dims)
  }

  /** The NIDA names are the ones the NIDA parameter indexing gives. */
  lemma NidaNamesIndexed(dims: seq<Index>)
    ensures forall a :: 0 <= a < 2 * |dims| ==> ParamNames(NidaModel, dims)[a] == Nida.ParamName(dims, a)
  {
  }

  /** The two loops of `constructed`: count the set attributes of the Q row,
      then list them in increasing order. */
  method AttributeDims(flags: Attributes) returns (ndims: nat, dims: seq<Index>)
    requires flags.Valid()
    ensures dims == Positions(Pattern(flags.data, flags.num))
    ensures ndims == |dims|
  {
    ghost var bs := Pattern(flags.data, flags.num);
    ndims := 0;
    var i := 0;
    while i < flags.num
      invariant 0 <= i <= flags.num
      invariant ndims + |From(bs, i)| == |From(bs, 0)|
    {
      if flags.Get(i) {
        ndims := ndims + 1;
      }
      i := i + 1;
    }
    dims := [];
    i := 0;
    while i < flags.num
      invariant 0 <= i <= flags.num
      invariant dims + From(bs, i) == From(bs, 0)
    {
      if flags.Get(i) {
        assert From(bs, i) == [i] + From(bs, i + 1);
        assert (dims + [i]) + From(bs, i + 1) == dims + ([i] + From(bs, i + 1));
        dims := dims + [i];
      }
      i := i + 1;
    }
    assert dims + From(bs, i) == dims;
  }

  /** Each quark in `qs` is the nonzero quark of the string at the same place in `ss`. */
  ghost predicate Known(strings: seq<string>, qs: seq<nat>, ss: seq<string>)
  {
    |qs| == |ss| && forall k :: 0 <= k < |qs| ==> qs[k] != 0 && qs[k] == QuarkOf(strings, ss[k])
  }

  /** Interning more strings keeps the quarks already handed out. */
  lemma KnownExtended(before: seq<string>, after: seq<string>, qs: seq<nat>, ss: seq<string>)
    requires before <= after && Known(before, qs, ss)
    ensures Known(after, qs, ss)
  {
    forall k | 0 <= k < |qs|
      ensures qs[k] == QuarkOf(after, ss[k])
    {
      assert after == before + after[|before|..];
      QuarkOfExtended(before, after[|before|..], ss[k]);
    }
  }

  /** `g_quark_from_string` for one name, keeping the quarks in `qs`. */
  method Intern(qt: QuarkTable, s: string, ghost qs: seq<nat>, ghost ss: seq<string>) returns (q: nat)
    requires qt.Valid() && Known(qt.strings, qs, ss)
    modifies qt
    ensures qt.Valid() && old(qt.strings) <= qt.strings
    ensures Known(qt.strings, qs + [q], ss + [s])
  {
    ghost var before := qt.strings;
    q := qt.FromString(s);
    KnownExtended(before, qt.strings, qs, ss);
  }

  /** The naming loop of the NIDA constructor: for each loaded attribute,
      first `Guess.<d+1>` is interned, then `Diff.<d+1>`. */
  method InternNidaNames(dims: seq<Index>, qt: QuarkTable) returns (names: seq<nat>)
    requires qt.Valid()
    modifies qt
    ensures qt.Valid()
    ensures Known(qt.strings, names, ParamNames(NidaModel, dims))
  {
    var gs: seq<nat> := [];
    var ds: seq<nat> := [];
    var i := 0;
    while i < |dims|
      invariant 0 <= i <= |dims| && qt.Valid()
      invariant Known(qt.strings, gs, Labelled("Guess.", dims[..i]))
      invariant Known(qt.strings, ds, Labelled("Diff.", dims[..i]))
    {
      var number := Nida.Decimal(dims[i] as nat + 1);
      LabelledStep("Guess.", dims, i);
      LabelledStep("Diff.", dims, i);
      ghost var before := qt.strings;
      var g := Intern(qt, "Guess." + number, gs, Labelled("Guess.", dims[..i]));
      KnownExtended(before, qt.strings, ds, Labelled("Diff.", dims[..i]));
      ghost var mid := qt.strings;
      var d := Intern(qt, "Diff." + number, ds, Labelled("Diff.", dims[..i]));
      KnownExtended(mid, qt.strings, gs + [g], Labelled("Guess.", dims[..i + 1]));
      gs := gs + [g];
      ds := ds + [d];
      i := i + 1;
    }
    assert dims[..i] == dims;
    names := gs + ds;
    KnownConcat(qt.strings, gs, Labelled("Guess.", dims), ds, Labelled("Diff.", dims));
  }

  lemma KnownConcat(strings: seq<string>, qs: seq<nat>, ss: seq<string>, qs2: seq<nat>, ss2: seq<string>)
    requires Known(strings, qs, ss) && Known(strings, qs2, ss2)
    ensures Known(strings, qs + qs2, ss + ss2)
  {
  }

  /** The naming part of the subclass `model_constructed`: `names[a]` is the
      quark of parameter a's name. */
  method InternNames(kind: Kind, dims: seq<Index>, qt: QuarkTable) returns (names: seq<nat>)
    requires qt.Valid()
    modifies qt
    ensures qt.Valid()
    ensures |names| == NumParams(kind, |dims|)
    ensures forall a :: 0 <= a < |names| ==> names[a] != 0 && names[a] == qt.TryString(ParamNames(kind, dims)[a])
  {
    match kind {
      case DinaModel =>
        var g := Intern(qt, "Guess", [], []);
        assert [] + [g] == [g] && [] + ["Guess"] == ["Guess"];
        var s := Intern(qt, "Slip", [g], ["Guess"]);
        names := [g, s];
        assert [g] + [s] == names && ["Guess"] + ["Slip"] == ParamNames(kind, dims);
      case NidaModel =>
        names := InternNidaNames(dims, qt);
    }
  }

  /** The probability of response `resp` for the pattern with bits `data`
      and width `num`, under a model of kind `kind` for a test of width
      `testDim` loading on the attributes `dims`, with parameters `params`. */
  function ProbWith(kind: Kind, testDim: nat, dims: seq<Index>, params: seq<real>, resp: nat, data: nat, num: nat): (p: real)
    requires |params| == NumParams(kind, |dims|)
    ensures num != testDim || resp > 1 ==> p == 0.0
  {
    if num != testDim then 0.0
    else match kind
      case DinaModel => Dina.Prob(resp, params[Dina.Guess], params[Dina.Slip], Dina.Pass(Loaded(data, num, dims)))
      case NidaModel => Nida.Prob(resp, Nida.Product(params, Loaded(data, num, dims), |dims|))
  }

  class Model {
    const kind: Kind
    /** `dimsFlags->num`: the number of attributes of the test. */
    const testDim: nat
    /** `dimsFlags->data`: the Q-matrix row. */
    const qData: nat
    const ndims: nat
    const dims: seq<Index>
    const np: nat
    const names: seq<nat>
    var params: seq<real>
    /** `constructed` reported that the item loads on no attribute. */
    const noAttributes: bool

    ghost predicate Valid()
      reads this
    {
      && testDim <= MaxAttributes && qData < Pow2(testDim)
      && dims == Positions(Pattern(qData, testDim)) && ndims == |dims|
      && np == NumParams(kind, ndims) && |names| == np && |params| == np
    }

    /** `constructed` of the base, then of the subclass: the loaded
        attributes from the Q row (an absent row is a new, empty pattern),
        all parameters 0 and the names interned. */
    constructor (kind: Kind, flags: Attributes?, qt: QuarkTable)
      requires flags != null ==> flags.Valid()
      requires qt.Valid()
      modifies qt
      ensures Valid() && qt.Valid()
      ensures this.kind == kind
      ensures flags == null ==> testDim == 0 && qData == 0
      ensures flags != null ==> testDim == flags.num && qData == flags.data
      ensures params == seq(np, _ => 0.0)
      ensures forall a :: 0 <= a < np ==> names[a] != 0 && names[a] == qt.TryString(ParamNames(kind, dims)[a])
      ensures noAttributes <==> ndims == 0
    {
      var f: Attributes;
      if flags == null {
        f := new Attributes(0);
      } else {
        f := flags;
      }
      var nd, ds := AttributeDims(f);
      var ns := InternNames(kind, ds, qt);
      this.kind := kind;
      testDim := f.num;
      qData := f.data;
      ndims := nd;
      dims := ds;
      np := |ns|;
      names := ns;
      params := seq(|ns|, _ => 0.0);
      noAttributes := nd == 0;
    }

    /** The probability of response `resp` for the pattern with bits `data`
        and width `num`, as the subclass `P` computes it behind the width
        check of `oscats_discr_model_P`. */
    function Prob(resp: nat, data: nat, num: nat): (p: real)
      reads this
      requires Valid()
      ensures num != testDim || resp > 1 ==> p == 0.0
    {
      ProbWith(kind, testDim, dims, params, resp, data, num)
    }

    /** `get_max`: no response above it has any probability. */
    function GetMax(): (m: nat)
      reads this
      requires Valid()
      ensures m == KindMax(kind)
      ensures forall r: nat, d: nat, n: nat :: r > m ==> Prob(r, d, n) == 0.0
    {
      KindMax(kind)
    }

    /** For a pattern of the model's width the two responses share all the
        probability, and with parameters in [0, 1] each lies in [0, 1]. */
    lemma ProbTotal(data: nat, num: nat)
      requires Valid() && num == testDim
      requires forall i :: 0 <= i < np ==> 0.0 <= params[i] <= 1.0
      ensures Prob(0, data, num) + Prob(1, data, num) == 1.0
      ensures forall r: nat :: 0.0 <= Prob(r, data, num) <= 1.0
    {
      if kind == NidaModel {
        Nida.ProbRange(0, params, Loaded(data, num, dims));
        forall r: nat ensures 0.0 <= Prob(r, data, num) <= 1.0 {
          Nida.ProbRange(r, params, Loaded(data, num, dims));
        }
      } else {
        assert 0.0 <= params[Dina.Guess] <= 1.0 && 0.0 <= params[Dina.Slip] <= 1.0;
        forall r: nat ensures 0.0 <= Prob(r, data, num) <= 1.0 {
          Dina.ProbRange(r, params[Dina.Guess], params[Dina.Slip], Dina.Pass(Loaded(data, num, dims)));
        }
      }
    }

    /** `oscats_discr_model_P`: 0 for a pattern of another width, otherwise
        the subclass `P`. */
    method P(resp: nat, attr: Attributes) returns (p: real)
      requires Valid()
      ensures p == Prob(resp, attr.data, attr.num)
    {
      if testDim != attr.num {
        return 0.0;
      }
      match kind {
        case DinaModel => p := Dina.P(params, dims, resp, attr);
        case NidaModel => p := Nida.P(params, dims, resp, attr);
      }
    }

    /** Every parameter strictly inside (0, 1), where the derivatives are finite. */
    ghost predicate Interior()
      reads this
    {
      forall i :: 0 <= i < |params| ==> 0.0 < params[i] < 1.0
    }

    /** The base's guards pass and it calls the subclass: the pattern has the
        test's width and each buffer given has size Np (discrmodel.c:274-279).
        Only the sizes of the buffers matter, not their contents. */
    predicate Forwards(attr: Attributes, grad: array?<real>, hes: array2?<real>)
      reads this, attr
    {
      && attr.num == testDim
      && (grad != null ==> grad.Length == np)
      && (hes != null ==> hes.Length0 == np && hes.Length1 == np)
    }

    /** `oscats_discr_model_logLik_dparam`: nothing changes for a pattern of
        another width or a buffer of the wrong size; otherwise the subclass
        adds the derivatives of log P for the response into each buffer that
        is given. The subclass routines write through an absent buffer for
        some responses (see `DereferencesNull`), so those calls are excluded;
        `LogLikDparamNullSafe` accepts them all. */
    method LogLikDparam(resp: nat, attr: Attributes, grad: array?<real>, hes: array2?<real>)
      requires Valid() && Interior()
      requires Forwards(attr, grad, hes) ==> !DereferencesNull(kind, resp, ndims, grad == null, hes == null)
      modifies grad, hes
      ensures !Forwards(attr, grad, hes) || resp > KindMax(kind) ==>
        && (grad != null ==> grad[..] == old(grad[..]))
        && (hes != null ==> forall a, b :: 0 <= a < hes.Length0 && 0 <= b < hes.Length1 ==> hes[a, b] == old(hes[a, b]))
      ensures Forwards(attr, grad, hes) && resp <= KindMax(kind) ==>
        var loaded := Loaded(attr.data, attr.num, dims);
        match kind
        case DinaModel =>
          var d := Dina.LogLikDerivatives(params[Dina.Guess], params[Dina.Slip], Dina.Pass(loaded), resp == 1);
          && grad != null && hes != null
          && grad[Dina.Guess] == old(grad[Dina.Guess]) + d.guess
          && grad[Dina.Slip] == old(grad[Dina.Slip]) + d.slip
          && hes[Dina.Guess, Dina.Guess] == old(hes[Dina.Guess, Dina.Guess]) + d.guessGuess
          && hes[Dina.Slip, Dina.Slip] == old(hes[Dina.Slip, Dina.Slip]) + d.slipSlip
          && hes[Dina.Guess, Dina.Slip] == old(hes[Dina.Guess, Dina.Slip])
          && hes[Dina.Slip, Dina.Guess] == old(hes[Dina.Slip, Dina.Guess])
        case NidaModel =>
          && (resp == 1 ==>
               && (grad != null ==> forall a :: 0 <= a < np ==> grad[a] == old(grad[a]) + Nida.Resp1Grad(params, loaded, a))
               && (hes != null ==> forall a, b :: 0 <= a < np && 0 <= b < np ==>
                     hes[a, b] == old(hes[a, b]) + Nida.Resp1Hes(params, loaded, a, b)))
          && (resp == 0 ==>
               && (ndims > 0 ==> grad != null && hes != null)
               && (forall a :: 0 <= a < np ==> grad[a] == old(grad[a]) + Nida.Resp0Grad(params, loaded, a))
               && (forall a, b :: 0 <= a < np && 0 <= b < np ==> hes[a, b] == old(hes[a, b]) + Nida.Resp0Hes(params, loaded, a, b)))
    {
      if !(attr.num == testDim) {
        return;
      }
      if grad != null && grad.Length != np {
        return;
      }
      if hes != null && !(hes.Length0 == np && hes.Length1 == np) {
        return;
      }
      match kind {
        case DinaModel =>
          Dina.LogLikDparam(params, dims, resp, attr, grad, hes);
        case NidaModel =>
          Nida.LogLikDparam(params, dims, resp, attr, grad, hes);
      }
    }

    /** `logLik_dparam` as documented: either buffer may be NULL. An absent
        buffer is replaced by a scratch one of size Np that is then dropped,
        so no call is refused and each buffer that is given receives exactly
        what `LogLikDparam` adds to it. */
    method LogLikDparamNullSafe(resp: nat, attr: Attributes, grad: array?<real>, hes: array2?<real>)
      requires Valid() && Interior()
      modifies grad, hes
      ensures !Forwards(attr, grad, hes) || resp > KindMax(kind) ==>
        && (grad != null ==> grad[..] == old(grad[..]))
        && (hes != null ==> forall a, b :: 0 <= a < hes.Length0 && 0 <= b < hes.Length1 ==> hes[a, b] == old(hes[a, b]))
      ensures Forwards(attr, grad, hes) && resp <= KindMax(kind) ==>
        var loaded := Loaded(attr.data, attr.num, dims);
        && (grad != null ==> forall a :: 0 <= a < np ==>
              grad[a] == old(grad[a]) + GradTerm(kind, params, loaded, resp, a))
        && (hes != null ==> forall a, b :: 0 <= a < np && 0 <= b < np ==>
              hes[a, b] == old(hes[a, b]) + HesTerm(kind, params, loaded, resp, a, b))
    {
      if !Forwards(attr, grad, hes) {
        return;
      }
      var g, h := grad, hes;
      if g == null {
        g := new real[np];
      }
      if h == null {
        h := new real[np, np];
      }
      LogLikDparam(resp, attr, g, h);
    }
    /** `has_param`: whether some parameter is named `q`. */
    method HasParam(q: nat) returns (r: bool)
      requires Valid()
      ensures r <==> q in names
    {
      var i := FirstIndex(names, q);
      r := i.Some?;
    }

    /** `get_param`: the parameter at the first index named `q`, 0 for an unknown name. */
    method GetParam(q: nat) returns (v: real)
      requires Valid()
      ensures v == ParamTable.Get(names, params, q)
    {
      var i := FirstIndex(names, q);
      match i {
        case None => v := 0.0;
        case Some(k) => v := params[k];
      }
    }

    /** `set_param`: the first index named `q` takes `v`; an unknown name changes nothing. */
    method SetParam(q: nat, v: real)
      requires Valid()
      modifies this
      ensures Valid()
      ensures params == ParamTable.Put(names, old(params), q, v)
    {
      var i := FirstIndex(names, q);
      match i {
        case None =>
        case Some(k) => params := params[k := v];
      }
    }

    /** `get_param_by_index`: 0 for an index at or beyond Np. */
    function GetParamByIndex(index: nat): (v: real)
      reads this
      requires Valid()
      ensures index < np ==> v == params[index]
      ensures index >= np ==> v == 0.0
    {
      if index < np then params[index] else 0.0
    }

    /** `set_param_by_index`: an index at or beyond Np changes nothing. */
    method SetParamByIndex(index: nat, v: real)
      requires Valid()
      modifies this
      ensures Valid()
      ensures index < np ==> params == old(params)[index := v]
      ensures index >= np ==> params == old(params)
    {
      if index < np {
        params := params[index := v];
      }
    }

    /** `get_param_name`: the interned name of parameter `index`, NULL beyond Np. */
    function GetParamName(qt: QuarkTable, index: nat): (r: Option<string>)
      reads this, qt
      requires Valid() && qt.Valid()
      ensures r.Some? <==> index < np && 1 <= names[index] <= |qt.strings|
      ensures r.Some? ==> qt.TryString(r.value) == names[index] && r.value == qt.strings[names[index] - 1]
    {
      if index < np then qt.ToString(names[index]) else None
    }

    /** `has_param_name`: false for a string that was never interned. */
    method HasParamName(qt: QuarkTable, name: string) returns (r: bool)
      requires Valid()
      ensures r <==> qt.TryString(name) != 0 && qt.TryString(name) in names
    {
      var q := qt.TryString(name);
      if q == 0 {
        return false;
      }
      r := HasParam(q);
    }

    /** `get_param_by_name`: 0 for a string that was never interned. */
    method GetParamByName(qt: QuarkTable, name: string) returns (v: real)
      requires Valid()
      ensures qt.TryString(name) == 0 ==> v == 0.0
      ensures qt.TryString(name) != 0 ==> v == ParamTable.Get(names, params, qt.TryString(name))
    {
      var q := qt.TryString(name);
      if q == 0 {
        return 0.0;
      }
      v := GetParam(q);
    }

    /** `set_param_by_name`: a string that was never interned changes nothing. */
    method SetParamByName(qt: QuarkTable, name: string, v: real)
      requires Valid()
      modifies this
      ensures Valid()
      ensures qt.TryString(name) == 0 ==> params == old(params)
      ensures qt.TryString(name) != 0 ==> params == ParamTable.Put(names, old(params), qt.TryString(name), v)
    {
      var q := qt.TryString(name);
      if q == 0 {
        return;
      }
      SetParam(q, v);
    }
  }
}
