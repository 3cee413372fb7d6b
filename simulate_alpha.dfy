// Simulated responses under a classification model
// (src/liboscats/algorithms/simulate_alpha.c). The examinee's response to
// an item is drawn from the item's discrete model at the examinee's true
// attribute pattern and, when the algorithm's "auto-record" flag is set,
// appended to the examinee's history. The uniform draw is a parameter.

module SimulateAlpha {
  import opened Optional
  import opened Walk
  import opened Attributes
  import Item
  import DiscrModel
  import Examinee

  /** The default the "auto-record" property declares. */
  const DeclaredAutoRecord: bool := true

  /** The flag as written: the property is not a construct property, so its
      declared default is never stored and an algorithm made without the
      property keeps the zero-filled FALSE. */
  function AutoRecordAsWritten(autoRecord: Option<bool>): (r: bool)
    ensures autoRecord.Some? ==> r == autoRecord.value
    ensures autoRecord.None? ==> !r
  {
    if autoRecord.Some? then autoRecord.value else false
  }

  /** An algorithm made without "auto-record" disagrees with the declared
      default: its responses are not recorded. */
  lemma AutoRecordDefaultLost()
    ensures AutoRecordAsWritten(None) != DeclaredAutoRecord
  {
  }

  /** `oscats_discr_model_get_max` of an item's model: 0 without one (the type guard). */
  function MaxOf(discr: DiscrModel.Model?): (m: nat)
    reads discr
    requires discr != null ==> discr.Valid()
    ensures m <= 1
    ensures discr != null ==> m == DiscrModel.KindMax(discr.kind)
  {
    if discr == null then 0 else discr.GetMax()
  }

  /** `oscats_discr_model_P` for response `k`: 0 without a model or without
      a true pattern (the type guards). */
  function ProbOf(discr: DiscrModel.Model?, alpha: Attributes?, k: nat): (p: real)
    reads discr, alpha
    requires discr != null ==> discr.Valid()
    ensures discr == null || alpha == null ==> p == 0.0
    ensures discr != null && alpha != null ==> p == discr.Prob(k, alpha.data, alpha.num)
  {
    if discr == null || alpha == null then 0.0 else discr.Prob(k, alpha.data, alpha.num)
  }

  /** The probabilities of responses 0 .. max that `administer` walks through. */
  function Probs(discr: DiscrModel.Model?, alpha: Attributes?): (ps: seq<real>)
    reads discr, alpha
    requires discr != null ==> discr.Valid()
    ensures |ps| == MaxOf(discr) + 1
    ensures forall k :: 0 <= k < |ps| ==> ps[k] == ProbOf(discr, alpha, k)
  {
    ProbsUpTo(discr, alpha, MaxOf(discr) + 1)
  }

  /** The probabilities of responses 0 .. n-1. */
  function ProbsUpTo(discr: DiscrModel.Model?, alpha: Attributes?, n: nat): (ps: seq<real>)
    reads discr, alpha
    requires discr != null ==> discr.Valid()
    ensures |ps| == n
    ensures forall k :: 0 <= k < n ==> ps[k] == ProbOf(discr, alpha, k)
  {
    if n == 0 then [] else ProbsUpTo(discr, alpha, n - 1) + [ProbOf(discr, alpha, n - 1)]
  }

  /** The walk of `administer`: `hit` tells whether some response's running
      probability exceeds the draw, and `resp` is that response or 0. */
  method Sample(discr: DiscrModel.Model?, alpha: Attributes?, u: real) returns (resp: nat, hit: bool)
    requires discr != null ==> discr.Valid()
    ensures hit == Draw(Probs(discr, alpha), u).Some?
    ensures resp == Response(Probs(discr, alpha), u)
  {
    var max := MaxOf(discr);
    ghost var ps := Probs(discr, alpha);
    var rnd := u;
    resp := 0;
    while resp <= max
      invariant resp <= max + 1
      invariant rnd == u - Below(ps, resp)
      invariant DrawFrom(ps, u, resp) == Draw(ps, u)
    {
      var p := 0.0;
      if discr != null && alpha != null {
        p := discr.P(resp, alpha);
      }
      if rnd < p {
        return resp, true;
      }
      rnd := rnd - p;
      resp := resp + 1;
    }
    return 0, false;
  }

  /** Without a model or a true pattern every probability is 0 and the
      simulated response is always 0. */
  lemma NoModelGivesZero(discr: DiscrModel.Model?, alpha: Attributes?, u: real)
    requires discr != null ==> discr.Valid()
    requires discr == null || alpha == null
    ensures Response(Probs(discr, alpha), u) == 0
  {
    ZeroProbsGiveZero(Probs(discr, alpha), u);
  }

  class Algorithm {
    /** Whether simulated responses go into the examinee's history. */
    var record: bool
    /** Whether `administer` is connected to the test. */
    var registered: bool

    /** A new algorithm; "auto-record" takes its declared default TRUE when
        not given. */
    constructor (autoRecord: Option<bool>)
      ensures record == (if autoRecord.Some? then autoRecord.value else DeclaredAutoRecord)
      ensures !registered
    {
      record := if autoRecord.Some? then autoRecord.value else DeclaredAutoRecord;
      registered := false;
    }

    /** Setting "auto-record". */
    method SetAutoRecord(value: bool)
      modifies this
      ensures record == value && registered == old(registered)
    {
      record := value;
    }

    /** `administer`: the first response whose running probability exceeds
        the draw `u`, or 0 when the probabilities run out first. A drawn
        response is appended to the examinee's history when recording is on;
        the fall-back 0 never is. */
    method Administer(e: Examinee.Examinee, item: Item.Item, u: real) returns (resp: nat)
      requires e.Valid()
      requires item.discr != null ==> item.discr.Valid()
      modifies e
      ensures e.Valid() && e.prepared == old(e.prepared)
      ensures resp <= MaxOf(item.discr)
      ensures resp == Response(old(Probs(item.discr, e.trueAlpha)), u)
      ensures record && old(Draw(Probs(item.discr, e.trueAlpha), u)).Some? && e.prepared ==>
        e.items == old(e.items) + [item] && e.resp == old(e.resp) + [resp as Examinee.Byte]
      ensures !(record && old(Draw(Probs(item.discr, e.trueAlpha), u)).Some? && e.prepared) ==>
        e.items == old(e.items) && e.resp == old(e.resp)
      ensures e.trueAlpha == old(e.trueAlpha) && e.alphaHat == old(e.alphaHat)
      ensures e.trueTheta == old(e.trueTheta) && e.thetaHat == old(e.thetaHat) && e.thetaErr == old(e.thetaErr)
    {
      var hit;
      resp, hit := Sample(item.discr, e.trueAlpha, u);
      if hit && record {
        e.AddItem(item, resp);
      }
    }

    /** `alg_register`: only for a bank of classification models. */
    method Register(isDiscr: bool)
      modifies this
      ensures record == old(record)
      ensures registered == (old(registered) || isDiscr)
    {
      if isDiscr {
        registered := true;
      }
    }
  }
}
