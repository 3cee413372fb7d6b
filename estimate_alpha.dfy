// Attribute-pattern estimation for classification models
// (src/liboscats/algorithms/estimate_alpha.c). After each administered
// item the examinee's estimated pattern becomes the first pattern, in the
// order of their bits read as a number, that maximises the log-likelihood
// of the responses so far. The logarithm is a parameter; the search over
// the 2^num patterns is modelled as written, with the estimate object
// itself as the loop variable.

module EstimateAlpha {
  import opened Bits
  import opened Attributes
  import Item
  import Examinee
  import DiscrModel

  ghost predicate ModelsValid(items: seq<Item.Item>)
    reads set i | 0 <= i < |items| :: items[i].discr
  {
    forall i :: 0 <= i < |items| && items[i].discr != null ==> items[i].discr.Valid()
  }

  /** The current parameters of each item's discrete model, [] for an item
      without one. */
  ghost function Params(items: seq<Item.Item>): (ps: seq<seq<real>>)
    reads set i | 0 <= i < |items| :: items[i].discr
    ensures |ps| == |items|
    ensures forall i :: 0 <= i < |items| && items[i].discr != null ==> ps[i] == items[i].discr.params
  {
    seq(|items|, i reads set i | 0 <= i < |items| :: items[i].discr =>
      if 0 <= i < |items| && items[i].discr != null then items[i].discr.params else [])
  }

  /** Each parameter list has the length the item's model needs. */
  predicate Fits(items: seq<Item.Item>, ps: seq<seq<real>>)
  {
    |ps| == |items| &&
    forall i :: 0 <= i < |items| && items[i].discr != null ==>
      |ps[i]| == DiscrModel.NumParams(items[i].discr.kind, |items[i].discr.dims|)
  }

  /** Well-formed models have parameter lists that fit. */
  lemma ValidFits(items: seq<Item.Item>)
    requires ModelsValid(items)
    ensures Fits(items, Params(items))
  {
  }

  /** `oscats_discr_model_P` on an item's discrete model with parameters `p`:
      an item without one gives 0 (the type guard). */
  function ItemProb(item: Item.Item, p: seq<real>, resp: nat, data: nat, num: nat): (r: real)
    requires item.discr != null ==> |p| == DiscrModel.NumParams(item.discr.kind, |item.discr.dims|)
    ensures item.discr == null || num != item.discr.testDim ==> r == 0.0
  {
    if item.discr == null then 0.0
    else DiscrModel.ProbWith(item.discr.kind, item.discr.testDim, item.discr.dims, p, resp, data, num)
  }

  /** The log-likelihood of the first `n` responses of a history under the
      pattern with bits `data` and width `num`, the models having the
      parameters `ps`. */
  function Score(log: real -> real, items: seq<Item.Item>, ps: seq<seq<real>>, resp: seq<nat>, data: nat, num: nat, n: nat): (s: real)
    requires n <= |items| == |resp| && Fits(items, ps)
    ensures n == 0 ==> s == 0.0
  {
    if n == 0 then 0.0
    else
      Score(log, items, ps, resp, data, num, n - 1) + log(ItemProb(items[n - 1], ps[n - 1], resp[n - 1], data, num))
  }

  /** The log-likelihood of a whole history. */
  ghost function Lik(log: real -> real, items: seq<Item.Item>, ps: seq<seq<real>>, resp: seq<nat>, data: nat, num: nat): real
    requires |items| == |resp| && Fits(items, ps)
  {
    Score(log, items, ps, resp, data, num, |items|)
  }

  /** The first of the patterns 0 .. k-1 with the largest log-likelihood:
      a later pattern replaces the best so far only when strictly better. */
  ghost function Best(log: real -> real, items: seq<Item.Item>, ps: seq<seq<real>>, resp: seq<nat>, num: nat, k: nat): (b: nat)
    requires |items| == |resp| && Fits(items, ps) && k >= 1
    ensures b < k
  {
    if k == 1 then 0
    else
      var b := Best(log, items, ps, resp, num, k - 1);
      if Lik(log, items, ps, resp, k - 1, num) > Lik(log, items, ps, resp, b, num) then k - 1 else b
  }

  /** `Best` is the first maximiser: no pattern below k scores more, and
      every pattern before it scores strictly less. */
  lemma {:induction false} BestIsFirstArgmax(log: real -> real, items: seq<Item.Item>, ps: seq<seq<real>>, resp: seq<nat>, num: nat, k: nat)
    requires |items| == |resp| && Fits(items, ps) && k >= 1
    ensures forall d :: 0 <= d < k ==> Lik(log, items, ps, resp, d, num) <= Lik(log, items, ps, resp, Best(log, items, ps, resp, num, k), num)
    ensures forall d :: 0 <= d < Best(log, items, ps, resp, num, k) ==> Lik(log, items, ps, resp, d, num) < Lik(log, items, ps, resp, Best(log, items, ps, resp, num, k), num)
  {
    if k > 1 {
      BestIsFirstArgmax(log, items, ps, resp, num, k - 1);
    }
  }

  /** With no responses every pattern scores 0, so the estimate is pattern 0. */
  lemma EmptyHistoryGivesZero(log: real -> real, items: seq<Item.Item>, ps: seq<seq<real>>, resp: seq<nat>, num: nat, k: nat)
    requires |items| == |resp| && Fits(items, ps) && k >= 1 && items == []
    ensures Best(log, items, ps, resp, num, k) == 0
  {
    BestIsFirstArgmax(log, items, ps, resp, num, k);
    var b := Best(log, items, ps, resp, num, k);
    if b > 0 {
      assert Lik(log, items, ps, resp, 0, num) == 0.0 == Lik(log, items, ps, resp, b, num);
    }
  }

  /** The number of patterns `K = 1 << num` as written: a 32-bit shift, whose
      count the x86 shift instruction takes modulo 32. */
  function AsWrittenPatterns(num: nat): (k: nat)
    ensures num < 32 ==> k == Pow2(num)
  {
    Pow2(num % 32)
  }

  /** At the largest width, 32 attributes, the shift gives 1 instead of 2^32:
      the search visits pattern 0 only, so the estimate is pattern 0 whatever
      the responses. */
  lemma AsWrittenPatternsAt32(log: real -> real, items: seq<Item.Item>, ps: seq<seq<real>>, resp: seq<nat>)
    requires |items| == |resp| && Fits(items, ps)
    ensures AsWrittenPatterns(MaxAttributes) == 1 && Pow2(MaxAttributes) > 1
    ensures Best(log, items, ps, resp, MaxAttributes, AsWrittenPatterns(MaxAttributes)) == 0
  {
  }

  /** The guarded call of `oscats_discr_model_P` for one item, whose model
      has the parameters `p`. */
  method ItemP(item: Item.Item, ghost p: seq<real>, resp: nat, attr: Attributes) returns (r: real)
    requires item.discr != null ==> item.discr.Valid() && item.discr.params == p
    ensures item.discr != null ==> |p| == DiscrModel.NumParams(item.discr.kind, |item.discr.dims|)
    ensures r == ItemProb(item, p, resp, attr.data, attr.num)
  {
    r := 0.0;
    if item.discr != null {
      r := item.discr.P(resp, attr);
    }
  }

  /** The inner loop of `administered`: the log-likelihood of the history
      under the current value of `attr` and the models' current parameters. */
  method LogLik(log: real -> real, items: seq<Item.Item>, ghost ps: seq<seq<real>>, resp: seq<nat>, attr: Attributes) returns (l: real)
    requires |items| == |resp| && Fits(items, ps) && ModelsValid(items) && ps == Params(items)
    ensures l == Lik(log, items, ps, resp, attr.data, attr.num)
  {
    l := 0.0;
    var i := 0;
    while i < |items|
      invariant 0 <= i <= |items|
      invariant l == Score(log, items, ps, resp, attr.data, attr.num, i)
    {
      var p := ItemP(items[i], ps[i], resp[i], attr);
      l := l + log(p);
      i := i + 1;
    }
  }

  /** One pass of the search loop: `attr` is set to pattern `cur`, scored,
      and kept as the best only when strictly better. */
  method Visit(log: real -> real, items: seq<Item.Item>, ghost ps: seq<seq<real>>, resp: seq<nat>, attr: Attributes, num: nat,
               cur: nat, max: nat, lMax: real) returns (max': nat, lMax': real)
    requires |items| == |resp| && Fits(items, ps) && ModelsValid(items) && ps == Params(items)
    requires cur >= 1 && attr.num == num
    requires max == Best(log, items, ps, resp, num, cur)
    requires lMax == Lik(log, items, ps, resp, max, num)
    modifies attr
    ensures ModelsValid(items) && ps == Params(items)
    ensures attr.num == num && attr.data == cur
    ensures max' == Best(log, items, ps, resp, num, cur + 1)
    ensures lMax' == Lik(log, items, ps, resp, max', num)
  {
    attr.data := cur;
    var l := LogLik(log, items, ps, resp, attr);
    max', lMax' := max, lMax;
    if l > lMax {
      max', lMax' := cur, l;
    }
  }

  /** The search loop of `administered`: `attr` runs over the patterns
      1 .. k-1, and the first best of 0 .. k-1 is returned. */
  method Scan(log: real -> real, items: seq<Item.Item>, ghost ps: seq<seq<real>>, resp: seq<nat>, attr: Attributes, num: nat,
              k: nat, l0: real) returns (max: nat)
    requires |items| == |resp| && Fits(items, ps) && ModelsValid(items) && ps == Params(items)
    requires k >= 1 && attr.num == num
    requires l0 == Lik(log, items, ps, resp, 0, num)
    modifies attr
    ensures ModelsValid(items) && ps == Params(items)
    ensures attr.num == num
    ensures max == Best(log, items, ps, resp, num, k)
  {
    var lMax := l0;
    max := 0;
    var cur := 1;
    while cur < k
      invariant 1 <= cur <= k && attr.num == num
      invariant ModelsValid(items) && ps == Params(items)
      invariant max == Best(log, items, ps, resp, num, cur)
      invariant lMax == Lik(log, items, ps, resp, max, num)
    {
      max, lMax := Visit(log, items, ps, resp, attr, num, cur, max, lMax);
      cur := cur + 1;
    }
  }

  /** The search of `administered`: `attr` runs over the patterns 0 .. k-1
      and is left at the first best one under the models' parameters. */
  method Search(log: real -> real, items: seq<Item.Item>, resp: seq<nat>, attr: Attributes, k: nat)
    requires |items| == |resp| && ModelsValid(items) && k >= 1
    modifies attr
    ensures ModelsValid(items) && Fits(items, Params(items))
    ensures attr.num == old(attr.num)
    ensures attr.data == Best(log, items, Params(items), resp, attr.num, k)
  {
    ghost var ps := Params(items);
    ValidFits(items);
    var num := attr.num;
    attr.data := 0;
    var l0 := LogLik(log, items, ps, resp, attr);
    var max := Scan(log, items, ps, resp, attr, num, k, l0);
    attr.data := max;
  }

  /** The width of a pattern made with `"num", n`: the property accepts 1 to
      32 and leaves an out-of-range request at the zero-filled 0. */
  function NewWidth(n: nat): (w: nat)
    ensures w <= MaxAttributes
    ensures w == n <==> 1 <= n <= MaxAttributes || n == 0
  {
    if 1 <= n <= MaxAttributes then n else 0
  }

  /** `administered` (estimate_alpha.c:40-73), with the pattern count 2^num:
      an examinee without an estimate gets one of the bank's width; then the
      estimate's bits become the first pattern of the largest log-likelihood
      of the history, and nothing else of the examinee changes. */
  method Administered(log: real -> real, e: Examinee.Examinee, bankAttrs: nat)
    requires e.Valid() && ModelsValid(e.items)
    requires e.alphaHat != null ==> e.alphaHat.Valid()
    modifies e, e.alphaHat
    ensures e.Valid() && e.alphaHat != null && e.alphaHat.Valid()
    ensures old(e.alphaHat) != null ==> e.alphaHat == old(e.alphaHat) && e.alphaHat.num == old(e.alphaHat.num)
    ensures old(e.alphaHat) == null ==> fresh(e.alphaHat) && e.alphaHat.num == NewWidth(bankAttrs)
    ensures e.items == old(e.items) && e.resp == old(e.resp) && e.prepared == old(e.prepared)
    ensures e.trueAlpha == old(e.trueAlpha) && e.trueTheta == old(e.trueTheta) && e.thetaHat == old(e.thetaHat)
    ensures e.trueAlpha != null ==> e.trueAlpha.num == old(e.trueAlpha.num) && e.trueAlpha.data == old(e.trueAlpha.data)
    ensures ModelsValid(e.items) && Fits(e.items, Params(e.items))
    ensures e.alphaHat.data == Best(log, e.items, Params(e.items), e.resp, e.alphaHat.num, Pow2(e.alphaHat.num))
    ensures forall d :: 0 <= d < Pow2(e.alphaHat.num) ==>
      Lik(log, e.items, Params(e.items), e.resp, d, e.alphaHat.num) <= Lik(log, e.items, Params(e.items), e.resp, e.alphaHat.data, e.alphaHat.num)
    ensures forall d :: 0 <= d < e.alphaHat.data ==>
      Lik(log, e.items, Params(e.items), e.resp, d, e.alphaHat.num) < Lik(log, e.items, Params(e.items), e.resp, e.alphaHat.data, e.alphaHat.num)
    ensures e.items == [] ==> e.alphaHat.data == 0
  {
    if e.alphaHat == null {
      var made := new Attributes(NewWidth(bankAttrs));
      e.SetAlphaHat(made);
    }
    var attr := e.alphaHat;
    Search(log, e.items, e.resp, attr, Pow2(attr.num));
    BestIsFirstArgmax(log, e.items, Params(e.items), e.resp, attr.num, Pow2(attr.num));
    if e.items == [] {
      EmptyHistoryGivesZero(log, e.items, Params(e.items), e.resp, attr.num, Pow2(attr.num));
    }
  }

  /** The registration of `alg_register`: only for a bank of classification
      models. */
  class Algorithm {
    var registered: bool

    constructor ()
      ensures !registered
    {
      registered := false;
    }

    method Register(isClass: bool)
      modifies this
      ensures registered == (old(registered) || isClass)
    {
      if isClass {
        registered := true;
      }
    }
  }
}
