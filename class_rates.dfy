// Classification-rate counters (src/liboscats/algorithms/class_rates.c).
// At the end of each examinee's test the estimated attribute pattern is
// compared with the true one: the counters record how many examinees were
// seen, how many had every attribute right, how often each attribute was
// right, a histogram of the number of wrong attributes, and, optionally,
// per true pattern, how many examinees had it and how many of those were
// classified exactly. The counters are unbounded here.

module ClassRates {
  import opened Optional
  import opened Attributes

  /** The sum of a histogram. */
  function Sum(s: seq<nat>): nat
  {
    if s == [] then 0 else Sum(s[..|s| - 1]) + s[|s| - 1]
  }

  /** Raising one bar of a histogram raises its sum by one. */
  lemma {:induction false} SumBump(s: seq<nat>, k: nat)
    requires k < |s|
    ensures Sum(s[k := s[k] + 1]) == Sum(s) + 1
  {
    var t := s[k := s[k] + 1];
    if k < |s| - 1 {
      SumBump(s[..|s| - 1], k);
      assert t[..|t| - 1] == s[..|s| - 1][k := s[k] + 1];
    } else {
      assert t[..|t| - 1] == s[..|s| - 1];
    }
  }

  /** No bar of a histogram exceeds its sum. */
  lemma {:induction false} BarBelowSum(s: seq<nat>, k: nat)
    requires k < |s|
    ensures s[k] <= Sum(s)
  {
    if k < |s| - 1 {
      BarBelowSum(s[..|s| - 1], k);
    }
  }

  /** A histogram of zeros sums to zero. */
  lemma {:induction false} SumZeros(n: nat)
    ensures Sum(seq(n, _ => 0)) == 0
  {
    if n > 0 {
      SumZeros(n - 1);
      assert seq(n, _ => 0)[..n - 1] == seq(n - 1, _ => 0);
    }
  }

  /** A count out of a larger positive total is a share in [0, 1]. */
  lemma Share(a: nat, b: nat)
    requires a <= b && b > 0
    ensures 0.0 <= a as real / b as real <= 1.0
  {
    assert a as real / b as real * b as real == a as real;
  }

  /** `oscats_attributes_get` as `finalize` calls it: the index is passed as
      a `guint8`, and a missing pattern reads as FALSE. */
  function AttrBit(a: Attributes?, i: nat): bool
    reads a
  {
    a != null && a.Get((i % 256) as Index)
  }

  /** The number of attributes among the first `n` on which the two
      patterns disagree. */
  function Mismatches(t: Attributes?, h: Attributes?, n: nat): (m: nat)
    reads t, h
    ensures m <= n
  {
    if n == 0 then 0
    else Mismatches(t, h, n - 1) + (if AttrBit(t, n - 1) != AttrBit(h, n - 1) then 1 else 0)
  }

  /** No mismatch exactly when the two patterns agree on every one of the
      first `n` attributes. */
  lemma {:induction false} NoMismatchMeansAgreement(t: Attributes?, h: Attributes?, n: nat)
    ensures Mismatches(t, h, n) == 0 <==> forall i :: 0 <= i < n ==> AttrBit(t, i) == AttrBit(h, i)
  {
    if n > 0 {
      NoMismatchMeansAgreement(t, h, n - 1);
    }
  }

  /** One entry of the by-pattern tree: examinees with this true pattern,
      and how many of them were classified exactly. */
  datatype Counts = Counts(seen: nat, correct: nat)

  function Entry(patterns: map<nat, Counts>, key: nat): Counts
  {
    if key in patterns then patterns[key] else Counts(0, 0)
  }

  /** Every entry has seen at least one examinee and no more exact hits
      than examinees. */
  ghost predicate Consistent(patterns: map<nat, Counts>)
  {
    forall k :: k in patterns ==> 1 <= patterns[k].seen && patterns[k].correct <= patterns[k].seen
  }

  /** The tree after one more examinee with true pattern `key`: its entry,
      made at [0, 0] when new, counts one more examinee and, when `exact`,
      one more exact hit; every other entry is kept. */
  function Bumped(patterns: map<nat, Counts>, key: nat, exact: bool): (r: map<nat, Counts>)
    ensures r.Keys == patterns.Keys + {key}
    ensures r[key].seen == Entry(patterns, key).seen + 1
    ensures r[key].correct == Entry(patterns, key).correct + (if exact then 1 else 0)
    ensures forall k :: k in patterns && k != key ==> r[k] == patterns[k]
    ensures Consistent(patterns) ==> Consistent(r)
  {
    var c := Entry(patterns, key);
    patterns[key := Counts(c.seen + 1, c.correct + (if exact then 1 else 0))]
  }

  /** The attribute loop of `finalize`: count the attributes on which the
      patterns disagree and raise the counter of each one they agree on. */
  method CountAttributes(t: Attributes?, h: Attributes?, correct: seq<nat>) returns (num: nat, raised: seq<nat>)
    ensures num == Mismatches(t, h, |correct|)
    ensures |raised| == |correct|
    ensures forall i :: 0 <= i < |correct| ==>
      raised[i] == correct[i] + (if AttrBit(t, i) == AttrBit(h, i) then 1 else 0)
  {
    num := 0;
    raised := correct;
    var i := 0;
    while i < |correct|
      invariant 0 <= i <= |correct| && |raised| == |correct|
      invariant num == Mismatches(t, h, i)
      invariant forall k :: 0 <= k < i ==>
        raised[k] == correct[k] + (if AttrBit(t, k) == AttrBit(h, k) then 1 else 0)
      invariant forall k :: i <= k < |correct| ==> raised[k] == correct[k]
    {
      if AttrBit(t, i) != AttrBit(h, i) {
        num := num + 1;
      } else {
        raised := raised[i := raised[i] + 1];
      }
      i := i + 1;
    }
  }

  class ClassRates {
    var numExaminees: nat
    var correctPatterns: nat
    var numAttrs: nat
    var correctAttribute: seq<nat>
    var misclassifyHist: seq<nat>
    /** The `by-pattern` construction property: the tree exists. */
    const byPattern: bool
    /** The tree, keyed by the pattern's bits, as `oscats_attributes_compare` orders it. */
    var patterns: map<nat, Counts>
    /** Whether `finalize` is connected and the arrays are allocated. */
    var registered: bool
    /** Examinees finalized since the arrays were last allocated, and the
        exact classifications counted before that. */
    ghost var sinceRegister: nat
    ghost var correctBefore: nat

    /** The counters agree with each other: the histogram totals the
        examinees since registration, its bar 0 holds the exact
        classifications, no attribute is right more often than examinees
        were seen, and no pattern entry has more exact hits than examinees. */
    ghost predicate Valid()
      reads this
    {
      && |correctAttribute| == numAttrs
      && (registered ==> |misclassifyHist| == numAttrs + 1)
      && (!registered ==> misclassifyHist == [] && sinceRegister == 0)
      && sinceRegister <= numExaminees
      && correctPatterns <= numExaminees
      && (forall i :: 0 <= i < numAttrs ==> correctAttribute[i] <= sinceRegister)
      && (registered ==> Sum(misclassifyHist) == sinceRegister
                         && correctPatterns == misclassifyHist[0] + correctBefore)
      && Consistent(patterns)
      && (!byPattern ==> patterns == map[])
    }

    constructor (byPattern: bool)
      ensures Valid() && this.byPattern == byPattern
      ensures numExaminees == 0 && correctPatterns == 0 && numAttrs == 0
      ensures patterns == map[] && !registered
    {
      this.byPattern := byPattern;
      numExaminees, correctPatterns, numAttrs := 0, 0, 0;
      correctAttribute, misclassifyHist := [], [];
      patterns := map[];
      registered := false;
      sinceRegister, correctBefore := 0, 0;
    }

    /** `alg_register`: only for a bank of classification models; takes the
        bank's attribute count and allocates zeroed arrays. The examinee and
        pattern counts are kept. */
    method Register(isClass: bool, nattrs: nat)
      requires Valid()
      modifies this
      ensures Valid()
      ensures !isClass ==> numAttrs == old(numAttrs) && correctAttribute == old(correctAttribute)
                           && misclassifyHist == old(misclassifyHist) && registered == old(registered)
      ensures isClass ==> registered && numAttrs == nattrs
                          && correctAttribute == seq(nattrs, _ => 0) && misclassifyHist == seq(nattrs + 1, _ => 0)
      ensures numExaminees == old(numExaminees) && correctPatterns == old(correctPatterns) && patterns == old(patterns)
    {
      if !isClass {
        return;
      }
      numAttrs := nattrs;
      correctAttribute := seq(nattrs, _ => 0);
      misclassifyHist := seq(nattrs + 1, _ => 0);
      SumZeros(nattrs + 1);
      registered := true;
      sinceRegister := 0;
      correctBefore := correctPatterns;
    }

    /** `finalize` (class_rates.c:121-149), on the examinee's true pattern
        `t` and estimate `h`: one more examinee; each right
        attribute, the bar of the number of wrong ones, the exact-pattern
        count and, in by-pattern mode, the entry of the true pattern (made
        at [0, 0] when new) are raised. The bar index never exceeds the
        number of attributes. */
    method Finalize(t: Attributes?, h: Attributes?) returns (ghost wrong: nat)
      requires Valid() && registered
      requires byPattern ==> t != null
      modifies this
      ensures Valid() && registered
      ensures wrong == old(Mismatches(t, h, numAttrs)) && wrong <= numAttrs
      ensures numAttrs == old(numAttrs) && |correctAttribute| == numAttrs
      ensures numExaminees == old(numExaminees) + 1
      ensures correctPatterns == old(correctPatterns) + (if wrong == 0 then 1 else 0)
      ensures misclassifyHist == old(misclassifyHist)[wrong := old(misclassifyHist)[wrong] + 1]
      ensures byPattern ==> patterns == Bumped(old(patterns), old(t.data), wrong == 0)
      ensures !byPattern ==> patterns == old(patterns)
      ensures forall i :: 0 <= i < numAttrs ==>
        correctAttribute[i] == old(correctAttribute[i]) + (if old(AttrBit(t, i) == AttrBit(h, i)) then 1 else 0)
    {
      var num, raised := CountAttributes(t, h, correctAttribute);
      wrong := num;
      SumBump(misclassifyHist, num);
      var hist := misclassifyHist[num := misclassifyHist[num] + 1];
      var pats := patterns;
      if byPattern {
        pats := Bumped(patterns, t.data, num == 0);
      }
      numExaminees, sinceRegister := numExaminees + 1, sinceRegister + 1;
      correctAttribute, misclassifyHist, patterns := raised, hist, pats;
      if num == 0 {
        correctPatterns := correctPatterns + 1;
      }
    }

    /** `num_examinees`. */
    function NumExaminees(): (n: nat)
      reads this
      requires Valid()
      ensures n >= correctPatterns
    {
      numExaminees
    }

    /** `get_pattern_rate`: the share of examinees classified exactly; the
        division 0/0 (no examinee yet) has no value. */
    function PatternRate(): (r: Option<real>)
      reads this
      requires Valid()
      ensures r.None? <==> numExaminees == 0
      ensures r.Some? ==> 0.0 <= r.value <= 1.0
    {
      if numExaminees == 0 then None
      else
        Share(correctPatterns, numExaminees);
        Some(correctPatterns as real / numExaminees as real)
    }

    /** `get_attribute_rate`: the share of examinees with attribute `i` right;
        an index past the attributes gives 0. */
    function AttributeRate(i: nat): (r: Option<real>)
      reads this
      requires Valid()
      ensures i >= numAttrs ==> r == Some(0.0)
      ensures i < numAttrs ==> (r.None? <==> numExaminees == 0)
      ensures r.Some? ==> 0.0 <= r.value <= 1.0
    {
      if i >= numAttrs then Some(0.0)
      else if numExaminees == 0 then None
      else
        Share(correctAttribute[i], numExaminees);
        Some(correctAttribute[i] as real / numExaminees as real)
    }

    /** `get_misclassify_freq`: the share of examinees with exactly `num`
        wrong attributes; a count past the attributes gives 0. Before
        registration the histogram does not exist, and reading it is an
        error in the source. */
    function MisclassifyFreq(num: nat): (r: Option<real>)
      reads this
      requires Valid() && (registered || num > numAttrs)
      ensures num > numAttrs ==> r == Some(0.0)
      ensures num <= numAttrs ==> (r.None? <==> numExaminees == 0)
      ensures r.Some? ==> 0.0 <= r.value <= 1.0
    {
      if num > numAttrs then Some(0.0)
      else if numExaminees == 0 then None
      else
        BarBelowSum(misclassifyHist, num);
        Share(misclassifyHist[num], numExaminees);
        Some(misclassifyHist[num] as real / numExaminees as real)
    }

    /** `num_examinees_by_pattern`: how many examinees had the pattern's
        bits as their true pattern; 0 without a tree or for a pattern never
        seen. */
    function NumExamineesByPattern(attr: Attributes?): (n: nat)
      reads this, attr
      requires Valid()
      ensures attr == null || !byPattern ==> n == 0
      ensures attr != null && byPattern ==> n == Entry(patterns, attr.data).seen
      ensures attr != null && attr.data !in patterns ==> n == 0
    {
      if attr == null || !byPattern then 0
      else Entry(patterns, attr.data).seen
    }

    /** `get_rate_by_pattern`: the share of the examinees with this true
        pattern who were classified exactly; 0 without a tree or for a
        pattern never seen. */
    function RateByPattern(attr: Attributes?): (r: real)
      reads this, attr
      requires Valid()
      ensures attr == null || !byPattern || attr.data !in patterns ==> r == 0.0
      ensures 0.0 <= r <= 1.0
      ensures attr != null && attr.data in patterns ==>
        r * patterns[attr.data].seen as real == patterns[attr.data].correct as real
    {
      if attr == null || !byPattern || attr.data !in patterns then 0.0
      else
        Share(patterns[attr.data].correct, patterns[attr.data].seen);
        patterns[attr.data].correct as real / patterns[attr.data].seen as real
    }
  }
}
