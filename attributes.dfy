// An attribute pattern: up to 32 binary attributes kept in the bits of one
// unsigned word `data`, together with the number `num` of attributes in use
// (src/liboscats/attributes.h:25-26, 38-42).

module Attributes {
  import opened Bits

  /** OSCATS_MAX_ATTRIBUTES. */
  const MaxAttributes: nat := 32

  /** The `guint8 index` parameter of get and set. */
  type Index = i: nat | i < 256

  /** The characters of a C string before its terminator. */
  type CString = s: string | '\0' !in s

  predicate IsDigit(c: char) { c == '0' || c == '1' }

  predicate IsBlank(c: char) { c == ' ' || c == '\t' || c == '\n' || c == '\r' }

  /** Every character is a digit or one of the four accepted blanks. */
  predicate Legal(s: string)
  {
    forall i :: 0 <= i < |s| ==> IsDigit(s[i]) || IsBlank(s[i])
  }

  /** The 0/1 digits of `s`, in order, with the blanks dropped. */
  function Digits(s: string): (r: string)
    ensures |r| <= |s|
    ensures forall i :: 0 <= i < |r| ==> IsDigit(r[i])
  {
    if s == [] then []
    else Digits(s[..|s| - 1]) + (if IsDigit(s[|s| - 1]) then [s[|s| - 1]] else [])
  }

  /** The text `from_string` accepts: legal characters and 1 to 32 digits. */
  predicate Parses(s: string)
  {
    Legal(s) && 0 < |Digits(s)| <= MaxAttributes
  }

  /** The word whose bit k is digit k of `ds` (digit 0 is the leftmost). */
  function Value(ds: string): nat
  {
    if ds == [] then 0
    else Value(ds[..|ds| - 1]) + (if ds[|ds| - 1] == '1' then Pow2(|ds| - 1) else 0)
  }

  /** The `num` characters '0'/'1' that `as_string` prints for a word. */
  function Render(d: nat, n: nat): (r: string)
  {
    seq(n, i requires 0 <= i < n => if Bit(d, i) then '1' else '0')
  }

  /** Bit k of `Value(ds)` is set iff digit k is '1'; no bit at or above |ds| is set. */
  lemma {:induction false} ValueBits(ds: string)
    requires forall i :: 0 <= i < |ds| ==> IsDigit(ds[i])
    ensures Value(ds) < Pow2(|ds|)
    ensures forall k: nat :: Bit(Value(ds), k) <==> k < |ds| && ds[k] == '1'
  {
    if ds != [] {
      var p, n := ds[..|ds| - 1], |ds| - 1;
      ValueBits(p);
      assert forall k :: 0 <= k < n ==> ds[k] == p[k];
      if ds[n] == '1' {
        forall k: nat
          ensures Bit(Value(ds), k) <==> k < |ds| && ds[k] == '1'
        {
          BitAboveWidth(Value(p), n, n);
          AddClearBit(Value(p), n, k);
        }
      } else {
        forall k: nat
          ensures Bit(Value(ds), k) <==> k < |ds| && ds[k] == '1'
        {
          if k >= n {
            BitAboveWidth(Value(p), n, k);
          }
        }
      }
    } else {
      forall k: nat ensures !Bit(0, k) {
        BitAboveWidth(0, 0, k);
      }
    }
  }

  /** Printing the parsed pattern gives back the digits: `as_string(from_string(s))`
      is `s` without its blanks. */
  lemma RoundTrip(s: string)
    ensures Render(Value(Digits(s)), |Digits(s)|) == Digits(s)
  {
    var ds := Digits(s);
    ValueBits(ds);
    assert forall i :: 0 <= i < |ds| ==> Render(Value(ds), |ds|)[i] == ds[i];
  }

  /** The digits of a prefix are a prefix of the digits. */
  lemma {:induction false} DigitsPrefix(s: string, i: nat)
    requires i <= |s|
    ensures |Digits(s[..i])| <= |Digits(s)|
    ensures Digits(s)[..|Digits(s[..i])|] == Digits(s[..i])
  {
    if i < |s| {
      DigitsPrefix(s[..|s| - 1], i);
      assert s[..|s| - 1][..i] == s[..i];
    } else {
      assert s[..i] == s;
    }
  }

  /** One more character extends the digits by that character when it is a digit. */
  lemma DigitsStep(s: string, i: nat)
    requires i < |s|
    ensures Digits(s[..i + 1]) == Digits(s[..i]) + (if IsDigit(s[i]) then [s[i]] else [])
  {
    assert s[..i + 1][..i] == s[..i];
  }

  lemma ValueStep(ds: string, c: char)
    ensures Value(ds + [c]) == Value(ds) + (if c == '1' then Pow2(|ds|) else 0)
  {
    assert (ds + [c])[..|ds|] == ds;
  }

  /** Reading one more character of the text: the digits grow by that character
      when it is a digit, and a '1' sets the next bit of the value. */
  lemma ParseStep(s: string, i: nat)
    requires i < |s|
    ensures Digits(s[..i + 1]) == Digits(s[..i]) + (if IsDigit(s[i]) then [s[i]] else [])
    ensures |Digits(s[..i + 1])| <= |Digits(s)|
    ensures s[i] == '1' ==> Value(Digits(s[..i + 1])) == SetBit(Value(Digits(s[..i])), |Digits(s[..i])|)
    ensures s[i] != '1' ==> Value(Digits(s[..i + 1])) == Value(Digits(s[..i]))
  {
    DigitsStep(s, i);
    DigitsPrefix(s, i + 1);
    var ds := Digits(s[..i]);
    if IsDigit(s[i]) {
      ValueStep(ds, s[i]);
    } else {
      assert ds + [] == ds;
    }
    if s[i] == '1' {
      ValueBits(ds);
      BitAboveWidth(Value(ds), |ds|, |ds|);
    }
  }

  /** Whether attribute `index` of the pattern with bits `data` and width `num`
      is set: what `oscats_attributes_get` returns. */
  predicate BitIn(data: nat, num: nat, index: nat)
  {
    index < num && Bit(data, index)
  }

  /** The values of the attributes at the given indices, in that order. */
  function Loaded(data: nat, num: nat, dims: seq<Index>): (r: seq<bool>)
    ensures |r| == |dims|
    ensures forall i :: 0 <= i < |dims| ==> r[i] == BitIn(data, num, dims[i])
  {
    seq(|dims|, i requires 0 <= i < |dims| => BitIn(data, num, dims[i]))
  }

  /** The `num` attribute values of a pattern, attribute 0 first. */
  function Pattern(data: nat, num: nat): (r: seq<bool>)
    ensures |r| == num
    ensures forall i :: 0 <= i < num ==> r[i] == BitIn(data, num, i)
  {
    seq(num, i requires 0 <= i < num => BitIn(data, num, i))
  }

  class Attributes {
    /** The attribute bits (guint32). */
    var data: nat
    /** Number of attributes in use. */
    var num: nat

    ghost predicate Valid()
      reads this
    {
      num <= MaxAttributes && data < Pow2(num)
    }

    /** A new pattern with `num` attributes, all clear (`g_object_new` zero-fills). */
    constructor (n: nat)
      requires n <= MaxAttributes
      ensures Valid()
      ensures num == n && data == 0
    {
      data := 0;
      num := n;
    }

    /** `oscats_attributes_get`: an index outside the pattern reads as FALSE. */
    function Get(index: Index): (r: bool)
      reads this
      ensures r ==> index < num
      ensures r <==> BitIn(data, num, index)
    {
      BitIn(data, num, index)
    }

    /** `oscats_attributes_as_int`: the bits as a 32-bit unsigned integer. */
    function AsInt(): (r: nat)
      reads this
      requires Valid()
      ensures r == data
      ensures r < Pow2(MaxAttributes)
      ensures r < Pow2(num)
    {
      Pow2Monotone(num, MaxAttributes);
      data
    }

    /** `oscats_attributes_set`: an index outside the pattern is ignored. */
    method Set(index: Index, value: bool)
      requires Valid()
      modifies this
      ensures Valid()
      ensures num == old(num)
      ensures index < num ==> Get(index) == value
      ensures forall j: Index :: j != index ==> Get(j) == old(Get(j))
      ensures index < num ==> data == if value then SetBit(old(data), index) else ClearBit(old(data), index)
      ensures index >= num ==> data == old(data)
    {
      if index < num {
        if value {
          SetBitBound(data, index, num);
          forall j: nat ensures Bit(SetBit(data, index), j) <==> j == index || Bit(data, j) {
            SetBitAt(data, index, j);
          }
          data := SetBit(data, index);
        } else {
          ClearBitBound(data, index, num);
          forall j: nat ensures Bit(ClearBit(data, index), j) <==> j != index && Bit(data, j) {
            ClearBitAt(data, index, j);
          }
          data := ClearBit(data, index);
        }
      }
    }

    /** `oscats_attributes_as_string`: `num` characters, '1' exactly at the set bits. */
    method AsString() returns (r: string)
      requires Valid()
      ensures |r| == num
      ensures forall i :: 0 <= i < num ==> r[i] == (if Get(i) then '1' else '0')
      ensures r == Render(data, num)
    {
      r := [];
      var i := 0;
      while i < num
        invariant 0 <= i <= num
        invariant |r| == i
        invariant forall k :: 0 <= k < i ==> r[k] == (if Get(k) then '1' else '0')
      {
        r := r + [if Get(i) then '1' else '0'];
        i := i + 1;
      }
    }

    /** `oscats_attributes_copy`: this pattern takes `rhs`'s width and bits. */
    method Copy(rhs: Attributes)
      modifies this
      ensures num == rhs.num && data == rhs.data
      ensures rhs.num == old(rhs.num) && rhs.data == old(rhs.data)
    {
      num := rhs.num;
      data := rhs.data;
    }
  }

  /** `oscats_attributes_from_string`: null unless the text has only digits and
      blanks and 1 to 32 digits; otherwise the pattern with one attribute per digit. */
  method FromString(s: CString) returns (attr: Attributes?)
    ensures attr == null <==> !Parses(s)
    ensures attr != null ==> attr.Valid() && attr.num == |Digits(s)| && attr.data == Value(Digits(s))
  {
    var num := 0;
    var i := 0;
    while i < |s|
      invariant 0 <= i <= |s|
      invariant num == |Digits(s[..i])|
      invariant Legal(s[..i])
    {
      DigitsStep(s, i);
      if IsDigit(s[i]) {
        num := num + 1;
      } else if !IsBlank(s[i]) {
        assert !Legal(s);
        return null;
      }
      i := i + 1;
    }
    assert s[..i] == s;
    if !(0 < num <= MaxAttributes) {
      return null;
    }
    attr := new Attributes(num);
    SetDigits(s, attr);
  }

  /** The second pass of `from_string`: digit k of the text sets attribute k
      when it is '1'. */
  method SetDigits(s: CString, attr: Attributes)
    requires Legal(s) && attr.Valid() && attr.num == |Digits(s)| && attr.data == 0
    modifies attr
    ensures attr.Valid() && attr.num == |Digits(s)| && attr.data == Value(Digits(s))
  {
    var k := 0;
    var i := 0;
    while i < |s|
      invariant 0 <= i <= |s|
      invariant k == |Digits(s[..i])|
      invariant attr.Valid() && attr.num == |Digits(s)|
      invariant attr.data == Value(Digits(s[..i]))
    {
      ParseStep(s, i);
      if s[i] == '1' {
        attr.Set(k, true);
        k := k + 1;
      } else if s[i] == '0' {
        k := k + 1;
      }
      i := i + 1;
    }
    assert s[..i] == s;
  }

  /** `oscats_attributes_compare`: the sign of `a.data - b.data`; the widths are ignored. */
  function Compare(a: Attributes, b: Attributes): (r: int)
    reads a, b
    ensures r == 0 <==> a.data == b.data
    ensures r == -1 <==> a.data < b.data
    ensures r == 1 <==> a.data > b.data
  {
    if a.data == b.data then 0 else if a.data < b.data then -1 else 1
  }
}
