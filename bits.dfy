// Bit-level reading of unsigned integers, used wherever the library keeps a
// set of flags in the bits of a machine word (`data |= 1 << i`,
// `data & (1 << i)`). A word is an unbounded `nat`; bit `i` is the `i`-th
// binary digit counted from the least significant end.

module Bits {

  /** 2 to the power n. */
  function Pow2(n: nat): (r: nat)
    ensures r >= 1
    ensures n > 0 ==> r % 2 == 0
  {
    if n == 0 then 1 else 2 * Pow2(n - 1)
  }

  lemma {:induction false} Pow2Monotone(m: nat, n: nat)
    requires m <= n
    ensures Pow2(m) <= Pow2(n)
  {
    if m < n {
      Pow2Monotone(m, n - 1);
    }
  }

  /** Bit `i` of `d`: what `d & (1 << i)` tests. */
  predicate Bit(d: nat, i: nat)
  {
    if i == 0 then d % 2 == 1 else Bit(d / 2, i - 1)
  }

  /** A set bit contributes its weight, so the word is at least that weight. */
  lemma {:induction false} BitLowerBound(d: nat, i: nat)
    requires Bit(d, i)
    ensures d >= Pow2(i)
  {
    if i > 0 {
      BitLowerBound(d / 2, i - 1);
    }
  }

  /** A word below 2^n has no bit at or above position n. */
  lemma {:induction false} BitAboveWidth(d: nat, n: nat, j: nat)
    requires d < Pow2(n) && n <= j
    ensures !Bit(d, j)
  {
    if j > 0 {
      BitAboveWidth(d / 2, if n == 0 then 0 else n - 1, j - 1);
    }
  }

  /** `d | (1 << i)`. */
  function SetBit(d: nat, i: nat): nat
  {
    if Bit(d, i) then d else d + Pow2(i)
  }

  /** `d & ~(1 << i)`. */
  function ClearBit(d: nat, i: nat): nat
  {
    if Bit(d, i) then BitLowerBound(d, i); d - Pow2(i) else d
  }

  /** Adding the weight of a clear bit sets exactly that bit. */
  lemma {:induction false} AddClearBit(d: nat, i: nat, j: nat)
    requires !Bit(d, i)
    ensures Bit(d + Pow2(i), j) <==> j == i || Bit(d, j)
  {
    if i == 0 {
      assert d % 2 == 0;
      if j > 0 {
        assert (d + 1) / 2 == d / 2;
      }
    } else {
      var h := Pow2(i - 1);
      assert (d + Pow2(i)) % 2 == d % 2;
      assert (d + Pow2(i)) / 2 == d / 2 + h;
      if j > 0 {
        AddClearBit(d / 2, i - 1, j - 1);
      }
    }
  }

  /** Subtracting the weight of a set bit clears exactly that bit. */
  lemma {:induction false} SubSetBit(d: nat, i: nat, j: nat)
    requires Bit(d, i)
    ensures d >= Pow2(i)
    ensures Bit(d - Pow2(i), j) <==> j != i && Bit(d, j)
  {
    BitLowerBound(d, i);
    if i == 0 {
      assert d % 2 == 1;
      if j > 0 {
        assert (d - 1) / 2 == d / 2;
      }
    } else {
      var h := Pow2(i - 1);
      BitLowerBound(d / 2, i - 1);
      assert (d - Pow2(i)) % 2 == d % 2;
      assert (d - Pow2(i)) / 2 == d / 2 - h;
      if j > 0 {
        SubSetBit(d / 2, i - 1, j - 1);
      }
    }
  }

  /** After `SetBit(d, i)`, bit i is set and every other bit is as before. */
  lemma SetBitAt(d: nat, i: nat, j: nat)
    ensures Bit(SetBit(d, i), j) <==> j == i || Bit(d, j)
  {
    if !Bit(d, i) {
      AddClearBit(d, i, j);
    }
  }

  /** After `ClearBit(d, i)`, bit i is clear and every other bit is as before. */
  lemma ClearBitAt(d: nat, i: nat, j: nat)
    ensures Bit(ClearBit(d, i), j) <==> j != i && Bit(d, j)
  {
    if Bit(d, i) {
      SubSetBit(d, i, j);
    }
  }

  /** Setting a bit below the width keeps the word below 2^n. */
  lemma {:induction false} AddClearBitBound(d: nat, i: nat, n: nat)
    requires d < Pow2(n) && i < n && !Bit(d, i)
    ensures d + Pow2(i) < Pow2(n)
  {
    if i == 0 {
      assert d % 2 == 0 && Pow2(n) % 2 == 0;
    } else {
      assert Pow2(n) == 2 * Pow2(n - 1) && Pow2(i) == 2 * Pow2(i - 1);
      assert d / 2 < Pow2(n - 1);
      AddClearBitBound(d / 2, i - 1, n - 1);
      assert d <= 2 * (d / 2) + 1;
    }
  }

  lemma SetBitBound(d: nat, i: nat, n: nat)
    requires d < Pow2(n) && i < n
    ensures SetBit(d, i) < Pow2(n)
  {
    if !Bit(d, i) {
      AddClearBitBound(d, i, n);
    }
  }

  lemma ClearBitBound(d: nat, i: nat, n: nat)
    requires d < Pow2(n)
    ensures ClearBit(d, i) < Pow2(n)
  {
  }
}
