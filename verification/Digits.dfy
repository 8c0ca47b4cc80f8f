/**
 Unsigned machine words read through their binary digits. The C operators on 32-bit and 64-bit
 words that the sources use are stated as functions on numbers.
 */
module Digits {

  /** `(w >> j) & 1` */
  predicate Bit(w: nat, j: nat) {
    if j == 0 then w % 2 == 1 else Bit(w / 2, j - 1)
  }

  /** `w | 1 << j` */
  function OrBit(w: nat, j: nat): nat {
    if j == 0 then w - w % 2 + 1 else w % 2 + 2 * OrBit(w / 2, j - 1)
  }

  /** `w >> n` */
  function ShiftRight(w: nat, n: nat): nat {
    if n == 0 then w else ShiftRight(w / 2, n - 1)
  }

  /** `w << n` in a word of `width` bits: the digits that leave the word are lost. */
  function ShiftLeft(w: nat, n: nat, width: nat): nat {
    Low(Doubled(w, n), width)
  }

  function Doubled(w: nat, n: nat): nat
    decreases n
  {
    if n == 0 then w else Doubled(2 * w, n - 1)
  }

  /** The low `n` digits. */
  function Low(w: nat, n: nat): nat {
    if n == 0 then 0 else w % 2 + 2 * Low(w / 2, n - 1)
  }

  function Pow2(n: nat): (p: nat)
    ensures p > 0
  {
    if n == 0 then 1 else 2 * Pow2(n - 1)
  }

  lemma {:induction false} LowBound(w: nat, n: nat)
    ensures Low(w, n) < Pow2(n)
  {
    if n > 0 {
      LowBound(w / 2, n - 1);
    }
  }

  lemma {:induction false} LowBit(w: nat, n: nat, j: nat)
    ensures Bit(Low(w, n), j) <==> j < n && Bit(w, j)
  {
    if n == 0 {
      ZeroHasNoBits(j);
    } else if j > 0 {
      LowBit(w / 2, n - 1, j - 1);
    }
  }

  lemma {:induction false} DoubledBit(w: nat, n: nat, j: nat)
    ensures Bit(Doubled(w, n), j) <==> n <= j && Bit(w, j - n)
    decreases n
  {
    if n > 0 {
      DoubledBit(2 * w, n - 1, j);
    }
  }

  lemma ShiftLeftBit(w: nat, n: nat, width: nat, j: nat)
    requires j < width
    ensures Bit(ShiftLeft(w, n, width), j) <==> n <= j && Bit(w, j - n)
  {
    LowBit(Doubled(w, n), width, j);
    DoubledBit(w, n, j);
  }

  lemma {:induction false} ZeroHasNoBits(j: nat)
    ensures !Bit(0, j)
  {
    if j > 0 {
      ZeroHasNoBits(j - 1);
    }
  }

  lemma {:induction false} OrBitSets(w: nat, i: nat, j: nat)
    ensures Bit(OrBit(w, i), j) <==> (j == i || Bit(w, j))
  {
    if i > 0 && j > 0 {
      OrBitSets(w / 2, i - 1, j - 1);
    }
  }

  lemma {:induction false} OrBitBound(w: nat, n: nat, i: nat)
    requires w < Pow2(n) && i < n
    ensures OrBit(w, i) < Pow2(n)
  {
    if i > 0 {
      OrBitBound(w / 2, n - 1, i - 1);
    }
  }

  // ----- Masks -----

  /** Whether the digits `from` to `to - 1` of a word are set. */
  predicate AllSet(w: nat, from: nat, to: nat) {
    forall j: nat | from <= j < to :: Bit(w, j)
  }

  predicate NoneSet(w: nat, from: nat, to: nat) {
    forall j: nat | from <= j < to :: !Bit(w, j)
  }

  lemma DropDigit(w: nat, from: nat, to: nat)
    requires from < to
    ensures AllSet(w, from, to) <==>
              (from == 0 ==> w % 2 == 1) && AllSet(w / 2, if from > 0 then from - 1 else 0, to - 1)
    ensures NoneSet(w, from, to) <==>
              (from == 0 ==> w % 2 == 0) && NoneSet(w / 2, if from > 0 then from - 1 else 0, to - 1)
  {
    assert forall j: nat :: Bit(w / 2, j) == Bit(w, j + 1);
    assert forall j: nat | j > 0 :: Bit(w, j) == Bit(w / 2, j - 1);
    assert Bit(w, 0) == (w % 2 == 1);
  }

  /** A number below 2^n with only digits below `k` set has all of those set exactly when it
      is 2^k - 1. */
  lemma {:induction false} LowOnes(w: nat, n: nat, k: nat)
    requires w < Pow2(n) && k <= n && NoneSet(w, k, n)
    ensures w == Pow2(k) - 1 <==> AllSet(w, 0, k)
  {
    if n > 0 {
      if k < n {
        DropDigit(w, k, n);
      }
      if k > 0 {
        DropDigit(w, 0, k);
      }
      LowOnes(w / 2, n - 1, if k > 0 then k - 1 else 0);
    }
  }

  lemma {:induction false} ShiftedOnes(k: nat, n: nat)
    ensures ShiftRight(Pow2(k + n) - 1, n) == Pow2(k) - 1
  {
    if n > 0 {
      ShiftedOnes(k, n - 1);
      assert (Pow2(k + n) - 1) / 2 == Pow2(k + n - 1) - 1;
    }
  }

  lemma WordSizes()
    ensures Pow2(32) == 0x1_0000_0000 && Pow2(64) == 0x1_0000_0000_0000_0000
  {
    assert Pow2(8) == 0x100;
    assert Pow2(16) == 0x1_0000;
    assert Pow2(24) == 0x100_0000;
    assert Pow2(32) == 0x1_0000_0000;
    assert Pow2(40) == 0x100_0000_0000;
    assert Pow2(48) == 0x1_0000_0000_0000;
    assert Pow2(56) == 0x100_0000_0000_0000;
  }
}
