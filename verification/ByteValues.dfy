/** Powers of two. */
module PowersOfTwo {

  function Exp2(k: nat): (e: nat)
    ensures e > 0
  {
    if k == 0 then 1 else 2 * Exp2(k - 1)
  }

  lemma {:induction false} Exp2Add(a: nat, b: nat)
    ensures Exp2(a + b) == Exp2(a) * Exp2(b)
  {
    if a > 0 {
      Exp2Add(a - 1, b);
    }
  }

  /** Between n / 2 and n lies one power of two. */
  lemma Exp2Unique(a: nat, b: nat, n: nat)
    requires Exp2(a) < n <= 2 * Exp2(a) && Exp2(b) < n <= 2 * Exp2(b)
    ensures a == b
  {
    if a < b {
      Exp2Doubles(a, b);
    } else if b < a {
      Exp2Doubles(b, a);
    }
  }

  lemma Exp2Doubles(a: nat, b: nat)
    requires a < b
    ensures 2 * Exp2(a) <= Exp2(b)
  {
    Exp2Monotone(a + 1, b);
  }

  lemma Exp2Monotone(a: nat, b: nat)
    requires a <= b
    ensures Exp2(a) <= Exp2(b)
  {
    Exp2Add(a, b - a);
  }
}

/** The value of a byte. */
module ByteValues {
  import opened PowersOfTwo

  type U8 = n: nat | n < 256

  function Bit(odd: bool): bv8 { if odd then 1 else 0 }
  function Twice(odd: bool, n: nat): nat { if odd then 2 * n + 1 else 2 * n }

  /** The value of the k low bits of b. */
  function LowBits(b: bv8, k: nat): (n: nat)
    ensures n < Exp2(k)
    decreases k, b
  {
    if k == 0 then 0 else Twice(b & 1 != 0, LowBits(b >> 1, k - 1))
  }

  /** The byte that holds the k low bits of n. */
  function Packed(n: nat, k: nat): bv8
    decreases k, n
  {
    if k == 0 then 0 else (Packed(n / 2, k - 1) << 1) | Bit(n % 2 == 1)
  }

  function Int(b: bv8): U8 { LowBits(b, 8) }
  function Byte(n: U8): bv8 { Packed(n, 8) }

  // Bytes that fit in k bits.

  predicate FitsBits(b: bv8, k: nat)
    decreases k, b
  {
    if k == 0 then b == 0 else FitsBits(b >> 1, k - 1)
  }

  lemma {:induction false} FitsMore(b: bv8, k: nat)
    requires FitsBits(b, k)
    ensures FitsBits(b, k + 1)
    decreases k
  {
    if k > 0 {
      FitsMore(b >> 1, k - 1);
    }
  }

  lemma {:induction false} FitsUpTo(b: bv8, k: nat, m: nat)
    requires FitsBits(b, k) && k <= m
    ensures FitsBits(b, m)
    decreases m - k
  {
    if k < m {
      FitsMore(b, k);
      FitsUpTo(b, k + 1, m);
    }
  }

  function Shift7(b: bv8): bv8 { ((((((b >> 1) >> 1) >> 1) >> 1) >> 1) >> 1) >> 1 }

  lemma Seven(b: bv8)
    ensures FitsBits(b, 7) <==> Shift7(b) == 0
  {
    var b1 := b >> 1;
    var b2 := b1 >> 1;
    var b3 := b2 >> 1;
    assert FitsBits(b, 7) == FitsBits(b1, 6) == FitsBits(b2, 5) == FitsBits(b3, 4);
    var b4 := b3 >> 1;
    var b5 := b4 >> 1;
    var b6 := b5 >> 1;
    assert FitsBits(b3, 4) == FitsBits(b4, 3) == FitsBits(b5, 2) == FitsBits(b6, 1);
    assert FitsBits(b6, 1) == FitsBits(b6 >> 1, 0);
  }

  lemma TopBitClear(b: bv8)
    requires Shift7(b) == 0
    ensures b & 0x80 == 0
  {}

  lemma ShiftBack(b: bv8, odd: bool)
    requires b & 0x80 == 0
    ensures ((b << 1) | Bit(odd)) >> 1 == b
  {}

  lemma LowBitSet(b: bv8, odd: bool)
    ensures ((b << 1) | Bit(odd)) & 1 != 0 <==> odd
  {}

  lemma AllFitEight(b: bv8)
    ensures FitsBits(b, 8)
  {
    Seven(b >> 1);
    OneLeft(b);
  }

  lemma OneLeft(b: bv8)
    ensures Shift7(b >> 1) == 0
  {}

  lemma FitsSeven(b: bv8, k: nat)
    requires FitsBits(b, k) && k <= 7
    ensures b & 0x80 == 0
  {
    FitsUpTo(b, k, 7);
    Seven(b);
    TopBitClear(b);
  }

  lemma {:induction false} PackedFits(n: nat, k: nat)
    requires k <= 8
    ensures FitsBits(Packed(n, k), k)
    decreases k
  {
    if k > 0 {
      PackedFits(n / 2, k - 1);
      FitsSeven(Packed(n / 2, k - 1), k - 1);
      ShiftBack(Packed(n / 2, k - 1), n % 2 == 1);
    }
  }

  lemma {:induction false} LowBitsPacked(n: nat, k: nat)
    requires k <= 8 && n < Exp2(k)
    ensures LowBits(Packed(n, k), k) == n
    decreases k
  {
    if k > 0 {
      var half := Packed(n / 2, k - 1);
      LowBitsPacked(n / 2, k - 1);
      PackedFits(n / 2, k - 1);
      FitsSeven(half, k - 1);
      ShiftBack(half, n % 2 == 1);
      LowBitSet(half, n % 2 == 1);
    }
  }

  lemma ByteInt(n: U8)
    ensures Int(Byte(n)) == n
  {
    LowBitsPacked(n, 8);
  }

  lemma {:induction false} NoLowBits(b: bv8, k: nat)
    requires FitsBits(b, k) && LowBits(b, k) == 0
    ensures b == 0
    decreases k
  {
    if k > 0 {
      NoLowBits(b >> 1, k - 1);
      ShiftedOut(b);
    }
  }

  lemma ShiftedOut(b: bv8)
    requires b >> 1 == 0 && b & 1 == 0
    ensures b == 0
  {}

  lemma {:induction false} LowBitsOfZero(k: nat)
    ensures LowBits(0, k) == 0
  {
    if k > 0 {
      LowBitsOfZero(k - 1);
    }
  }

  lemma IntZero(b: bv8)
    ensures Int(b) == 0 <==> b == 0
  {
    AllFitEight(b);
    LowBitsOfZero(8);
    if Int(b) == 0 {
      NoLowBits(b, 8);
    }
  }

  lemma ByteInjective(m: U8, n: U8)
    ensures Byte(m) == Byte(n) <==> m == n
  {
    ByteInt(m);
    ByteInt(n);
  }
}
