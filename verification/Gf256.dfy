/** The shift-and-xor product over any additive group with a linear doubling map. Nothing here looks
    at the bits of a group element; the second operand is its list of bits. */
module DoubleAndAdd {

  datatype Space<!T> = Space(add: (T, T) -> T, zero: T, dbl: T -> T)

  ghost predicate Laws<T(!new)>(s: Space<T>) {
    && (forall x :: s.add(x, s.zero) == x)
    && (forall x, y :: s.add(x, y) == s.add(y, x))
    && (forall x, y, z :: Assoc(s, x, y, z))
    && (forall x, y :: Linear(s, x, y))
    && s.dbl(s.zero) == s.zero
  }

  ghost predicate Assoc<T>(s: Space<T>, x: T, y: T, z: T) {
    s.add(s.add(x, y), z) == s.add(x, s.add(y, z))
  }

  ghost predicate Linear<T>(s: Space<T>, x: T, y: T) {
    s.dbl(s.add(x, y)) == s.add(s.dbl(x), s.dbl(y))
  }

  function Pick<T>(s: Space<T>, bit: bool, x: T): T { if bit then x else s.zero }

  /** The sum, over the set bits i, of x doubled i times. */
  function Combine<T>(s: Space<T>, x: T, bits: seq<bool>): T {
    if bits == [] then s.zero
    else s.add(Pick(s, bits[0], x), Combine(s, s.dbl(x), bits[1..]))
  }

  lemma Interchange<T(!new)>(s: Space<T>, p: T, q: T, x: T, y: T)
    requires Laws(s)
    ensures s.add(s.add(p, q), s.add(x, y)) == s.add(s.add(p, x), s.add(q, y))
  {
    calc {
      s.add(s.add(p, q), s.add(x, y));
      { assert Assoc(s, p, q, s.add(x, y)) && Assoc(s, q, x, y); }
      s.add(p, s.add(s.add(q, x), y));
      { assert Assoc(s, x, q, y) && Assoc(s, p, x, s.add(q, y)); }
      s.add(s.add(p, x), s.add(q, y));
    }
  }

  lemma {:induction false} CombineZero<T(!new)>(s: Space<T>, bits: seq<bool>)
    requires Laws(s)
    ensures Combine(s, s.zero, bits) == s.zero
  {
    if bits != [] {
      CombineZero(s, bits[1..]);
    }
  }

  lemma {:induction false} CombineAdd<T(!new)>(s: Space<T>, x: T, y: T, bits: seq<bool>)
    requires Laws(s)
    ensures Combine(s, s.add(x, y), bits) == s.add(Combine(s, x, bits), Combine(s, y, bits))
  {
    if bits != [] {
      assert Linear(s, x, y);
      CombineAdd(s, s.dbl(x), s.dbl(y), bits[1..]);
      Interchange(s, Pick(s, bits[0], x), Pick(s, bits[0], y),
                  Combine(s, s.dbl(x), bits[1..]), Combine(s, s.dbl(y), bits[1..]));
    }
  }

  lemma {:induction false} CombineDouble<T(!new)>(s: Space<T>, x: T, bits: seq<bool>)
    requires Laws(s)
    ensures Combine(s, s.dbl(x), bits) == s.dbl(Combine(s, x, bits))
  {
    if bits != [] {
      CombineDouble(s, s.dbl(x), bits[1..]);
      assert Linear(s, Pick(s, bits[0], x), Combine(s, s.dbl(x), bits[1..]));
    }
  }

  /** Multiplying by one bit list and then by another commutes: the one fact from which both
      commutativity and associativity of the byte product follow. */
  lemma {:induction false} Exchange<T(!new)>(s: Space<T>, x: T, bits: seq<bool>, more: seq<bool>)
    requires Laws(s)
    ensures Combine(s, Combine(s, x, bits), more) == Combine(s, Combine(s, x, more), bits)
    decreases |bits|
  {
    CombineZero(s, more);
    if bits != [] {
      CombineAdd(s, Pick(s, bits[0], x), Combine(s, s.dbl(x), bits[1..]), more);
      Exchange(s, s.dbl(x), bits[1..], more);
      CombineDouble(s, x, more);
    }
  }
}

/** Powers in a commutative monoid with a zero, by repeated multiplication. */
module Powers {
  import opened PowersOfTwo

  datatype Monoid<!T> = Monoid(one: T, zero: T, mul: (T, T) -> T)

  ghost predicate Laws<T(!new)>(m: Monoid<T>) {
    && (forall x :: m.mul(m.one, x) == x)
    && (forall x :: m.mul(m.zero, x) == m.zero)
    && (forall x, y :: m.mul(x, y) == m.mul(y, x))
    && (forall x, y, z :: Assoc(m, x, y, z))
  }

  ghost predicate Assoc<T>(m: Monoid<T>, x: T, y: T, z: T) {
    m.mul(m.mul(x, y), z) == m.mul(x, m.mul(y, z))
  }

  function Pow<T>(m: Monoid<T>, a: T, n: nat): T
    decreases n, a
  {
    if n == 0 then m.one else m.mul(Pow(m, a, n - 1), a)
  }

  /** a squared k times */
  function Squares<T>(m: Monoid<T>, a: T, k: nat): T {
    if k == 0 then a else Squares(m, m.mul(a, a), k - 1)
  }

  lemma {:induction false} PowAdd<T(!new)>(m: Monoid<T>, a: T, i: nat, j: nat)
    requires Laws(m)
    ensures Pow(m, a, i + j) == m.mul(Pow(m, a, i), Pow(m, a, j))
    decreases j
  {
    if j > 0 {
      PowAdd(m, a, i, j - 1);
      assert Assoc(m, Pow(m, a, i), Pow(m, a, j - 1), a);
    }
  }

  lemma {:induction false} PowOfProduct<T(!new)>(m: Monoid<T>, a: T, n: nat)
    requires Laws(m)
    ensures Pow(m, m.mul(a, a), n) == Pow(m, a, 2 * n)
  {
    if n > 0 {
      PowOfProduct(m, a, n - 1);
      assert Assoc(m, Pow(m, a, 2 * n - 2), a, a);
      assert Pow(m, a, 2 * n - 1) == m.mul(Pow(m, a, 2 * n - 2), a);
    }
  }

  lemma {:induction false} SquaresArePowers<T(!new)>(m: Monoid<T>, a: T, k: nat)
    requires Laws(m)
    ensures Squares(m, a, k) == Pow(m, a, Exp2(k))
    decreases k
  {
    if k == 0 {
      assert Pow(m, a, 1) == m.mul(Pow(m, a, 0), a);
    } else {
      SquaresArePowers(m, m.mul(a, a), k - 1);
      PowOfProduct(m, a, Exp2(k - 1));
    }
  }

  /** If k squarings bring a back to a, and only zero and one equal their own square, then the power
      2^k - 2 of a nonzero a is its inverse: its product e with a satisfies e * e == e. */
  lemma InverseByPower<T(!new)>(m: Monoid<T>, a: T, k: nat, n: nat)
    requires Laws(m) && a != m.zero
    requires n + 2 == Exp2(k) && Squares(m, a, k) == a
    requires forall e :: m.mul(e, e) == e ==> e == m.zero || e == m.one
    ensures m.mul(a, Pow(m, a, n)) == m.one
  {
    var e := Pow(m, a, n + 1);
    SquaresArePowers(m, a, k);
    PowAdd(m, a, n + 2, n);
    PowAdd(m, a, n + 1, n + 1);
    assert m.mul(e, e) == e;
    assert e != m.zero;
  }
}

module Gf256 {
  import opened DoubleAndAdd
  import F = FieldPolynomials
  import P = Powers

  type Gf = bv8

  /** Multiplication by x modulo x^8 + x^4 + x^3 + x + 1. */
  function Xtime(a: Gf): Gf {
    (a << 1) ^ (if a & 0x80 != 0 then 0x1b else 0)
  }

  function Xor(a: Gf, b: Gf): Gf { a ^ b }
  function Double(a: Gf): Gf { Xtime(a) }
  function Bytes(): Space<Gf> { Space(Xor, 0, Double) }

  // ---------- facts about the bits of a byte ----------

  lemma ShiftXor(a: Gf, b: Gf)
    ensures (a ^ b) << 1 == (a << 1) ^ (b << 1)
    ensures ((a ^ b) & 0x80 != 0) == ((a & 0x80 != 0) != (b & 0x80 != 0))
  {}
  lemma XorCancel(x: Gf, y: Gf, r: Gf) ensures x ^ y == (x ^ r) ^ (y ^ r) {}
  lemma XorAssoc(a: Gf, b: Gf, c: Gf) ensures (a ^ b) ^ c == a ^ (b ^ c) {}
  lemma Xor3(a: Gf, b: Gf, c: Gf) ensures (a ^ b) ^ c == (a ^ c) ^ b == a ^ (b ^ c) {}

  lemma XtimeLinear(a: Gf, b: Gf)
    ensures Xtime(a ^ b) == Xtime(a) ^ Xtime(b)
  {
    ShiftXor(a, b);
    XorCancel(a << 1, b << 1, 0x1b);
    Xor3(a << 1, b << 1, 0x1b);
  }

  lemma DoubleLinear(a: Gf, b: Gf)
    ensures Linear(Bytes(), a, b)
  { XtimeLinear(a, b); }

  lemma AddAssoc(a: Gf, b: Gf, c: Gf)
    ensures Assoc(Bytes(), a, b, c)
  { XorAssoc(a, b, c); }
  lemma BytesLaws()
    ensures Laws(Bytes())
  {
    forall x, y ensures Linear(Bytes(), x, y) { DoubleLinear(x, y); }
    forall x, y, z ensures Assoc(Bytes(), x, y, z) { AddAssoc(x, y, z); }
  }

  // The k low bits of b, least significant first.
  function Bits(b: Gf, k: nat): seq<bool>
    decreases k, b
  {
    if k == 0 then [] else [b & 1 != 0] + Bits(b >> 1, k - 1)
  }

  /** The product: the XOR, over the set bits i of b, of a doubled i times. */
  function Mul(a: Gf, b: Gf): Gf { Combine(Bytes(), a, Bits(b, 8)) }

  lemma Peel(a: Gf, b: Gf, k: nat)
    requires k > 0
    ensures Combine(Bytes(), a, Bits(b, k))
         == (if b & 1 != 0 then a else 0) ^ Combine(Bytes(), Xtime(a), Bits(b >> 1, k - 1))
  {
    assert Bits(b, k)[1..] == Bits(b >> 1, k - 1);
  }

  // ---------- the ring laws ----------

  lemma MulExchange(c: Gf, a: Gf, b: Gf)
    ensures Mul(Mul(c, a), b) == Mul(Mul(c, b), a)
  {
    BytesLaws();
    Exchange(Bytes(), c, Bits(a, 8), Bits(b, 8));
  }

  lemma MulAddLeft(a: Gf, b: Gf, c: Gf)
    ensures Mul(a ^ b, c) == Mul(a, c) ^ Mul(b, c)
  {
    BytesLaws();
    CombineAdd(Bytes(), a, b, Bits(c, 8));
  }

  lemma MulZeroLeft(b: Gf)
    ensures Mul(0, b) == 0
  {
    BytesLaws();
    CombineZero(Bytes(), Bits(b, 8));
  }

  // 1 doubled i times is 1 << i, for i < 8: so the bits of c, added from there on, give c << i.
  lemma OneFrom7(c: Gf)
    ensures Combine(Bytes(), 0x80, Bits(c, 1)) == c << 7
  { Peel(0x80, c, 1); }

  lemma OneFrom6(c: Gf)
    ensures Combine(Bytes(), 0x40, Bits(c, 2)) == c << 6
  { Peel(0x40, c, 2); OneFrom7(c >> 1); }

  lemma OneFrom5(c: Gf)
    ensures Combine(Bytes(), 0x20, Bits(c, 3)) == c << 5
  { Peel(0x20, c, 3); OneFrom6(c >> 1); }

  lemma OneFrom4(c: Gf)
    ensures Combine(Bytes(), 0x10, Bits(c, 4)) == c << 4
  { Peel(0x10, c, 4); OneFrom5(c >> 1); }

  lemma OneFrom3(c: Gf)
    ensures Combine(Bytes(), 0x08, Bits(c, 5)) == c << 3
  { Peel(0x08, c, 5); OneFrom4(c >> 1); }

  lemma OneFrom2(c: Gf)
    ensures Combine(Bytes(), 0x04, Bits(c, 6)) == c << 2
  { Peel(0x04, c, 6); OneFrom3(c >> 1); }

  lemma OneFrom1(c: Gf)
    ensures Combine(Bytes(), 0x02, Bits(c, 7)) == c << 1
  { Peel(0x02, c, 7); OneFrom2(c >> 1); }

  lemma MulOneLeft(b: Gf)
    ensures Mul(1, b) == b
  { Peel(1, b, 8); OneFrom1(b >> 1); }

  lemma MulComm(a: Gf, b: Gf)
    ensures Mul(a, b) == Mul(b, a)
  {
    MulExchange(1, a, b);
    MulOneLeft(a);
    MulOneLeft(b);
  }

  lemma MulAssoc(a: Gf, b: Gf, c: Gf)
    ensures Mul(Mul(a, b), c) == Mul(a, Mul(b, c))
  {
    MulComm(a, b);
    MulExchange(b, a, c);
    MulComm(Mul(b, c), a);
  }

  lemma MulAddRight(a: Gf, b: Gf, c: Gf)
    ensures Mul(a, b ^ c) == Mul(a, b) ^ Mul(a, c)
  {
    MulComm(a, b ^ c);
    MulAddLeft(b, c, a);
    MulComm(a, b);
    MulComm(a, c);
  }

  /** The field is the one of section 4.2 of FIPS 197: x^8 is x^4 + x^3 + x + 1. */
  lemma AesPolynomial()
    ensures Mul(0x80, 0x02) == 0x1b
  {
    ProductIsCombine(0x80, 0x02, 8);
    ProductOfTop();
  }

  lemma ProductOfTop() ensures Product(0x80, 0x02, 8) == 0x1b {}

  // ---------- squaring, and the order of a nonzero byte ----------

  function Square(a: Gf): Gf { Mul(a, a) }

  /** The XOR of the columns of an 8 x 8 bit matrix that the bits of a select. */
  function Columns(a: Gf, v0: Gf, v1: Gf, v2: Gf, v3: Gf, v4: Gf, v5: Gf, v6: Gf, v7: Gf): Gf {
    ((a & 1) * v0) ^ (((a >> 1) & 1) * v1) ^ (((a >> 2) & 1) * v2) ^ (((a >> 3) & 1) * v3) ^
    (((a >> 4) & 1) * v4) ^ (((a >> 5) & 1) * v5) ^ (((a >> 6) & 1) * v6) ^ (((a >> 7) & 1) * v7)
  }

  // Squaring is linear: one, two and four squarings as bit matrices.
  function SquareMap(a: Gf): Gf { Columns(a, 0x01, 0x04, 0x10, 0x40, 0x1b, 0x6c, 0xab, 0x9a) }
  function SquareMap2(a: Gf): Gf { Columns(a, 0x01, 0x10, 0x1b, 0xab, 0x5e, 0x97, 0xb3, 0xc5) }
  function SquareMap4(a: Gf): Gf { Columns(a, 0x01, 0x5e, 0xe4, 0xe8, 0x4d, 0x91, 0x1d, 0x6c) }

  lemma Map2(a: Gf) ensures SquareMap(SquareMap(a)) == SquareMap2(a) {}
  lemma Map4(a: Gf) ensures SquareMap2(SquareMap2(a)) == SquareMap4(a) {}
  lemma Map8(a: Gf) ensures SquareMap4(SquareMap4(a)) == a {}
  lemma FixedPoints(a: Gf) requires SquareMap(a) == a ensures a == 0 || a == 1 {}

  // The eight rounds of the product, as a function of the two bytes alone.
  function Product(a: Gf, b: Gf, k: nat): Gf
    decreases k
  {
    if k == 0 then 0
    else (if b & 1 != 0 then a else 0) ^ Product(Xtime(a), b >> 1, k - 1)
  }

  lemma {:induction false} ProductIsCombine(a: Gf, b: Gf, k: nat)
    ensures Product(a, b, k) == Combine(Bytes(), a, Bits(b, k))
    decreases k
  {
    if k > 0 {
      ProductIsCombine(Xtime(a), b >> 1, k - 1);
      Peel(a, b, k);
    }
  }

  lemma ProductSquare(a: Gf) ensures Product(a, a, 8) == SquareMap(a) {}

  lemma SquareIsMap(a: Gf)
    ensures Square(a) == SquareMap(a)
  {
    ProductIsCombine(a, a, 8);
    ProductSquare(a);
  }

  lemma SquareTwice(a: Gf)
    ensures Square(Square(a)) == SquareMap2(a)
  {
    SquareIsMap(a);
    SquareIsMap(SquareMap(a));
    Map2(a);
  }

  lemma SquareFourTimes(a: Gf)
    ensures Square(Square(Square(Square(a)))) == SquareMap4(a)
  {
    SquareTwice(a);
    SquareTwice(SquareMap2(a));
    Map4(a);
  }

  lemma EightSquarings(a: Gf)
    ensures Square(Square(Square(Square(Square(Square(Square(Square(a)))))))) == a
  {
    SquareFourTimes(a);
    SquareFourTimes(SquareMap4(a));
    Map8(a);
  }

  // ---------- the field ----------

  function Multiplication(): P.Monoid<Gf> { P.Monoid(1, 0, Mul) }

  /** The power the inversion loop computes. */
  function Inverse(a: Gf): Gf { P.Pow(Multiplication(), a, 254) }

  function Field(): F.Field<Gf> { F.Field(0, 1, Xor, Mul, Inverse) }

  lemma MonoidLaws()
    ensures P.Laws(Multiplication())
  {
    forall x ensures Mul(1, x) == x { MulOneLeft(x); }
    forall x ensures Mul(0, x) == 0 { MulZeroLeft(x); }
    forall x, y ensures Mul(x, y) == Mul(y, x) { MulComm(x, y); }
    forall x, y, z ensures P.Assoc(Multiplication(), x, y, z) { MulAssoc(x, y, z); }
  }

  /** a^254 inverts every nonzero byte. */
  lemma InverseIsInverse(a: Gf)
    requires a != 0
    ensures Mul(a, Inverse(a)) == 1
  {
    MonoidLaws();
    SquaresReturn(a);
    forall e | Multiplication().mul(e, e) == e ensures e == 0 || e == 1 {
      Idempotent(e);
    }
    P.InverseByPower(Multiplication(), a, 8, 254);
  }

  lemma Idempotent(e: Gf)
    requires Mul(e, e) == e
    ensures e == 0 || e == 1
  {
    SquareIsMap(e);
    FixedPoints(e);
  }

  lemma SquaresReturn(a: Gf)
    ensures P.Squares(Multiplication(), a, 8) == a
  {
    EightSquarings(a);
  }

  /** Bytes under XOR and the shift-and-xor product are a field. */
  lemma IsField()
    ensures F.Laws(Field())
  {
    assert F.AddLaws(Field()) by {
      forall x, y, z ensures F.AddAssoc(Field(), x, y, z) { XorAssoc(x, y, z); }
    }
    assert F.MulLaws(Field()) by {
      forall x ensures Mul(x, 1) == x && Mul(x, 0) == 0 {
        MulComm(x, 1);
        MulOneLeft(x);
        MulComm(x, 0);
        MulZeroLeft(x);
      }
      forall x, y ensures Mul(x, y) == Mul(y, x) { MulComm(x, y); }
      forall x, y, z ensures F.MulAssoc(Field(), x, y, z) { MulAssoc(x, y, z); }
    }
    forall x, y, z ensures F.Distributes(Field(), x, y, z) { MulAddRight(x, y, z); }
    forall x | x != 0 ensures Mul(x, Inverse(x)) == 1 { InverseIsInverse(x); }
  }

  // ---------- the loops ----------

  lemma XorPick(p: Gf, odd: bool, a: Gf, rest: Gf)
    ensures p ^ ((if odd then a else 0) ^ rest) == (if odd then p ^ a else p) ^ rest
  {}

  /** What the loop still owes after 8 - k rounds. */
  ghost predicate Owes(product: Gf, p: Gf, a: Gf, b: Gf, k: nat) {
    product == p ^ Combine(Bytes(), a, Bits(b, k))
  }

  lemma Round(product: Gf, p: Gf, a: Gf, b: Gf, k: nat)
    requires k > 0 && Owes(product, p, a, b, k)
    ensures Owes(product, if b & 1 != 0 then p ^ a else p, Xtime(a), b >> 1, k - 1)
  {
    Peel(a, b, k);
    XorPick(p, b & 1 != 0, a, Combine(Bytes(), Xtime(a), Bits(b >> 1, k - 1)));
  }

  method GfMul(a0: Gf, b0: Gf) returns (p: Gf)
    ensures p == Mul(a0, b0)
  {
    var a, b := a0, b0;
    p := 0;
    ghost var product := Mul(a0, b0);
    for i := 0 to 8
      invariant Owes(product, p, a, b, 8 - i)
    {
      Round(product, p, a, b, 8 - i);
      ghost var doubled := Xtime(a);
      if b & 1 != 0 {
        p := p ^ a;
      }
      var hi := a & 0x80;
      a := a << 1;
      if hi != 0 {
        a := a ^ 0x1b;
      }
      assert a == doubled;
      b := b >> 1;
    }
  }

  method GfInv(a: Gf) returns (r: Gf)
    ensures r == Inverse(a)
    ensures a != 0 ==> Mul(a, r) == 1
  {
    r := 1;
    for i := 0 to 254
      invariant r == P.Pow(Multiplication(), a, i)
    {
      r := GfMul(r, a);
    }
    if a != 0 {
      InverseIsInverse(a);
    }
  }
}
