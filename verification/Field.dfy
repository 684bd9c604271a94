/** Polynomials over a field of characteristic two: Horner evaluation, synthetic division, the bound
    on the number of roots, and Lagrange interpolation. The field is a record of operations, so that
    these proofs never look at the bits of a field element. */
module FieldPolynomials {

  datatype Field<!T> = Field(zero: T, one: T, add: (T, T) -> T, mul: (T, T) -> T, inv: T -> T)

  ghost predicate Laws<T(!new)>(f: Field<T>) {
    && AddLaws(f)
    && MulLaws(f)
    && (forall x, y, z :: Distributes(f, x, y, z))
    && (forall x :: x != f.zero ==> f.mul(x, f.inv(x)) == f.one)
    && f.one != f.zero
  }

  ghost predicate AddLaws<T(!new)>(f: Field<T>) {
    && (forall x :: f.add(x, f.zero) == x)
    && (forall x :: f.add(x, x) == f.zero)
    && (forall x, y :: f.add(x, y) == f.add(y, x))
    && (forall x, y, z :: AddAssoc(f, x, y, z))
  }

  // These three are named instances, so that a proof uses them where it asks for them.
  ghost predicate AddAssoc<T>(f: Field<T>, x: T, y: T, z: T) {
    f.add(f.add(x, y), z) == f.add(x, f.add(y, z))
  }

  ghost predicate MulAssoc<T>(f: Field<T>, x: T, y: T, z: T) {
    f.mul(f.mul(x, y), z) == f.mul(x, f.mul(y, z))
  }

  ghost predicate Distributes<T>(f: Field<T>, x: T, y: T, z: T) {
    f.mul(x, f.add(y, z)) == f.add(f.mul(x, y), f.mul(x, z))
  }

  ghost predicate MulLaws<T(!new)>(f: Field<T>) {
    && (forall x :: f.mul(x, f.one) == x)
    && (forall x :: f.mul(x, f.zero) == f.zero)
    && (forall x, y :: f.mul(x, y) == f.mul(y, x))
    && (forall x, y, z :: MulAssoc(f, x, y, z))
  }

  // ---------- consequences of the laws ----------

  lemma SumZero<T(!new)>(f: Field<T>, x: T, y: T)
    requires Laws(f)
    ensures f.add(x, y) == f.zero <==> x == y
  {
    if f.add(x, y) == f.zero {
      calc {
        x;
        f.add(x, f.add(y, y));
        { assert AddAssoc(f, x, y, y); }
        f.add(f.add(x, y), y);
        f.add(f.zero, y);
        y;
      }
    }
  }

  lemma ProductZero<T(!new)>(f: Field<T>, x: T, y: T)
    requires Laws(f)
    ensures f.mul(x, y) == f.zero <==> x == f.zero || y == f.zero
  {
    if f.mul(x, y) == f.zero && x != f.zero {
      calc {
        y;
        f.mul(f.one, y);
        f.mul(f.mul(f.inv(x), x), y);
        { assert MulAssoc(f, f.inv(x), x, y); }
        f.mul(f.inv(x), f.mul(x, y));
        f.zero;
      }
    }
  }

  lemma AddInterchange<T(!new)>(f: Field<T>, p: T, q: T, x: T, y: T)
    requires Laws(f)
    ensures f.add(f.add(p, q), f.add(x, y)) == f.add(f.add(p, x), f.add(q, y))
  {
    calc {
      f.add(f.add(p, q), f.add(x, y));
      { assert AddAssoc(f, p, q, f.add(x, y)) && AddAssoc(f, q, x, y); }
      f.add(p, f.add(f.add(q, x), y));
      f.add(p, f.add(f.add(x, q), y));
      { assert AddAssoc(f, x, q, y) && AddAssoc(f, p, x, f.add(q, y)); }
      f.add(f.add(p, x), f.add(q, y));
    }
  }

  // ---------- polynomials ----------

  /** Horner's rule; `p[i]` is the coefficient of z^i. */
  function Eval<T>(f: Field<T>, p: seq<T>, z: T): T {
    if p == [] then f.zero else f.add(f.mul(Eval(f, p[1..], z), z), p[0])
  }

  function Zeros<T>(f: Field<T>, n: nat): seq<T> { seq(n, _ => f.zero) }

  function Plus<T>(f: Field<T>, p: seq<T>, q: seq<T>): seq<T>
    requires |p| == |q|
  {
    seq(|p|, i requires 0 <= i < |p| => f.add(p[i], q[i]))
  }

  function Scale<T>(f: Field<T>, c: T, p: seq<T>): seq<T> {
    seq(|p|, i requires 0 <= i < |p| => f.mul(c, p[i]))
  }

  lemma {:induction false} EvalPlus<T(!new)>(f: Field<T>, p: seq<T>, q: seq<T>, z: T)
    requires Laws(f) && |p| == |q|
    ensures Eval(f, Plus(f, p, q), z) == f.add(Eval(f, p, z), Eval(f, q, z))
  {
    if p != [] {
      var p', q' := Eval(f, p[1..], z), Eval(f, q[1..], z);
      assert Plus(f, p, q)[1..] == Plus(f, p[1..], q[1..]);
      EvalPlus(f, p[1..], q[1..], z);
      assert Distributes(f, z, p', q');
      AddInterchange(f, f.mul(p', z), f.mul(q', z), p[0], q[0]);
    }
  }

  lemma {:induction false} EvalScale<T(!new)>(f: Field<T>, c: T, p: seq<T>, z: T)
    requires Laws(f)
    ensures Eval(f, Scale(f, c, p), z) == f.mul(c, Eval(f, p, z))
  {
    if p != [] {
      var p' := Eval(f, p[1..], z);
      assert Scale(f, c, p)[1..] == Scale(f, c, p[1..]);
      EvalScale(f, c, p[1..], z);
      assert MulAssoc(f, c, p', z) && Distributes(f, c, f.mul(p', z), p[0]);
    }
  }

  lemma {:induction false} EvalTrailingZero<T(!new)>(f: Field<T>, p: seq<T>, z: T)
    requires Laws(f)
    ensures Eval(f, p + [f.zero], z) == Eval(f, p, z)
  {
    if p == [] {
      assert ([] + [f.zero])[1..] == [];
      assert f.mul(f.zero, z) == f.mul(z, f.zero);
    } else {
      assert (p + [f.zero])[1..] == p[1..] + [f.zero];
      EvalTrailingZero(f, p[1..], z);
    }
  }

  lemma EvalAtZero<T(!new)>(f: Field<T>, p: seq<T>)
    requires Laws(f) && p != []
    ensures Eval(f, p, f.zero) == p[0]
  {
    assert f.mul(Eval(f, p[1..], f.zero), f.zero) == f.zero;
    assert f.add(f.zero, p[0]) == f.add(p[0], f.zero);
  }

  // ---------- a nonzero polynomial of length n has fewer than n roots ----------

  /** The quotient of `p` by (z - r): `p(z) == (z - r) * Quotient(p, r)(z) + p(r)`. */
  function Quotient<T>(f: Field<T>, p: seq<T>, r: T): (q: seq<T>)
    ensures |q| == if p == [] then 0 else |p| - 1
  {
    if |p| <= 1 then [] else [Eval(f, p[1..], r)] + Quotient(f, p[1..], r)
  }

  lemma RemainderStep<T(!new)>(f: Field<T>, z: T, r: T, q: T, v: T, c: T)
    requires Laws(f)
    ensures f.add(f.mul(f.add(f.mul(f.add(z, r), q), v), z), c)
         == f.add(f.mul(f.add(z, r), f.add(f.mul(q, z), v)), f.add(f.mul(v, r), c))
  {
    var d := f.add(z, r);
    var dqz := f.mul(f.mul(d, q), z);
    calc {
      f.mul(f.add(f.mul(d, q), v), z);
      f.mul(z, f.add(f.mul(d, q), v));
      { assert Distributes(f, z, f.mul(d, q), v); }
      f.add(f.mul(z, f.mul(d, q)), f.mul(z, v));
      f.add(dqz, f.mul(v, z));
    }
    calc {
      f.mul(d, f.add(f.mul(q, z), v));
      { assert Distributes(f, d, f.mul(q, z), v); }
      f.add(f.mul(d, f.mul(q, z)), f.mul(d, v));
      { assert MulAssoc(f, d, q, z); }
      f.add(dqz, f.mul(v, d));
      { assert Distributes(f, v, z, r); }
      f.add(dqz, f.add(f.mul(v, z), f.mul(v, r)));
    }
    DropTwice(f, dqz, f.mul(v, z), f.mul(v, r), c);
  }

  lemma DropTwice<T(!new)>(f: Field<T>, a: T, b: T, e: T, c: T)
    requires Laws(f)
    ensures f.add(f.add(a, b), c) == f.add(f.add(a, f.add(b, e)), f.add(e, c))
  {
    calc {
      f.add(f.add(a, f.add(b, e)), f.add(e, c));
      { assert AddAssoc(f, a, b, e); }
      f.add(f.add(f.add(a, b), e), f.add(e, c));
      { assert AddAssoc(f, f.add(a, b), e, f.add(e, c)) && AddAssoc(f, e, e, c); }
      f.add(f.add(a, b), f.add(f.add(e, e), c));
      f.add(f.add(a, b), f.add(f.zero, c));
      f.add(f.add(a, b), c);
    }
  }

  lemma {:induction false} DivideByRoot<T(!new)>(f: Field<T>, p: seq<T>, r: T, z: T)
    requires Laws(f) && p != []
    ensures Eval(f, p, z)
         == f.add(f.mul(f.add(z, r), Eval(f, Quotient(f, p, r), z)), Eval(f, p, r))
  {
    if |p| == 1 {
      assert f.mul(f.zero, z) == f.mul(z, f.zero) && f.mul(f.zero, r) == f.mul(r, f.zero);
      assert f.add(f.zero, Eval(f, p, r)) == f.add(Eval(f, p, r), f.zero);
    } else {
      var rest := p[1..];
      DivideByRoot(f, rest, r, z);
      assert Quotient(f, p, r)[1..] == Quotient(f, rest, r);
      RemainderStep(f, z, r, Eval(f, Quotient(f, rest, r), z), Eval(f, rest, r), p[0]);
    }
  }

  lemma {:induction false} ZeroQuotient<T(!new)>(f: Field<T>, p: seq<T>, r: T)
    requires Laws(f) && p != []
    requires Eval(f, p, r) == f.zero && Quotient(f, p, r) == Zeros(f, |p| - 1)
    ensures p == Zeros(f, |p|)
  {
    var rest := p[1..];
    if rest != [] {
      assert Quotient(f, p, r)[0] == Eval(f, rest, r);
      assert Quotient(f, rest, r) == Quotient(f, p, r)[1..] == Zeros(f, |rest| - 1);
      ZeroQuotient(f, rest, r);
    }
    assert f.mul(f.zero, r) == f.mul(r, f.zero);
    SumZero(f, f.zero, p[0]);
    assert p == [p[0]] + rest;
  }

  ghost predicate Distinct<T(!new)>(xs: seq<T>) {
    forall i, j :: 0 <= i < j < |xs| ==> xs[i] != xs[j]
  }

  lemma {:induction false} TooManyRoots<T(!new)>(f: Field<T>, p: seq<T>, xs: seq<T>)
    requires Laws(f) && Distinct(xs) && |p| == |xs|
    requires forall i :: 0 <= i < |xs| ==> Eval(f, p, xs[i]) == f.zero
    ensures p == Zeros(f, |p|)
    decreases |p|
  {
    if p != [] {
      var r, rest := xs[0], xs[1..];
      var q := Quotient(f, p, r);
      forall i | 0 <= i < |rest| ensures Eval(f, q, rest[i]) == f.zero {
        var z := rest[i];
        assert z == xs[i + 1];
        DivideByRoot(f, p, r, z);
        SumZero(f, z, r);
        ProductZero(f, f.add(z, r), Eval(f, q, z));
      }
      TooManyRoots(f, q, rest);
      ZeroQuotient(f, p, r);
    }
  }

  /** Uniqueness: two polynomials of length n that agree at n distinct points are the same. */
  lemma AgreeingPolynomials<T(!new)>(f: Field<T>, p: seq<T>, q: seq<T>, xs: seq<T>)
    requires Laws(f) && Distinct(xs) && |p| == |q| == |xs|
    requires forall i :: 0 <= i < |xs| ==> Eval(f, p, xs[i]) == Eval(f, q, xs[i])
    ensures p == q
  {
    var d := Plus(f, p, q);
    forall i | 0 <= i < |xs| ensures Eval(f, d, xs[i]) == f.zero {
      EvalPlus(f, p, q, xs[i]);
    }
    TooManyRoots(f, d, xs);
    forall i | 0 <= i < |p| ensures p[i] == q[i] {
      assert d[i] == f.zero;
      SumZero(f, p[i], q[i]);
    }
  }

  // ---------- Lagrange interpolation ----------

  datatype Point<T> = Point(x: T, y: T)

  function Xs<T>(pts: seq<Point<T>>): seq<T> {
    seq(|pts|, i requires 0 <= i < |pts| => pts[i].x)
  }

  /** The product of (z - x_k) over k < n, leaving out k == i. */
  function Numerator<T>(f: Field<T>, pts: seq<Point<T>>, i: nat, z: T, n: nat): T
    requires n <= |pts|
  {
    if n == 0 then f.one
    else if n - 1 == i then Numerator(f, pts, i, z, n - 1)
    else f.mul(Numerator(f, pts, i, z, n - 1), f.add(z, pts[n - 1].x))
  }

  lemma NumeratorNext<T>(f: Field<T>, pts: seq<Point<T>>, i: nat, z: T, n: nat)
    requires n < |pts|
    ensures Numerator(f, pts, i, z, n + 1)
         == if n == i then Numerator(f, pts, i, z, n) else f.mul(Numerator(f, pts, i, z, n), f.add(z, pts[n].x))
  {}

  function Term<T>(f: Field<T>, pts: seq<Point<T>>, i: nat, z: T): T
    requires i < |pts|
  {
    f.mul(pts[i].y, f.mul(Numerator(f, pts, i, z, |pts|),
                          f.inv(Numerator(f, pts, i, pts[i].x, |pts|))))
  }

  /** The Lagrange form, at z: the first m terms of the sum over the points. */
  function Lagrange<T>(f: Field<T>, pts: seq<Point<T>>, z: T, m: nat): T
    requires m <= |pts|
  {
    if m == 0 then f.zero else f.add(Lagrange(f, pts, z, m - 1), Term(f, pts, m - 1, z))
  }

  lemma LagrangeNext<T>(f: Field<T>, pts: seq<Point<T>>, z: T, m: nat)
    requires m < |pts|
    ensures Lagrange(f, pts, z, m + 1) == f.add(Lagrange(f, pts, z, m), Term(f, pts, m, z))
  {}

  function TimesRoot<T>(f: Field<T>, p: seq<T>, r: T): (q: seq<T>)
    ensures |q| == |p| + 1
  {
    Plus(f, [f.zero] + p, Scale(f, r, p) + [f.zero])
  }

  lemma EvalTimesRoot<T(!new)>(f: Field<T>, p: seq<T>, r: T, z: T)
    requires Laws(f)
    ensures Eval(f, TimesRoot(f, p, r), z) == f.mul(Eval(f, p, z), f.add(z, r))
  {
    var v := Eval(f, p, z);
    EvalPlus(f, [f.zero] + p, Scale(f, r, p) + [f.zero], z);
    assert ([f.zero] + p)[1..] == p;
    EvalTrailingZero(f, Scale(f, r, p), z);
    EvalScale(f, r, p, z);
    assert Distributes(f, v, z, r);
  }

  function NumeratorPoly<T>(f: Field<T>, pts: seq<Point<T>>, i: nat, n: nat): (p: seq<T>)
    requires n <= |pts|
    ensures |p| == if i < n then n else n + 1
  {
    if n == 0 then [f.one]
    else if n - 1 == i then NumeratorPoly(f, pts, i, n - 1)
    else TimesRoot(f, NumeratorPoly(f, pts, i, n - 1), pts[n - 1].x)
  }

  lemma {:induction false} EvalNumeratorPoly<T(!new)>(f: Field<T>, pts: seq<Point<T>>, i: nat, n: nat, z: T)
    requires Laws(f) && n <= |pts|
    ensures Eval(f, NumeratorPoly(f, pts, i, n), z) == Numerator(f, pts, i, z, n)
  {
    if n == 0 {
      assert f.add(f.mul(f.zero, z), f.one) == f.one by {
        assert f.mul(f.zero, z) == f.mul(z, f.zero);
        assert f.add(f.zero, f.one) == f.add(f.one, f.zero);
      }
    } else {
      EvalNumeratorPoly(f, pts, i, n - 1, z);
      if n - 1 != i {
        EvalTimesRoot(f, NumeratorPoly(f, pts, i, n - 1), pts[n - 1].x, z);
      }
    }
  }

  function Coefficient<T>(f: Field<T>, pts: seq<Point<T>>, i: nat): T
    requires i < |pts|
  {
    f.mul(pts[i].y, f.inv(Numerator(f, pts, i, pts[i].x, |pts|)))
  }

  function LagrangePoly<T>(f: Field<T>, pts: seq<Point<T>>, m: nat): (p: seq<T>)
    requires m <= |pts|
    ensures |p| == |pts|
  {
    if m == 0 then Zeros(f, |pts|)
    else Plus(f, LagrangePoly(f, pts, m - 1),
                 Scale(f, Coefficient(f, pts, m - 1), NumeratorPoly(f, pts, m - 1, |pts|)))
  }

  lemma {:induction false} EvalZeros<T(!new)>(f: Field<T>, n: nat, z: T)
    requires Laws(f)
    ensures Eval(f, Zeros(f, n), z) == f.zero
  {
    if n > 0 {
      assert Zeros(f, n)[1..] == Zeros(f, n - 1);
      EvalZeros(f, n - 1, z);
      assert f.mul(f.zero, z) == f.mul(z, f.zero);
    }
  }

  lemma EvalTerm<T(!new)>(f: Field<T>, pts: seq<Point<T>>, i: nat, z: T)
    requires Laws(f) && i < |pts|
    ensures Eval(f, Scale(f, Coefficient(f, pts, i), NumeratorPoly(f, pts, i, |pts|)), z) == Term(f, pts, i, z)
  {
    EvalScale(f, Coefficient(f, pts, i), NumeratorPoly(f, pts, i, |pts|), z);
    EvalNumeratorPoly(f, pts, i, |pts|, z);
    assert MulAssoc(f, pts[i].y, f.inv(Numerator(f, pts, i, pts[i].x, |pts|)), Numerator(f, pts, i, z, |pts|));
  }

  lemma {:induction false} EvalLagrangePoly<T(!new)>(f: Field<T>, pts: seq<Point<T>>, m: nat, z: T)
    requires Laws(f) && m <= |pts|
    ensures Eval(f, LagrangePoly(f, pts, m), z) == Lagrange(f, pts, z, m)
  {
    if m == 0 {
      EvalZeros(f, |pts|, z);
    } else {
      var i := m - 1;
      EvalLagrangePoly(f, pts, i, z);
      EvalPlus(f, LagrangePoly(f, pts, i), Scale(f, Coefficient(f, pts, i), NumeratorPoly(f, pts, i, |pts|)), z);
      EvalTerm(f, pts, i, z);
    }
  }

  lemma {:induction false} NumeratorVanishes<T(!new)>(f: Field<T>, pts: seq<Point<T>>, i: nat, k: nat, n: nat)
    requires Laws(f) && k < n <= |pts| && k != i
    ensures Numerator(f, pts, i, pts[k].x, n) == f.zero
  {
    var z := pts[k].x;
    if n - 1 == k {
      assert f.add(z, z) == f.zero;
    } else {
      NumeratorVanishes(f, pts, i, k, n - 1);
      if n - 1 != i {
        ProductZero(f, Numerator(f, pts, i, z, n - 1), f.add(z, pts[n - 1].x));
      }
    }
  }

  lemma {:induction false} NumeratorNonzero<T(!new)>(f: Field<T>, pts: seq<Point<T>>, i: nat, n: nat)
    requires Laws(f) && i < |pts| && n <= |pts| && Distinct(Xs(pts))
    ensures Numerator(f, pts, i, pts[i].x, n) != f.zero
  {
    if n > 0 {
      NumeratorNonzero(f, pts, i, n - 1);
      if n - 1 != i {
        assert Xs(pts)[i] == pts[i].x && Xs(pts)[n - 1] == pts[n - 1].x;
        SumZero(f, pts[i].x, pts[n - 1].x);
        ProductZero(f, Numerator(f, pts, i, pts[i].x, n - 1), f.add(pts[i].x, pts[n - 1].x));
      }
    }
  }

  lemma {:induction false} LagrangeAtNode<T(!new)>(f: Field<T>, pts: seq<Point<T>>, k: nat, m: nat)
    requires Laws(f) && k < |pts| && m <= |pts| && Distinct(Xs(pts))
    ensures Lagrange(f, pts, pts[k].x, m) == if k < m then pts[k].y else f.zero
  {
    if m > 0 {
      LagrangeAtNode(f, pts, k, m - 1);
      if m - 1 == k {
        NumeratorNonzero(f, pts, k, |pts|);
        assert Term(f, pts, k, pts[k].x) == f.mul(pts[k].y, f.one);
        assert f.add(f.zero, pts[k].y) == f.add(pts[k].y, f.zero);
      } else {
        NumeratorVanishes(f, pts, m - 1, k, |pts|);
        var d := f.inv(Numerator(f, pts, m - 1, pts[m - 1].x, |pts|));
        assert f.mul(f.zero, d) == f.mul(d, f.zero);
      }
    }
  }

  /** Existence: through n points with distinct x there is a polynomial of length n. */
  lemma InterpolationExists<T(!new)>(f: Field<T>, pts: seq<Point<T>>)
    requires Laws(f) && Distinct(Xs(pts))
    ensures forall k :: 0 <= k < |pts| ==> Eval(f, LagrangePoly(f, pts, |pts|), pts[k].x) == pts[k].y
  {
    forall k | 0 <= k < |pts|
      ensures Eval(f, LagrangePoly(f, pts, |pts|), pts[k].x) == pts[k].y
    {
      EvalLagrangePoly(f, pts, |pts|, pts[k].x);
      LagrangeAtNode(f, pts, k, |pts|);
    }
  }

  /** Lagrange's formula: n points on a polynomial of length n give its value at every z. */
  lemma LagrangeRecovers<T(!new)>(f: Field<T>, p: seq<T>, pts: seq<Point<T>>, z: T)
    requires Laws(f) && Distinct(Xs(pts)) && |p| == |pts|
    requires forall k :: 0 <= k < |pts| ==> pts[k].y == Eval(f, p, pts[k].x)
    ensures Lagrange(f, pts, z, |pts|) == Eval(f, p, z)
  {
    var q := LagrangePoly(f, pts, |pts|);
    InterpolationExists(f, pts);
    forall k | 0 <= k < |pts| ensures Eval(f, p, Xs(pts)[k]) == Eval(f, q, Xs(pts)[k]) {
    }
    AgreeingPolynomials(f, p, q, Xs(pts));
    EvalLagrangePoly(f, pts, |pts|, z);
  }

  /** Lagrange's formula at zero gives the constant term. */
  lemma LagrangeAtZero<T(!new)>(f: Field<T>, p: seq<T>, pts: seq<Point<T>>)
    requires Laws(f) && Distinct(Xs(pts)) && |p| == |pts| && p != []
    requires forall k :: 0 <= k < |pts| ==> pts[k].y == Eval(f, p, pts[k].x)
    ensures Lagrange(f, pts, f.zero, |pts|) == p[0]
  {
    LagrangeRecovers(f, p, pts, f.zero);
    EvalAtZero(f, p);
  }

  /** One wrong value among n points on a polynomial of length n is noticed at zero. */
  lemma LagrangeDetects<T(!new)>(f: Field<T>, p: seq<T>, pts: seq<Point<T>>, i: nat, y: T)
    requires Laws(f) && Distinct(Xs(pts)) && f.zero !in Xs(pts) && |p| == |pts| && i < |pts|
    requires forall k :: 0 <= k < |pts| ==> pts[k].y == Eval(f, p, pts[k].x)
    requires y != pts[i].y
    ensures Lagrange(f, pts[i := Point(pts[i].x, y)], f.zero, |pts|) != p[0]
  {
    var bad := pts[i := Point(pts[i].x, y)];
    assert Xs(bad) == Xs(pts);
    var q := LagrangePoly(f, bad, |bad|);
    InterpolationExists(f, bad);
    assert Eval(f, q, bad[i].x) == y;
    LagrangeRecovers(f, q, bad, f.zero);
    EvalAtZero(f, p);
    if Eval(f, q, f.zero) == p[0] {
      var xs := Xs(pts)[i := f.zero];
      forall k | 0 <= k < |xs| ensures Eval(f, p, xs[k]) == Eval(f, q, xs[k]) {
        assert k != i ==> bad[k] == pts[k];
      }
      AgreeingPolynomials(f, p, q, xs);
    }
  }

  /** The polynomial `c` has constant term `b` and passes through the points. */
  ghost predicate Explains<T(!new)>(f: Field<T>, c: seq<T>, b: T, pts: seq<Point<T>>) {
    && |c| == |pts| + 1
    && c[0] == b
    && forall i :: 0 <= i < |pts| ==> Eval(f, c, pts[i].x) == pts[i].y
  }

  /** n points at distinct nonzero x leave the constant term free: every value extends them to a
      polynomial of length n + 1, and to only one. */
  lemma UniqueExtension<T(!new)>(f: Field<T>, pts: seq<Point<T>>, b: T)
    requires Laws(f) && Distinct(Xs(pts)) && f.zero !in Xs(pts)
    ensures exists c :: Explains(f, c, b, pts) && forall d :: Explains(f, d, b, pts) ==> d == c
  {
    var all := [Point(f.zero, b)] + pts;
    assert Xs(all) == [f.zero] + Xs(pts);
    var c := LagrangePoly(f, all, |all|);
    InterpolationExists(f, all);
    EvalAtZero(f, c);
    assert all[0].x == f.zero;
    forall i | 0 <= i < |pts| ensures Eval(f, c, pts[i].x) == pts[i].y {
      assert all[i + 1] == pts[i];
    }
    assert Explains(f, c, b, pts);
    forall d | Explains(f, d, b, pts) ensures d == c {
      EvalAtZero(f, d);
      forall i | 0 <= i < |all| ensures Eval(f, d, Xs(all)[i]) == Eval(f, c, Xs(all)[i]) {
        assert Xs(all)[i] == all[i].x;
      }
      AgreeingPolynomials(f, d, c, Xs(all));
    }
  }
}
