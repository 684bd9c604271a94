/** Threshold sharing of a byte string (packages/crypto-wasm/src/shamir.rs). A share is
    [threshold, x, payload...]; byte j of the tagged secret is the constant term of its own random
    polynomial, and byte j of the payload is that polynomial at x. SHA-256 appears as the function
    `tagOf`, the first four bytes of the digest, and the random bytes as the argument `rnd`. */
module Shamir {
  import opened ByteValues
  import opened Gf256
  import opened Hiding
  import opened Results
  import F = FieldPolynomials

  const TAG_LEN: nat := 4
  type Tag = t: seq<Gf> | |t| == TAG_LEN witness [0, 0, 0, 0]
  type Share = seq<Gf>

  datatype SplitError = ThresholdTooSmall | TotalBelowThreshold
  datatype JoinError = NoShares | Malformed | TooFewShares | InconsistentLength | TooShort | TagMismatch

  // ---------- evaluation and interpolation ----------

  method EvalAt(coeffs: seq<Gf>, x: Gf) returns (acc: Gf)
    ensures acc == F.Eval(Field(), coeffs, x)
  {
    acc := 0;
    for i := |coeffs| downto 0
      invariant acc == F.Eval(Field(), coeffs[i..], x)
    {
      var m := GfMul(acc, x);
      acc := m ^ coeffs[i];
      assert coeffs[i..][1..] == coeffs[i + 1..] && coeffs[i..][0] == coeffs[i];
    }
    assert coeffs[0..] == coeffs;
  }

  lemma ZeroXor(x: Gf)
    ensures Field().add(0, x) == x
  {}

  lemma TermIs(points: seq<F.Point<Gf>>, i: nat, num: Gf, den: Gf)
    requires i < |points|
    requires num == F.Numerator(Field(), points, i, 0, |points|)
    requires den == F.Numerator(Field(), points, i, points[i].x, |points|)
    ensures F.Term(Field(), points, i, 0) == Mul(points[i].y, Mul(num, Inverse(den)))
  {}

  method InterpolateAtZero(points: seq<F.Point<Gf>>) returns (secret: Gf)
    ensures secret == F.Lagrange(Field(), points, 0, |points|)
  {
    secret := 0;
    for i := 0 to |points|
      invariant secret == F.Lagrange(Field(), points, 0, i)
    {
      var term := TermAt(points, i);
      F.LagrangeNext(Field(), points, 0, i);
      secret := secret ^ term;
    }
  }

  // The body of the outer loop.
  method TermAt(points: seq<F.Point<Gf>>, i: nat) returns (term: Gf)
    requires i < |points|
    ensures term == F.Term(Field(), points, i, 0)
  {
    var num, den := BasisAtZero(points, i);
    TermIs(points, i, num, den);
    var inv := GfInv(den);
    var weight := GfMul(num, inv);
    term := GfMul(points[i].y, weight);
  }

  // The inner loop over j.
  method BasisAtZero(points: seq<F.Point<Gf>>, i: nat) returns (num: Gf, den: Gf)
    requires i < |points|
    ensures num == F.Numerator(Field(), points, i, 0, |points|)
    ensures den == F.Numerator(Field(), points, i, points[i].x, |points|)
  {
    num, den := 1, 1;
    for j := 0 to |points|
      invariant num == F.Numerator(Field(), points, i, 0, j)
      invariant den == F.Numerator(Field(), points, i, points[i].x, j)
    {
      F.NumeratorNext(Field(), points, i, 0, j);
      F.NumeratorNext(Field(), points, i, points[i].x, j);
      if i != j {
        ZeroXor(points[j].x);
        num := GfMul(num, points[j].x);
        den := GfMul(den, points[i].x ^ points[j].x);
      }
    }
  }

  // ---------- splitting ----------

  function Tagged(secret: seq<Gf>, tagOf: seq<Gf> -> Tag): seq<Gf> { secret + tagOf(secret) }

  /** The random bytes drawn: `threshold - 1` for each byte of the tagged secret. */
  ghost predicate Draws(rnd: seq<seq<Gf>>, n: nat, threshold: nat) {
    |rnd| == n && forall j :: 0 <= j < n ==> |rnd[j]| + 1 == threshold
  }

  function Polynomials(bytes: seq<Gf>, rnd: seq<seq<Gf>>): seq<seq<Gf>>
    requires |rnd| == |bytes|
  {
    seq(|bytes|, j requires 0 <= j < |bytes| => [bytes[j]] + rnd[j])
  }

  function ShareFrom(f: F.Field<Gf>, t: Gf, x: Gf, polys: seq<seq<Gf>>): Share {
    [t, x] + seq(|polys|, j requires 0 <= j < |polys| => F.Eval(f, polys[j], x))
  }

  function ShareAt(f: F.Field<Gf>, threshold: U8, x: U8, polys: seq<seq<Gf>>): Share {
    ShareFrom(f, Byte(threshold), Byte(x), polys)
  }

  function Shares(f: F.Field<Gf>, threshold: U8, total: U8, polys: seq<seq<Gf>>): seq<Share> {
    seq(total, i requires 0 <= i < total => ShareAt(f, threshold, i + 1, polys))
  }

  method SplitCore(secret: seq<Gf>, threshold: U8, total: U8, rnd: seq<seq<Gf>>, tagOf: seq<Gf> -> Tag)
    returns (r: Result<seq<Share>, SplitError>)
    requires threshold >= 1 ==> Draws(rnd, |secret| + TAG_LEN, threshold)
    ensures r.Failure? <==> threshold < 1 || total < threshold
    ensures r.Failure? ==> r.error == if threshold < 1 then ThresholdTooSmall else TotalBelowThreshold
    ensures r.Success? ==> r.value == Shares(Field(), threshold, total, Polynomials(Tagged(secret, tagOf), rnd))
  {
    if threshold < 1 {
      return Failure(ThresholdTooSmall);
    }
    if total < threshold {
      return Failure(TotalBelowThreshold);
    }
    var augmented := secret + tagOf(secret);
    var xs := seq(total, i requires 0 <= i < total => Byte(i + 1));
    var shares := EvaluateAll(Byte(threshold), xs, augmented, rnd);
    r := Success(shares);
  }

  /** Share i of a split, by position: the threshold, i + 1, and for each byte of the secret and its tag the value
      at i + 1 of the polynomial with that byte and its random bytes as coefficients. */
  lemma ShareOnBytes(f: F.Field<Gf>, secret: seq<Gf>, threshold: U8, total: U8, rnd: seq<seq<Gf>>,
                     tagOf: seq<Gf> -> Tag, i: nat, j: nat)
    requires i < total && Draws(rnd, |secret| + TAG_LEN, threshold) && j < |secret| + TAG_LEN
    ensures var share := Shares(f, threshold, total, Polynomials(Tagged(secret, tagOf), rnd))[i];
      && |share| == |secret| + 6 && Int(share[0]) == threshold && Int(share[1]) == i + 1
      && share[j + 2] == F.Eval(f, [(secret + tagOf(secret))[j]] + rnd[j], share[1])
  {
    ByteInt(threshold);
    ByteInt(i + 1);
    ShareBytes(f, threshold, total, secret + tagOf(secret), rnd, i, j);
  }

  lemma ShareBytes(f: F.Field<Gf>, threshold: U8, total: U8, augmented: seq<Gf>, rnd: seq<seq<Gf>>, i: nat, j: nat)
    requires i < total && |rnd| == |augmented| && j < |augmented|
    ensures var share := Shares(f, threshold, total, Polynomials(augmented, rnd))[i];
      && |share| == |augmented| + 2 && share[0] == Byte(threshold) && share[1] == Byte(i + 1)
      && share[j + 2] == F.Eval(f, [augmented[j]] + rnd[j], Byte(i + 1))
  {}

  // The two loops: each byte's polynomial at every x.
  method EvaluateAll(t: Gf, xs: seq<Gf>, augmented: seq<Gf>, rnd: seq<seq<Gf>>) returns (shares: seq<Share>)
    requires |rnd| == |augmented|
    ensures |shares| == |xs|
    ensures forall i :: 0 <= i < |xs| ==> shares[i] == ShareFrom(Field(), t, xs[i], Polynomials(augmented, rnd))
  {
    shares := seq(|xs|, i requires 0 <= i < |xs| => [t, xs[i]]);
    ghost var polys := Polynomials(augmented, rnd);
    for j := 0 to |augmented|
      invariant |shares| == |xs|
      invariant forall i :: 0 <= i < |xs| ==> shares[i] == ShareFrom(Field(), t, xs[i], polys[..j])
    {
      var coeffs := [augmented[j]] + rnd[j];
      for i := 0 to |xs|
        invariant |shares| == |xs|
        invariant forall k :: 0 <= k < i ==> shares[k] == ShareFrom(Field(), t, xs[k], polys[..j + 1])
        invariant forall k :: i <= k < |xs| ==> shares[k] == ShareFrom(Field(), t, xs[k], polys[..j])
      {
        var v := EvalAt(coeffs, xs[i]);
        ShareGrows(Field(), t, xs[i], polys, j);
        shares := shares[i := shares[i] + [v]];
      }
    }
    assert polys[..|augmented|] == polys;
  }

  lemma ShareGrows(f: F.Field<Gf>, t: Gf, x: Gf, polys: seq<seq<Gf>>, j: nat)
    requires j < |polys|
    ensures ShareFrom(f, t, x, polys[..j + 1]) == ShareFrom(f, t, x, polys[..j]) + [F.Eval(f, polys[j], x)]
  {}

  // ---------- reconstruction ----------

  function PointsAt(used: seq<Share>, j: nat): seq<F.Point<Gf>>
    requires forall s :: s in used ==> j + 2 < |s|
  {
    seq(|used|, i requires 0 <= i < |used| => F.Point(used[i][1], used[i][2 + j]))
  }

  /** The first n payload bytes, interpolated at zero. */
  function Joined(f: F.Field<Gf>, used: seq<Share>, n: nat): (bytes: seq<Gf>)
    requires forall s :: s in used ==> |s| >= n + 2
    ensures |bytes| == n
  {
    if n == 0 then []
    else Joined(f, used, n - 1) + [F.Lagrange(f, PointsAt(used, n - 1), f.zero, |used|)]
  }

  predicate WellFormed(shares: seq<Share>)
    requires shares != [] && shares[0] != []
  {
    forall s :: s in shares ==> |s| >= 2 && s[0] == shares[0][0]
  }

  /** The inputs on which the Rust code indexes out of bounds. */
  predicate OutOfBounds(shares: seq<Share>) {
    shares != [] && (shares[0] == [] || (shares[0][0] == 0 && WellFormed(shares)))
  }

  /** The checks made before interpolating: the shares to use, or why there are none. */
  function Usable(shares: seq<Share>): Result<seq<Share>, JoinError>
    requires !OutOfBounds(shares)
  {
    if shares == [] then Failure(NoShares)
    else if !WellFormed(shares) then Failure(Malformed)
    else if |shares| < Int(shares[0][0]) then Failure(TooFewShares)
    else
      var used := shares[..Int(shares[0][0])];
      if exists s :: s in used && |s| != |used[0]| then Failure(InconsistentLength) else Success(used)
  }

  predicate SameLengths(used: seq<Share>) {
    used != [] && |used[0]| >= 2 && forall s :: s in used ==> |s| == |used[0]|
  }

  lemma UsableLengths(shares: seq<Share>)
    requires !OutOfBounds(shares) && Usable(shares).Success?
    ensures SameLengths(Usable(shares).value)
  {
    IntZero(shares[0][0]);
    assert shares[..Int(shares[0][0])][0] in shares;
  }

  function Untag(augmented: seq<Gf>, tagOf: seq<Gf> -> Tag): Result<seq<Gf>, JoinError> {
    if |augmented| < TAG_LEN then Failure(TooShort) else
    var secret := augmented[..|augmented| - TAG_LEN];
    if tagOf(secret) != augmented[|augmented| - TAG_LEN..] then Failure(TagMismatch) else Success(secret)
  }

  function JoinUsed(f: F.Field<Gf>, used: seq<Share>, tagOf: seq<Gf> -> Tag): Result<seq<Gf>, JoinError>
    requires SameLengths(used)
  {
    Untag(Joined(f, used, |used[0]| - 2), tagOf)
  }

  function Reconstruct(f: F.Field<Gf>, shares: seq<Share>, tagOf: seq<Gf> -> Tag): Result<seq<Gf>, JoinError>
    requires !OutOfBounds(shares)
  {
    match Usable(shares)
    case Failure(e) => Failure(e)
    case Success(used) =>
      UsableLengths(shares);
      JoinUsed(f, used, tagOf)
  }

  /** f is the byte field; hidden, so that its operations are seen only where a proof asks for them. */
  ghost predicate IsByteField(f: F.Field<Gf>) { forall k: nat :: Look(k) ==> f == Field() }

  // The loop over the payload bytes.
  method JoinPayload(used: seq<Share>, payloadLen: nat, ghost f: F.Field<Gf>) returns (augmented: seq<Gf>)
    requires IsByteField(f) && forall s :: s in used ==> |s| == payloadLen + 2
    ensures augmented == Joined(f, used, payloadLen)
  {
    augmented := [];
    for j := 0 to payloadLen
      invariant augmented == Joined(f, used, j)
    {
      var byte := JoinByte(PointsAt(used, j), f);
      augmented := augmented + [byte];
    }
  }

  method JoinByte(points: seq<F.Point<Gf>>, ghost f: F.Field<Gf>) returns (byte: Gf)
    requires IsByteField(f)
    ensures byte == F.Lagrange(f, points, f.zero, |points|)
  {
    byte := InterpolateAtZero(points);
    assert Look(0);
  }

  method ReconstructCore(shares: seq<Share>, tagOf: seq<Gf> -> Tag) returns (r: Result<seq<Gf>, JoinError>)
    requires !OutOfBounds(shares)
    ensures r == Reconstruct(Field(), shares, tagOf)
  {
    r := ReconstructOver(shares, tagOf, Field());
  }

  method ReconstructOver(shares: seq<Share>, tagOf: seq<Gf> -> Tag, ghost f: F.Field<Gf>)
    returns (r: Result<seq<Gf>, JoinError>)
    requires !OutOfBounds(shares) && IsByteField(f)
    ensures r == Reconstruct(f, shares, tagOf)
  {
    var checked := CheckShares(shares);
    if checked.Failure? {
      return Failure(checked.error);
    }
    UsableLengths(shares);
    r := JoinChecked(checked.value, tagOf, f);
  }

  // Interpolation and the tag.
  method JoinChecked(used: seq<Share>, tagOf: seq<Gf> -> Tag, ghost f: F.Field<Gf>) returns (r: Result<seq<Gf>, JoinError>)
    requires SameLengths(used) && IsByteField(f)
    ensures r == JoinUsed(f, used, tagOf)
  {
    var augmented := JoinPayload(used, |used[0]| - 2, f);
    r := CheckTag(augmented, tagOf);
    JoinUsedIs(f, used, tagOf, augmented, r);
  }

  lemma JoinUsedIs(f: F.Field<Gf>, used: seq<Share>, tagOf: seq<Gf> -> Tag, bytes: seq<Gf>, r: Result<seq<Gf>, JoinError>)
    requires SameLengths(used) && bytes == Joined(f, used, |used[0]| - 2) && r == Untag(bytes, tagOf)
    ensures r == JoinUsed(f, used, tagOf)
  {}

  // The checks, in order.
  method CheckShares(shares: seq<Share>) returns (r: Result<seq<Share>, JoinError>)
    requires !OutOfBounds(shares)
    ensures r == Usable(shares)
  {
    if shares == [] {
      return Failure(NoShares);
    }
    if exists s :: s in shares && (|s| < 2 || s[0] != shares[0][0]) {
      return Failure(Malformed);
    }
    var threshold := Int(shares[0][0]);
    if |shares| < threshold {
      return Failure(TooFewShares);
    }
    var used := shares[..threshold];
    if exists s :: s in used && |s| != |used[0]| {
      return Failure(InconsistentLength);
    }
    r := Success(used);
  }

  method CheckTag(augmented: seq<Gf>, tagOf: seq<Gf> -> Tag) returns (r: Result<seq<Gf>, JoinError>)
    ensures r == Untag(augmented, tagOf)
  {
    if |augmented| < TAG_LEN {
      return Failure(TooShort);
    }
    var splitAt := |augmented| - TAG_LEN;
    var secret := augmented[..splitAt];
    if tagOf(secret) != augmented[splitAt..] {
      return Failure(TagMismatch);
    }
    r := Success(secret);
  }

  // ---------- the round trip ----------

  /** A list of shares, in any order, none taken twice. */
  ghost predicate Selection(picks: seq<nat>, total: nat) {
    && (forall i :: 0 <= i < |picks| ==> picks[i] < total)
    && (forall i, j :: 0 <= i < j < |picks| ==> picks[i] != picks[j])
  }

  function Select(shares: seq<Share>, picks: seq<nat>): seq<Share>
    requires forall i :: 0 <= i < |picks| ==> picks[i] < |shares|
  {
    seq(|picks|, i requires 0 <= i < |picks| => shares[picks[i]])
  }

  /** Any `threshold` distinct shares of a byte interpolate to that byte. */
  lemma ByteRecovers(f: F.Field<Gf>, poly: seq<Gf>, xs: seq<Gf>, points: seq<F.Point<Gf>>)
    requires F.Laws(f) && poly != [] && |xs| == |points| == |poly| && F.Distinct(xs)
    requires forall i :: 0 <= i < |xs| ==> points[i] == F.Point(xs[i], F.Eval(f, poly, xs[i]))
    ensures F.Lagrange(f, points, f.zero, |points|) == poly[0]
  {
    assert F.Xs(points) == xs;
    F.LagrangeAtZero(f, poly, points);
  }

  lemma PointsOfShares(f: F.Field<Gf>, t: Gf, xs: seq<Gf>, polys: seq<seq<Gf>>, used: seq<Share>, j: nat)
    requires |xs| == |used| && j < |polys|
    requires forall i :: 0 <= i < |xs| ==> used[i] == ShareFrom(f, t, xs[i], polys)
    ensures forall s :: s in used ==> j + 2 < |s|
    ensures forall i :: 0 <= i < |xs| ==> PointsAt(used, j)[i] == F.Point(xs[i], F.Eval(f, polys[j], xs[i]))
  {}

  lemma ByteOfShares(f: F.Field<Gf>, t: Gf, xs: seq<Gf>, bytes: seq<Gf>, rnd: seq<seq<Gf>>, used: seq<Share>, j: nat)
    requires F.Laws(f) && xs != [] && Draws(rnd, |bytes|, |xs|) && j < |bytes|
    requires |xs| == |used| && F.Distinct(xs)
    requires forall i :: 0 <= i < |xs| ==> used[i] == ShareFrom(f, t, xs[i], Polynomials(bytes, rnd))
    ensures (forall s :: s in used ==> |s| == |bytes| + 2) && ByteOf(f, used, j) == bytes[j]
  {
    PointsOfShares(f, t, xs, Polynomials(bytes, rnd), used, j);
    ByteRecovers(f, Polynomials(bytes, rnd)[j], xs, PointsAt(used, j));
  }

  lemma {:induction false} JoinRecovers(f: F.Field<Gf>, t: Gf, xs: seq<Gf>, bytes: seq<Gf>, rnd: seq<seq<Gf>>, used: seq<Share>, n: nat)
    requires F.Laws(f) && xs != [] && Draws(rnd, |bytes|, |xs|) && n <= |bytes|
    requires |xs| == |used| && F.Distinct(xs)
    requires forall i :: 0 <= i < |xs| ==> used[i] == ShareFrom(f, t, xs[i], Polynomials(bytes, rnd))
    requires forall s :: s in used ==> |s| == |bytes| + 2
    ensures Joined(f, used, n) == bytes[..n]
    decreases n
  {
    if n > 0 {
      var j := n - 1;
      JoinRecovers(f, t, xs, bytes, rnd, used, j);
      ByteOfShares(f, t, xs, bytes, rnd, used, j);
      assert bytes[..n] == bytes[..j] + [bytes[j]];
    }
  }

  /** Shares cut from one split pass every check but the tag. */
  lemma SelectionJoins(f: F.Field<Gf>, t: Gf, xs: seq<Gf>, polys: seq<seq<Gf>>, shares: seq<Share>)
    requires Int(t) >= 1 && |xs| == |shares| >= 1
    requires forall i :: 0 <= i < |xs| ==> shares[i] == ShareFrom(f, t, xs[i], polys)
    ensures !OutOfBounds(shares)
    ensures Usable(shares) == if |shares| < Int(t) then Failure(TooFewShares) else Success(shares[..Int(t)])
    ensures forall s :: s in shares ==> |s| == |polys| + 2
  {
    IntZero(t);
    assert shares[0] == ShareFrom(f, t, xs[0], polys);
    assert shares[0][0] == t && WellFormed(shares);
  }

  lemma RoundTrip(f: F.Field<Gf>, secret: seq<Gf>, t: Gf, rnd: seq<seq<Gf>>, tagOf: seq<Gf> -> Tag, xs: seq<Gf>, shares: seq<Share>)
    requires F.Laws(f) && Int(t) >= 1 && Draws(rnd, |secret| + TAG_LEN, Int(t))
    requires |xs| == |shares| >= Int(t) && F.Distinct(xs)
    requires forall i :: 0 <= i < |xs| ==> shares[i] == ShareFrom(f, t, xs[i], Polynomials(Tagged(secret, tagOf), rnd))
    ensures !OutOfBounds(shares) && Reconstruct(f, shares, tagOf) == Success(secret)
  {
    var bytes, used := Tagged(secret, tagOf), shares[..Int(t)];
    SelectionJoins(f, t, xs, Polynomials(bytes, rnd), shares);
    UsedJoins(f, t, xs[..Int(t)], bytes, rnd, used);
    UntagTagged(secret, tagOf);
    ReconstructIs(f, shares, tagOf, used, bytes);
  }

  lemma UsedJoins(f: F.Field<Gf>, t: Gf, xs: seq<Gf>, bytes: seq<Gf>, rnd: seq<seq<Gf>>, used: seq<Share>)
    requires F.Laws(f) && xs != [] && Draws(rnd, |bytes|, |xs|) && |xs| == |used| && F.Distinct(xs)
    requires forall i :: 0 <= i < |xs| ==> used[i] == ShareFrom(f, t, xs[i], Polynomials(bytes, rnd))
    ensures SameLengths(used) && |used[0]| == |bytes| + 2 && Joined(f, used, |bytes|) == bytes
  {
    assert forall s :: s in used ==> |s| == |bytes| + 2;
    JoinRecovers(f, t, xs, bytes, rnd, used, |bytes|);
    assert bytes[..|bytes|] == bytes;
  }

  lemma ReconstructIs(f: F.Field<Gf>, shares: seq<Share>, tagOf: seq<Gf> -> Tag, used: seq<Share>, bytes: seq<Gf>)
    requires !OutOfBounds(shares) && Usable(shares) == Success(used)
    requires SameLengths(used) && |used[0]| == |bytes| + 2 && Joined(f, used, |bytes|) == bytes
    ensures Reconstruct(f, shares, tagOf) == Untag(bytes, tagOf)
  {
    JoinUsedIs(f, used, tagOf, bytes, Untag(bytes, tagOf));
  }

  /** For every secret, every 1 <= threshold <= total <= 255 and every draw of random bytes, any list
      of at least `threshold` distinct shares, in any order, reconstructs exactly the secret. */
  lemma AnyThresholdShares(secret: seq<Gf>, threshold: U8, total: U8, rnd: seq<seq<Gf>>, tagOf: seq<Gf> -> Tag,
                           picks: seq<nat>)
    requires 1 <= threshold <= total && Draws(rnd, |secret| + TAG_LEN, threshold)
    requires Selection(picks, total) && |picks| >= threshold
    ensures var shares := Select(Shares(Field(), threshold, total, Polynomials(Tagged(secret, tagOf), rnd)), picks);
            !OutOfBounds(shares) && Reconstruct(Field(), shares, tagOf) == Success(secret)
  {
    IsField();
    SelectedRoundTrip(Field(), secret, threshold, total, rnd, tagOf, picks);
  }

  /** The x of the shares picked: distinct, since a share's number is its x. */
  function XsOf(picks: seq<nat>, total: U8): (xs: seq<Gf>)
    requires forall i :: 0 <= i < |picks| ==> picks[i] < total
    ensures |xs| == |picks|
  {
    seq(|picks|, i requires 0 <= i < |picks| => Byte(picks[i] + 1))
  }

  lemma XsDistinct(picks: seq<nat>, total: U8)
    requires Selection(picks, total)
    ensures F.Distinct(XsOf(picks, total))
  {
    var xs := XsOf(picks, total);
    forall i, j | 0 <= i < j < |xs| ensures xs[i] != xs[j] {
      ByteInjective(picks[i] + 1, picks[j] + 1);
    }
  }

  lemma SelectedRoundTrip(f: F.Field<Gf>, secret: seq<Gf>, threshold: U8, total: U8, rnd: seq<seq<Gf>>,
                          tagOf: seq<Gf> -> Tag, picks: seq<nat>)
    requires F.Laws(f) && 1 <= threshold <= total && Draws(rnd, |secret| + TAG_LEN, threshold)
    requires Selection(picks, total) && |picks| >= threshold
    ensures var shares := Select(Shares(f, threshold, total, Polynomials(Tagged(secret, tagOf), rnd)), picks);
            !OutOfBounds(shares) && Reconstruct(f, shares, tagOf) == Success(secret)
  {
    ByteInt(threshold);
    XsDistinct(picks, total);
    RoundTrip(f, secret, Byte(threshold), rnd, tagOf, XsOf(picks, total),
              Select(Shares(f, threshold, total, Polynomials(Tagged(secret, tagOf), rnd)), picks));
  }

  lemma UntagTagged(secret: seq<Gf>, tagOf: seq<Gf> -> Tag)
    ensures Untag(Tagged(secret, tagOf), tagOf) == Success(secret)
  {
    var bytes := Tagged(secret, tagOf);
    assert bytes[..|bytes| - TAG_LEN] == secret && bytes[|bytes| - TAG_LEN..] == tagOf(secret);
  }

  lemma TooFewSharesFail(threshold: U8, total: U8, polys: seq<seq<Gf>>, tagOf: seq<Gf> -> Tag, picks: seq<nat>)
    requires 1 <= threshold <= total && Selection(picks, total) && 0 < |picks| < threshold
    ensures var shares := Select(Shares(Field(), threshold, total, polys), picks);
            !OutOfBounds(shares) && Reconstruct(Field(), shares, tagOf) == Failure(TooFewShares)
  {
    ByteInt(threshold);
    SelectionJoins(Field(), Byte(threshold), XsOf(picks, total), polys, Select(Shares(Field(), threshold, total, polys), picks));
  }

  // ---------- every answer, by the bytes of the shares ----------

  /** All shares are long enough and carry the first one's threshold byte. */
  predicate AllMarked(shares: seq<Share>) {
    shares != [] && forall i :: 0 <= i < |shares| ==> |shares[i]| >= 2 && |shares[0]| >= 1 && shares[i][0] == shares[0][0]
  }

  predicate Enough(shares: seq<Share>) { AllMarked(shares) && |shares| >= Int(shares[0][0]) >= 1 }

  predicate Alike(shares: seq<Share>) {
    Enough(shares) && forall i :: 0 <= i < Int(shares[0][0]) ==> |shares[i]| == |shares[0]|
  }

  /** The payload's byte j is the interpolation at zero of the shares' bytes j + 2 over their bytes 1. */
  ghost predicate Interpolates(f: F.Field<Gf>, used: seq<Share>, payload: seq<Gf>)
    requires forall s :: s in used ==> |s| == |payload| + 2
  {
    forall j :: 0 <= j < |payload| ==> payload[j] == ByteOf(f, used, j)
  }

  function ByteOf(f: F.Field<Gf>, used: seq<Share>, j: nat): Gf
    requires forall s :: s in used ==> j + 2 < |s|
  {
    F.Lagrange(f, PointsAt(used, j), f.zero, |used|)
  }

  lemma {:induction false} JoinedAt(f: F.Field<Gf>, used: seq<Share>, n: nat, j: nat)
    requires (forall s :: s in used ==> |s| >= n + 2) && j < n
    ensures Joined(f, used, n)[j] == ByteOf(f, used, j)
  {
    if j < n - 1 {
      JoinedAt(f, used, n - 1, j);
    }
  }

  lemma JoinedIs(f: F.Field<Gf>, used: seq<Share>, payload: seq<Gf>)
    requires (forall s :: s in used ==> |s| == |payload| + 2) && Interpolates(f, used, payload)
    ensures Joined(f, used, |payload|) == payload
  {
    forall j | 0 <= j < |payload| ensures Joined(f, used, |payload|)[j] == payload[j] {
      JoinedAt(f, used, |payload|, j);
    }
  }

  lemma UsableWhenAlike(shares: seq<Share>)
    requires !OutOfBounds(shares)
    ensures Usable(shares) == Failure(NoShares) <==> shares == []
    ensures Usable(shares) == Failure(Malformed) <==> shares != [] && !AllMarked(shares)
    ensures Usable(shares) == Failure(TooFewShares) <==> AllMarked(shares) && !Enough(shares)
    ensures Usable(shares) == Failure(InconsistentLength) <==> Enough(shares) && !Alike(shares)
    ensures Alike(shares) <==> Usable(shares).Success?
    ensures Alike(shares) ==> Usable(shares).value == shares[..Int(shares[0][0])] && SameLengths(shares[..Int(shares[0][0])])
  {
    if shares != [] {
      assert AllMarked(shares) <==> WellFormed(shares) by {
        assert forall i :: 0 <= i < |shares| ==> shares[i] in shares;
      }
      if WellFormed(shares) && |shares| >= Int(shares[0][0]) {
        IntZero(shares[0][0]);
        var used := shares[..Int(shares[0][0])];
        assert forall i :: 0 <= i < |used| ==> used[i] in used && used[i] == shares[i];
      }
    }
  }

  /** Which shares are refused before any interpolation, and why. */
  lemma RefusedIff(f: F.Field<Gf>, shares: seq<Share>, tagOf: seq<Gf> -> Tag)
    requires !OutOfBounds(shares)
    ensures Reconstruct(f, shares, tagOf) == Failure(NoShares) <==> shares == []
    ensures Reconstruct(f, shares, tagOf) == Failure(Malformed) <==> shares != [] && !AllMarked(shares)
    ensures Reconstruct(f, shares, tagOf) == Failure(TooFewShares) <==> AllMarked(shares) && !Enough(shares)
    ensures Reconstruct(f, shares, tagOf) == Failure(InconsistentLength) <==> Enough(shares) && !Alike(shares)
  {
    UsableWhenAlike(shares);
  }

  /** A payload is an answer exactly when it is a secret followed by that secret's own tag. */
  lemma TaggedIff(bytes: seq<Gf>, tagOf: seq<Gf> -> Tag, s: seq<Gf>)
    ensures Untag(bytes, tagOf) == Success(s) <==> bytes == s + tagOf(s)
    ensures Untag(bytes, tagOf) == Failure(TooShort) <==> |bytes| < TAG_LEN
    ensures Untag(bytes, tagOf).Failure? ==> Untag(bytes, tagOf).error in {TooShort, TagMismatch}
  {
    if bytes == s + tagOf(s) {
      assert bytes[..|bytes| - TAG_LEN] == s && bytes[|bytes| - TAG_LEN..] == tagOf(s);
    }
    if |bytes| >= TAG_LEN {
      assert bytes == bytes[..|bytes| - TAG_LEN] + bytes[|bytes| - TAG_LEN..];
    }
  }

  /** The answer for shares that pass the checks, by the payload they interpolate to. */
  lemma AnswersIff(f: F.Field<Gf>, shares: seq<Share>, tagOf: seq<Gf> -> Tag, payload: seq<Gf>)
    requires !OutOfBounds(shares) && Alike(shares) && |shares[0]| == |payload| + 2
    requires Interpolates(f, shares[..Int(shares[0][0])], payload)
    ensures forall s :: Reconstruct(f, shares, tagOf) == Success(s) <==> payload == s + tagOf(s)
    ensures Reconstruct(f, shares, tagOf) == Failure(TooShort) <==> |payload| < TAG_LEN
    ensures Reconstruct(f, shares, tagOf) == Failure(TagMismatch) <==> |payload| >= TAG_LEN && forall s :: payload != s + tagOf(s)
  {
    var used := shares[..Int(shares[0][0])];
    UsableWhenAlike(shares);
    JoinedIs(f, used, payload);
    ReconstructIs(f, shares, tagOf, used, payload);
    var r := Untag(payload, tagOf);
    forall s ensures r == Success(s) <==> payload == s + tagOf(s) {
      TaggedIff(payload, tagOf, s);
    }
    TaggedIff(payload, tagOf, []);
    assert r.Success? ==> payload == r.value + tagOf(r.value);
  }

  // ---------- one wrong byte ----------

  function Altered(shares: seq<Share>, i: nat, j: nat, v: Gf): seq<Share>
    requires i < |shares| && j + 2 < |shares[i]|
  {
    shares[i := shares[i][j + 2 := v]]
  }

  /** The shares of one split, at these x. */
  ghost predicate Cut(f: F.Field<Gf>, t: Gf, xs: seq<Gf>, bytes: seq<Gf>, rnd: seq<seq<Gf>>, used: seq<Share>) {
    && xs != [] && Draws(rnd, |bytes|, |xs|) && |xs| == |used| && F.Distinct(xs) && f.zero !in xs
    && forall i :: 0 <= i < |xs| ==> used[i] == ShareFrom(f, t, xs[i], Polynomials(bytes, rnd))
  }

  /** The points of the altered shares: one value is new, or none. */
  lemma AlteredPoints(used: seq<Share>, i: nat, j: nat, v: Gf, k: nat)
    requires i < |used| && (forall s :: s in used ==> j + 2 < |s| && k + 2 < |s|)
    ensures var bad := Altered(used, i, j, v);
      && (forall s :: s in bad ==> s in used || |s| == |used[i]|)
      && (forall s :: s in bad ==> k + 2 < |s|)
      && PointsAt(bad, k) == if k == j then PointsAt(used, k)[i := F.Point(used[i][1], v)] else PointsAt(used, k)
  {
    var bad := Altered(used, i, j, v);
    assert forall s :: s in bad ==> s in used || s == bad[i];
  }

  lemma ByteDetects(f: F.Field<Gf>, poly: seq<Gf>, xs: seq<Gf>, points: seq<F.Point<Gf>>, i: nat, v: Gf)
    requires F.Laws(f) && poly != [] && |xs| == |points| == |poly| && F.Distinct(xs) && f.zero !in xs
    requires forall k :: 0 <= k < |xs| ==> points[k] == F.Point(xs[k], F.Eval(f, poly, xs[k]))
    requires i < |xs| && v != points[i].y
    ensures F.Lagrange(f, points[i := F.Point(xs[i], v)], f.zero, |points|) != poly[0]
  {
    assert F.Xs(points) == xs;
    F.LagrangeDetects(f, poly, points, i, v);
  }

  /** Altering byte j of one share changes the interpolated byte j, and no other. */
  lemma AlteredBytes(f: F.Field<Gf>, t: Gf, xs: seq<Gf>, bytes: seq<Gf>, rnd: seq<seq<Gf>>, used: seq<Share>, i: nat, j: nat, v: Gf, k: nat)
    requires F.Laws(f) && Cut(f, t, xs, bytes, rnd, used) && i < |used| && j < |bytes| && k < |bytes|
    requires |used[i]| == |bytes| + 2 && v != used[i][j + 2]
    ensures var bad := Altered(used, i, j, v);
      (forall s :: s in bad ==> |s| == |bytes| + 2) && (ByteOf(f, bad, k) == bytes[k] <==> k != j)
  {
    ByteOfShares(f, t, xs, bytes, rnd, used, k);
    AlteredPoints(used, i, j, v, k);
    if k == j {
      PointsOfShares(f, t, xs, Polynomials(bytes, rnd), used, j);
      ByteDetects(f, Polynomials(bytes, rnd)[j], xs, PointsAt(used, j), i, v);
    }
  }

  /** What the tag makes of a payload with one byte changed to w. */
  lemma TagOfAltered(secret: seq<Gf>, tagOf: seq<Gf> -> Tag, j: nat, w: Gf, s: seq<Gf>)
    requires j < |secret| + TAG_LEN && w != Tagged(secret, tagOf)[j]
    ensures Tagged(secret, tagOf)[j := w] == s + tagOf(s)
       <==> j < |secret| && s == secret[j := w] && tagOf(s) == tagOf(secret)
  {
    var bytes := Tagged(secret, tagOf)[j := w];
    var n := |secret|;
    if j < n {
      assert bytes == secret[j := w] + tagOf(secret);
      assert bytes[..n] == secret[j := w] && bytes[n..] == tagOf(secret);
    } else {
      assert bytes[..n] == secret && bytes[n..][j - n] == w && tagOf(secret)[j - n] != w;
    }
    if bytes == s + tagOf(s) {
      assert |s| == n && bytes[..n] == s && bytes[n..] == tagOf(s);
    }
  }

  lemma AlteredIsAlike(f: F.Field<Gf>, t: Gf, xs: seq<Gf>, polys: seq<seq<Gf>>, shares: seq<Share>, i: nat, j: nat, v: Gf)
    requires 1 <= Int(t) <= |shares| && |xs| == |shares| && i < |shares| && j < |polys| && |shares[i]| == |polys| + 2
    requires forall k :: 0 <= k < |xs| ==> shares[k] == ShareFrom(f, t, xs[k], polys)
    ensures var bad := Altered(shares, i, j, v);
      !OutOfBounds(bad) && Alike(bad) && bad[0][0] == t && |bad[0]| == |polys| + 2
  {
    IntZero(t);
    var bad := Altered(shares, i, j, v);
    assert forall k :: 0 <= k < |shares| ==> |shares[k]| == |polys| + 2 && shares[k][0] == t;
    assert forall k :: 0 <= k < |bad| ==> |bad[k]| == |polys| + 2 && bad[k][0] == t;
  }

  lemma AlteredPayload(f: F.Field<Gf>, t: Gf, xs: seq<Gf>, bytes: seq<Gf>, rnd: seq<seq<Gf>>, used: seq<Share>, i: nat, j: nat, v: Gf)
    returns (w: Gf)
    requires F.Laws(f) && Cut(f, t, xs, bytes, rnd, used) && i < |used| && j < |bytes|
    requires |used[i]| == |bytes| + 2 && v != used[i][j + 2]
    ensures w != bytes[j]
    ensures var bad := Altered(used, i, j, v);
      (forall s :: s in bad ==> |s| == |bytes| + 2) && Interpolates(f, bad, bytes[j := w])
  {
    AlteredBytes(f, t, xs, bytes, rnd, used, i, j, v, j);
    var bad := Altered(used, i, j, v);
    w := ByteOf(f, bad, j);
    forall k | 0 <= k < |bytes| ensures bytes[j := w][k] == ByteOf(f, bad, k) {
      AlteredBytes(f, t, xs, bytes, rnd, used, i, j, v, k);
    }
  }

  lemma AlteredTag(f: F.Field<Gf>, bad: seq<Share>, secret: seq<Gf>, tagOf: seq<Gf> -> Tag, j: nat, w: Gf)
    requires j < |secret| + TAG_LEN && w != Tagged(secret, tagOf)[j]
    requires !OutOfBounds(bad) && Alike(bad) && |bad[0]| == |secret| + TAG_LEN + 2
    requires Interpolates(f, bad[..Int(bad[0][0])], Tagged(secret, tagOf)[j := w])
    ensures Reconstruct(f, bad, tagOf)
         == if j < |secret| && tagOf(secret[j := w]) == tagOf(secret) then Success(secret[j := w]) else Failure(TagMismatch)
  {
    var payload := Tagged(secret, tagOf)[j := w];
    AnswersIff(f, bad, tagOf, payload);
    forall s ensures payload == s + tagOf(s) <==> j < |secret| && s == secret[j := w] && tagOf(s) == tagOf(secret) {
      TagOfAltered(secret, tagOf, j, w, s);
    }
  }

  lemma AlteredAnswer(f: F.Field<Gf>, secret: seq<Gf>, t: Gf, rnd: seq<seq<Gf>>, tagOf: seq<Gf> -> Tag, xs: seq<Gf>,
                      shares: seq<Share>, i: nat, j: nat, v: Gf) returns (w: Gf)
    requires F.Laws(f) && 1 <= Int(t) <= |shares| && i < Int(t) && j < |secret| + TAG_LEN
    requires |xs| == |shares| && Cut(f, t, xs[..Int(t)], Tagged(secret, tagOf), rnd, shares[..Int(t)])
    requires forall k :: 0 <= k < |xs| ==> shares[k] == ShareFrom(f, t, xs[k], Polynomials(Tagged(secret, tagOf), rnd))
    requires |shares[i]| == |secret| + TAG_LEN + 2 && v != shares[i][j + 2]
    ensures w != Tagged(secret, tagOf)[j] && !OutOfBounds(Altered(shares, i, j, v))
    ensures Reconstruct(f, Altered(shares, i, j, v), tagOf)
         == if j < |secret| && tagOf(secret[j := w]) == tagOf(secret) then Success(secret[j := w]) else Failure(TagMismatch)
  {
    var bytes, n := Tagged(secret, tagOf), Int(t);
    AlteredIsAlike(f, t, xs, Polynomials(bytes, rnd), shares, i, j, v);
    assert Altered(shares, i, j, v)[..n] == Altered(shares[..n], i, j, v);
    w := AlteredPayload(f, t, xs[..n], bytes, rnd, shares[..n], i, j, v);
    AlteredTag(f, Altered(shares, i, j, v), secret, tagOf, j, w);
  }

  /** One wrong payload byte in a share that is used is noticed, unless the four-byte tag of the secret it
      leads to is the same; and then the answer is that other secret. */
  lemma CorruptedShare(secret: seq<Gf>, threshold: U8, total: U8, rnd: seq<seq<Gf>>, tagOf: seq<Gf> -> Tag, picks: seq<nat>,
                       i: nat, j: nat, v: Gf) returns (w: Gf)
    requires 1 <= threshold <= total && Draws(rnd, |secret| + TAG_LEN, threshold)
    requires Selection(picks, total) && |picks| >= threshold && i < threshold && j < |secret| + TAG_LEN
    requires v != F.Eval(Field(), Polynomials(Tagged(secret, tagOf), rnd)[j], Byte(picks[i] + 1))
    ensures w != Tagged(secret, tagOf)[j]
    ensures var shares := Altered(Select(Shares(Field(), threshold, total, Polynomials(Tagged(secret, tagOf), rnd)), picks), i, j, v);
      !OutOfBounds(shares) && Reconstruct(Field(), shares, tagOf)
      == if j < |secret| && tagOf(secret[j := w]) == tagOf(secret) then Success(secret[j := w]) else Failure(TagMismatch)
  {
    IsField();
    w := CorruptedOver(Field(), secret, threshold, total, rnd, tagOf, picks, i, j, v);
  }

  lemma CorruptedOver(f: F.Field<Gf>, secret: seq<Gf>, threshold: U8, total: U8, rnd: seq<seq<Gf>>, tagOf: seq<Gf> -> Tag,
                      picks: seq<nat>, i: nat, j: nat, v: Gf) returns (w: Gf)
    requires F.Laws(f) && f.zero == 0 && 1 <= threshold <= total && Draws(rnd, |secret| + TAG_LEN, threshold)
    requires Selection(picks, total) && |picks| >= threshold && i < threshold && j < |secret| + TAG_LEN
    requires v != F.Eval(f, Polynomials(Tagged(secret, tagOf), rnd)[j], Byte(picks[i] + 1))
    ensures w != Tagged(secret, tagOf)[j]
    ensures var shares := Altered(Select(Shares(f, threshold, total, Polynomials(Tagged(secret, tagOf), rnd)), picks), i, j, v);
      !OutOfBounds(shares) && Reconstruct(f, shares, tagOf)
      == if j < |secret| && tagOf(secret[j := w]) == tagOf(secret) then Success(secret[j := w]) else Failure(TagMismatch)
  {
    var xs, shares := XsOf(picks, total), Select(Shares(f, threshold, total, Polynomials(Tagged(secret, tagOf), rnd)), picks);
    ByteInt(threshold);
    XsDistinct(picks, total);
    forall k | 0 <= k < |xs| ensures xs[k] != 0 {
      ByteInjective(picks[k] + 1, 0);
      ByteInt(0);
      IntZero(Byte(0));
    }
    w := AlteredAnswer(f, secret, Byte(threshold), rnd, tagOf, xs, shares, i, j, v);
  }

  // ---------- what fewer shares determine ----------

  /** Any `threshold - 1` shares of a byte, at distinct nonzero x, are explained by every byte value,
      each through exactly one coefficient vector. */
  lemma EveryByteExplained(points: seq<F.Point<Gf>>, b: Gf)
    requires F.Distinct(F.Xs(points)) && 0 !in F.Xs(points)
    ensures exists c :: F.Explains(Field(), c, b, points) && forall d :: F.Explains(Field(), d, b, points) ==> d == c
  {
    IsField();
    F.UniqueExtension(Field(), points, b);
  }
}
