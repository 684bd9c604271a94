/** Proof of work: the server's check (server/src/powcheck.rs) and the client's solvers and verifiers
    (packages/crypto-wasm/src/pow.rs). The two hash functions are arguments; `argon` is None where its
    parameters are refused. */
module PowCheck {
  import opened ByteStrings
  import opened PowersOfTwo
  import opened Results

  lemma {:induction false} Pow256IsExp2(k: nat)
    ensures Pow256(k) == Exp2(8 * k)
  {
    if k > 0 {
      Pow256IsExp2(k - 1);
      Exp2Add(8, 8 * (k - 1));
    }
  }

  /** u8::leading_zeros */
  function ByteZeros(b: Byte): (z: nat)
    ensures z <= 8 && b < Exp2(8 - z) && (z < 8 ==> b >= Exp2(7 - z))
  {
    if b == 0 then 8 else if b == 1 then 7 else if b < 4 then 6 else if b < 8 then 5
    else if b < 16 then 4 else if b < 32 then 3 else if b < 64 then 2 else if b < 128 then 1 else 0
  }

  function ZeroBits(h: Bytes): nat {
    if h == [] then 0 else if h[0] == 0 then 8 + ZeroBits(h[1..]) else ByteZeros(h[0])
  }

  lemma {:induction false} BigEndianHead(h: Bytes)
    requires h != []
    ensures FromBigEndian(h) == h[0] * Pow256(|h| - 1) + FromBigEndian(h[1..])
  {
    var n := |h| - 1;
    if n > 0 {
      var front := h[..n];
      BigEndianHead(front);
      assert front[1..] == h[1..][..n - 1];
      assert Pow256(n) == Pow256(n - 1) * 256;
      Shift(h[0], Pow256(n - 1), FromBigEndian(front[1..]), h[n]);
    }
  }

  lemma Shift(x: nat, p: nat, y: nat, z: nat)
    ensures (x * p + y) * 256 + z == x * (p * 256) + (y * 256 + z)
  {}

  /** A digest counts at difficulty d when it is small enough as a number. */
  predicate Meets(h: Bytes, d: nat) { d <= 8 * |h| && FromBigEndian(h) < Exp2(8 * |h| - d) }

  /** A leading byte that is not zero decides. */
  lemma TopByte(b: nat, z: nat, m: nat, rest: nat, d: nat)
    requires z < 8 && Exp2(7 - z) <= b < Exp2(8 - z) && rest < Exp2(m) && d <= 8 + m
    ensures z >= d <==> b * Exp2(m) + rest < Exp2(8 + m - d)
  {
    if d <= z {
      Exp2Add(8 - z, m);
      Exp2Monotone(8 - z + m, 8 + m - d);
      Below(b, Exp2(8 - z), Exp2(m), rest);
    } else {
      Exp2Add(7 - z, m);
      Exp2Monotone(8 + m - d, 7 - z + m);
      Above(b, Exp2(7 - z), Exp2(m));
    }
  }

  lemma Below(b: nat, c: nat, p: nat, r: nat)
    requires b < c && r < p
    ensures b * p + r < c * p
  {
    assert (b + 1) * p <= c * p;
  }

  lemma Above(b: nat, c: nat, p: nat)
    requires b >= c
    ensures b * p >= c * p
  {}

  /** A digest has d leading zero bits exactly when, read as a big-endian number, it is below 2^(bits - d). */
  lemma {:induction false} ZeroBitsIsThreshold(h: Bytes, d: nat)
    ensures ZeroBits(h) >= d <==> Meets(h, d)
  {
    if h != [] {
      ZeroBitsIsThreshold(h[1..], if d < 8 then 0 else d - 8);
      BigEndianHead(h);
      FromBigEndianBound(h[1..]);
      Pow256IsExp2(|h| - 1);
      if h[0] != 0 {
        if d <= 8 * |h| {
          TopByte(h[0], ByteZeros(h[0]), 8 * (|h| - 1), FromBigEndian(h[1..]), d);
        }
      } else if d < 8 {
        Exp2Monotone(8 * (|h| - 1), 8 * |h| - d);
      }
    }
  }

  method LeadingZeroBits(h: Bytes) returns (bits: nat)
    ensures forall d: nat :: Meets(h, d) <==> bits >= d
    ensures bits == ZeroBits(h)
  {
    bits := 0;
    var i := 0;
    while i < |h|
      invariant 0 <= i <= |h|
      invariant ZeroBits(h) == bits + ZeroBits(h[i..])
    {
      assert h[i..][1..] == h[i + 1..];
      if h[i] == 0 {
        bits := bits + 8;
      } else {
        bits := bits + ByteZeros(h[i]);
        break;
      }
      i := i + 1;
    }
    forall d: nat ensures Meets(h, d) <==> ZeroBits(h) >= d {
      ZeroBitsIsThreshold(h, d);
    }
  }

  // The puzzle.

  const NONCES: nat := 0x1_0000_0000_0000_0000

  datatype Puzzle = Puzzle(
    challenge: Bytes, shaBits: nat, memory: nat, time: nat, argonBits: nat,
    sha: Bytes -> Bytes, argon: (Bytes, Bytes, nat, nat) -> Option<Bytes>)

  /** The digest of a nonce, and the memory-hard digest behind it. */
  function First(p: Puzzle, nonce: nat): Bytes { p.sha(p.challenge + LittleEndian(nonce, 8)) }
  function Second(p: Puzzle, nonce: nat): Option<Bytes> { p.argon(First(p, nonce), p.challenge, p.memory, p.time) }

  predicate ShaSolves(p: Puzzle, nonce: nat) { Meets(First(p, nonce), p.shaBits) }

  predicate HybridSolves(p: Puzzle, nonce: nat) {
    ShaSolves(p, nonce) && Second(p, nonce).Some? && Meets(Second(p, nonce).value, p.argonBits)
  }

  /** What is hashed: the challenge and the nonce as eight bytes, least significant first; and then that
      digest, salted with the challenge. */
  lemma HashedOnBytes(p: Puzzle, nonce: nat, w: Bytes)
    requires |w| == |p.challenge| + 8 && w[..|p.challenge|] == p.challenge && FromLittleEndian(w[|p.challenge|..]) == nonce
    ensures First(p, nonce) == p.sha(w) && Second(p, nonce) == p.argon(p.sha(w), p.challenge, p.memory, p.time)
  {
    TailIsNumber(p.challenge, nonce, 8, w);
  }

  lemma TailIsNumber(front: Bytes, n: nat, len: nat, w: Bytes)
    requires |w| == |front| + len && w[..|front|] == front && FromLittleEndian(w[|front|..]) == n
    ensures front + LittleEndian(n, len) == w
  {
    LittleEndianInverse(w[|front|..]);
  }

  /** The server's check of a plain solution. */
  method PowValid(p: Puzzle, nonce: nat, solution: Bytes) returns (ok: bool)
    ensures ok <==> ShaSolves(p, nonce) && solution == First(p, nonce)
  {
    var h := p.sha(p.challenge + LittleEndian(nonce, 8));
    var bits := LeadingZeroBits(h);
    ok := bits >= p.shaBits && h == solution;
  }

  /** The server's check of a hybrid solution. */
  method HybridValid(p: Puzzle, nonce: nat, solution: Bytes) returns (ok: bool)
    ensures ok <==> HybridSolves(p, nonce) && Second(p, nonce) == Some(solution)
  {
    var h1 := p.sha(p.challenge + LittleEndian(nonce, 8));
    var bits := LeadingZeroBits(h1);
    if bits < p.shaBits {
      return false;
    }
    var h2 := p.argon(h1, p.challenge, p.memory, p.time);
    if h2.None? {
      return false;
    }
    bits := LeadingZeroBits(h2.value);
    ok := bits >= p.argonBits && h2.value == solution;
  }

  /** Why a solver stopped without a solution; the nonce it had come to is not part of the error text. */
  datatype Stop = Aborted(at: nat) | Exhausted | ArgonRefused(at: nat)

  /** The client's check: it says yes exactly when the server would; refused Argon2id parameters are an
      error here and a plain no on the server. */
  method VerifyHybrid(p: Puzzle, nonce: nat, solution: Bytes) returns (r: Result<bool, Stop>)
    ensures r == Success(true) <==> HybridSolves(p, nonce) && Second(p, nonce) == Some(solution)
    ensures r.Failure? <==> ShaSolves(p, nonce) && Second(p, nonce).None?
  {
    var h1 := p.sha(p.challenge + LittleEndian(nonce, 8));
    var bits := LeadingZeroBits(h1);
    if bits < p.shaBits {
      return Success(false);
    }
    var h2 := p.argon(h1, p.challenge, p.memory, p.time);
    if h2.None? {
      return Failure(ArgonRefused(nonce));
    }
    bits := LeadingZeroBits(h2.value);
    r := Success(bits >= p.argonBits && h2.value == solution);
  }

  /** The native solver. Without a solution it would not return; `some` is one. */
  method PowSolve(p: Puzzle, ghost some: nat) returns (nonce: nat, hash: Bytes)
    requires some < NONCES && ShaSolves(p, some)
    ensures nonce < NONCES && ShaSolves(p, nonce) && hash == First(p, nonce)
    ensures forall n :: 0 <= n < nonce ==> !ShaSolves(p, n)
  {
    nonce := 0;
    while true
      invariant nonce <= some && forall n :: 0 <= n < nonce ==> !ShaSolves(p, n)
      decreases some - nonce
    {
      hash := p.sha(p.challenge + LittleEndian(nonce, 8));
      var bits := LeadingZeroBits(hash);
      if bits >= p.shaBits {
        return;
      }
      nonce := nonce + 1;
    }
  }

  /** One turn of the hybrid solvers' loop. */
  method Attempt(p: Puzzle, nonce: nat) returns (r: Option<Bytes>)
    requires ShaSolves(p, nonce) ==> Second(p, nonce).Some?
    ensures r.Some? <==> HybridSolves(p, nonce)
    ensures r.Some? ==> r == Second(p, nonce)
  {
    var h1 := p.sha(p.challenge + LittleEndian(nonce, 8));
    var bits := LeadingZeroBits(h1);
    if bits >= p.shaBits {
      var h2 := p.argon(h1, p.challenge, p.memory, p.time).value;
      bits := LeadingZeroBits(h2);
      if bits >= p.argonBits {
        return Some(h2);
      }
    }
    r := None;
  }

  /** The native hybrid solver, which stops the program on refused Argon2id parameters. */
  method HybridSolve(p: Puzzle, ghost some: nat) returns (nonce: nat, hash: Bytes)
    requires some < NONCES && HybridSolves(p, some)
    requires forall n :: 0 <= n < some && ShaSolves(p, n) ==> Second(p, n).Some?
    ensures nonce < NONCES && HybridSolves(p, nonce) && Second(p, nonce) == Some(hash)
    ensures forall n :: 0 <= n < nonce ==> !HybridSolves(p, n)
  {
    nonce := 0;
    while true
      invariant nonce <= some && forall n :: 0 <= n < nonce ==> !HybridSolves(p, n)
      decreases some - nonce
    {
      var found := Attempt(p, nonce);
      if found.Some? {
        return nonce, found.value;
      }
      nonce := nonce + 1;
    }
  }

  /** The callback is asked every ten thousand nonces. */
  predicate AbortsAt(abort: nat -> bool, n: nat) { n > 0 && n % 10_000 == 0 && abort(n) }

  /** The first n nonces were tried without anything to report. */
  ghost predicate Quiet(p: Puzzle, abort: nat -> bool, n: nat) {
    forall k :: 0 <= k < n ==>
      !AbortsAt(abort, k) && (ShaSolves(p, k) ==> Second(p, k).Some? && !HybridSolves(p, k))
  }

  /** The client's hybrid solver: the least solution, or which reason to stop came first. */
  method SolveHybrid(p: Puzzle, abort: nat -> bool) returns (r: Result<(nat, Bytes), Stop>)
    ensures match r
      case Success(found) =>
        && found.0 < NONCES && Quiet(p, abort, found.0) && !AbortsAt(abort, found.0)
        && HybridSolves(p, found.0) && Second(p, found.0) == Some(found.1)
      case Failure(Aborted(at)) => at < NONCES && Quiet(p, abort, at) && AbortsAt(abort, at)
      case Failure(ArgonRefused(at)) =>
        at < NONCES && Quiet(p, abort, at) && !AbortsAt(abort, at) && ShaSolves(p, at) && Second(p, at).None?
      case Failure(Exhausted) => Quiet(p, abort, NONCES)
  {
    var nonce := 0;
    while true
      invariant nonce < NONCES && Quiet(p, abort, nonce)
      decreases NONCES - nonce
    {
      if nonce > 0 && nonce % 10_000 == 0 && abort(nonce) {
        return Failure(Aborted(nonce));
      }
      var h1 := p.sha(p.challenge + LittleEndian(nonce, 8));
      var bits := LeadingZeroBits(h1);
      if bits >= p.shaBits {
        var h2 := p.argon(h1, p.challenge, p.memory, p.time);
        if h2.None? {
          return Failure(ArgonRefused(nonce));
        }
        bits := LeadingZeroBits(h2.value);
        if bits >= p.argonBits {
          return Success((nonce, h2.value));
        }
      }
      if nonce == NONCES - 1 {
        return Failure(Exhausted);
      }
      nonce := nonce + 1;
    }
  }
}
