/** The fixed-width binary encoding of records (bincode with little-endian integers and 8-byte lengths),
    as a list of fields. */
module RecordCodec {
  import opened ByteStrings
  import opened Results

  datatype Kind = VarBytes | U64
  datatype Item = Var(bytes: Bytes) | Num(n: nat)

  function KindOf(i: Item): Kind { if i.Var? then VarBytes else U64 }

  predicate Fits(i: Item) { (if i.Var? then |i.bytes| else i.n) < Pow256(8) }

  function WriteItem(i: Item): Bytes {
    if i.Var? then LittleEndian(|i.bytes|, 8) + i.bytes else LittleEndian(i.n, 8)
  }

  function ReadItem(k: Kind, b: Bytes): Option<(Item, Bytes)> {
    if |b| < 8 then None else
    var n := FromLittleEndian(b[..8]);
    if k.U64? then Some((Num(n), b[8..]))
    else if n > |b| - 8 then None
    else Some((Var(b[8..8 + n]), b[8 + n..]))
  }

  function Kinds(items: seq<Item>): seq<Kind> {
    if items == [] then [] else [KindOf(items[0])] + Kinds(items[1..])
  }

  predicate AllFit(items: seq<Item>) { forall i :: i in items ==> Fits(i) }

  function Write(items: seq<Item>): Bytes {
    if items == [] then [] else WriteItem(items[0]) + Write(items[1..])
  }

  /** The fields read off the front of b, and what is left. */
  function Read(kinds: seq<Kind>, b: Bytes): Option<(seq<Item>, Bytes)> {
    if kinds == [] then Some(([], b)) else
    var first := ReadItem(kinds[0], b);
    if first.None? then None else
    var rest := Read(kinds[1..], first.value.1);
    if rest.None? then None else Some(([first.value.0] + rest.value.0, rest.value.1))
  }

  lemma ReadWriteItem(i: Item, rest: Bytes)
    requires Fits(i)
    ensures ReadItem(KindOf(i), WriteItem(i) + rest) == Some((i, rest))
  {
    var n := if i.Var? then |i.bytes| else i.n;
    LittleEndianRoundTrip(n, 8);
    var b := WriteItem(i) + rest;
    assert b[..8] == LittleEndian(n, 8);
    if i.Var? {
      assert b[8..8 + n] == i.bytes && b[8 + n..] == rest;
    } else {
      assert b[8..] == rest;
    }
  }

  lemma WriteReadItem(k: Kind, b: Bytes)
    requires ReadItem(k, b).Some?
    ensures var (i, rest) := ReadItem(k, b).value;
      WriteItem(i) + rest == b && KindOf(i) == k && Fits(i)
  {
    var (i, rest) := ReadItem(k, b).value;
    FromLittleEndianBound(b[..8]);
    LittleEndianInverse(b[..8]);
    assert b == b[..8] + b[8..];
  }

  /** Reading what was written gives it back, whatever follows. */
  lemma {:induction false} ReadWrite(items: seq<Item>, rest: Bytes)
    requires AllFit(items)
    ensures Read(Kinds(items), Write(items) + rest) == Some((items, rest))
  {
    if items == [] {
      assert Write(items) + rest == rest;
    } else {
      var tail := Write(items[1..]) + rest;
      assert Write(items) + rest == WriteItem(items[0]) + tail;
      ReadWriteItem(items[0], tail);
      ReadWrite(items[1..], rest);
      assert Kinds(items)[1..] == Kinds(items[1..]);
      assert items == [items[0]] + items[1..];
    }
  }

  lemma WriteCons(first: Item, rest: seq<Item>)
    ensures Write([first] + rest) == WriteItem(first) + Write(rest)
    ensures Kinds([first] + rest) == [KindOf(first)] + Kinds(rest)
  {
    assert ([first] + rest)[1..] == rest;
  }

  /** Whatever is read is what was written: no two byte strings read alike. */
  lemma {:induction false} WriteRead(kinds: seq<Kind>, b: Bytes, items: seq<Item>, rest: Bytes)
    requires Read(kinds, b) == Some((items, rest))
    ensures Write(items) + rest == b && Kinds(items) == kinds && AllFit(items)
  {
    if kinds != [] {
      var first := ReadItem(kinds[0], b).value;
      var tail := Read(kinds[1..], first.1).value.0;
      WriteReadItem(kinds[0], b);
      WriteRead(kinds[1..], first.1, tail, rest);
      ConsRead(first.0, tail, kinds[0], kinds[1..], rest);
      assert items == [first.0] + tail && kinds == [kinds[0]] + kinds[1..];
    }
  }

  lemma ConsRead(first: Item, tail: seq<Item>, kind: Kind, kinds: seq<Kind>, rest: Bytes)
    requires Kinds(tail) == kinds && KindOf(first) == kind && AllFit(tail) && Fits(first)
    ensures Write([first] + tail) + rest == WriteItem(first) + (Write(tail) + rest)
    ensures Kinds([first] + tail) == [kind] + kinds && AllFit([first] + tail)
  {
    WriteCons(first, tail);
    Associative(WriteItem(first), Write(tail), rest);
  }

  lemma Associative(x: Bytes, y: Bytes, z: Bytes)
    ensures x + y + z == x + (y + z)
  {}

  /** Reading a longer record starts by reading the shorter one. */
  lemma {:induction false} ReadPrefix(kinds: seq<Kind>, more: seq<Kind>, b: Bytes)
    requires Read(kinds + more, b).Some?
    ensures Read(kinds, b).Some? && Read(more, Read(kinds, b).value.1).Some?
  {
    if kinds == [] {
      assert kinds + more == more;
    } else {
      assert (kinds + more)[1..] == kinds[1..] + more;
      ReadPrefix(kinds[1..], more, ReadItem(kinds[0], b).value.1);
    }
  }

  /** The record whose encoding is exactly b. */
  function ReadExactly(kinds: seq<Kind>, b: Bytes): Option<seq<Item>> {
    var r := Read(kinds, b);
    if r.Some? && r.value.1 == [] then Some(r.value.0) else None
  }

  lemma ExactRoundTrip(items: seq<Item>)
    requires AllFit(items)
    ensures ReadExactly(Kinds(items), Write(items)) == Some(items)
  {
    ReadWrite(items, []);
    assert Write(items) + [] == Write(items);
  }

  /** No byte string is exactly a record and exactly that record with more fields. */
  lemma NotBoth(kinds: seq<Kind>, more: seq<Kind>, b: Bytes)
    requires more != []
    ensures ReadExactly(kinds, b).None? || ReadExactly(kinds + more, b).None?
  {
    if ReadExactly(kinds + more, b).Some? {
      ReadPrefix(kinds, more, b);
    }
  }
}

/** Sender certificates and sealed blobs (packages/crypto-wasm/src/sealed_sender.rs). */
module SealedSender {
  import opened ByteStrings
  import opened Results
  import opened RecordCodec

  /** The primitives: keys, key agreement, key derivation, authenticated encryption, the pair of
      signatures, the id of a signing key, and UTF-8 validity. */
  datatype Crypto = Crypto(
    pub: Bytes -> Bytes,
    dh: (Bytes, Bytes) -> Bytes,
    kdf: (Bytes, Bytes) -> Bytes,
    seal: (Bytes, Bytes, Bytes, Bytes) -> Bytes,
    open: (Bytes, Bytes, Bytes, Bytes) -> Option<Bytes>,
    verify: (Bytes, Bytes, Bytes, Bytes, Bytes) -> bool,
    userId: Bytes -> Bytes,
    utf8: Bytes -> bool)

  const TAG: nat := 16

  ghost predicate Lawful(c: Crypto) {
    && (forall x :: |c.pub(x)| == 32)
    && (forall x, y :: c.dh(x, c.pub(y)) == c.dh(y, c.pub(x)))
    && (forall k, n, a, m :: c.open(k, n, a, c.seal(k, n, a, m)) == Some(m))
    && (forall k, n, a, ct :: c.open(k, n, a, ct).Some? ==> c.seal(k, n, a, c.open(k, n, a, ct).value) == ct)
    && (forall k, n, a, m :: |c.seal(k, n, a, m)| == |m| + TAG)
  }

  /** A certificate of either version; version 1 has no X25519 key. */
  datatype Cert = Cert(id: Bytes, ed: Bytes, dil: Bytes, validUntil: nat, x25519: Option<Bytes>)
  datatype Signed = Signed(cert: Cert, sigEd: Bytes, sigDil: Bytes)

  // "privex-sender-cert-v2", "privex_sealed_sender_v2" and "sealed_sender"
  const CONTEXT: Bytes := [112, 114, 105, 118, 101, 120, 45, 115, 101, 110, 100, 101, 114, 45, 99, 101, 114, 116, 45, 118, 50]
  const V2_INFO: Bytes := [112, 114, 105, 118, 101, 120, 95, 115, 101, 97, 108, 101, 100, 95, 115, 101, 110, 100, 101, 114, 95, 118, 50]
  const V1_INFO: Bytes := [115, 101, 97, 108, 101, 100, 95, 115, 101, 110, 100, 101, 114]

  function CertItems(c: Cert): seq<Item> {
    [Var(c.id), Var(c.ed), Var(c.dil), Num(c.validUntil)] + if c.x25519.Some? then [Var(c.x25519.value)] else []
  }

  function SignedItems(s: Signed): seq<Item> { CertItems(s.cert) + [Var(s.sigEd), Var(s.sigDil)] }

  const V1_KINDS: seq<Kind> := [VarBytes, VarBytes, VarBytes, U64, VarBytes, VarBytes]
  const V2_KINDS: seq<Kind> := V1_KINDS + [VarBytes]

  predicate WellFormed(c: Crypto, s: Signed) { c.utf8(s.cert.id) && AllFit(SignedItems(s)) }

  function ParseV1(c: Crypto, b: Bytes): Option<Signed> {
    var r := ReadExactly(V1_KINDS, b);
    if r.None? || !IsV1(r.value) || !c.utf8(r.value[0].bytes) then None else
    var i := r.value;
    Some(Signed(Cert(i[0].bytes, i[1].bytes, i[2].bytes, i[3].n, None), i[4].bytes, i[5].bytes))
  }

  function ParseV2(c: Crypto, b: Bytes): Option<Signed> {
    var r := ReadExactly(V2_KINDS, b);
    if r.None? || !IsV2(r.value) || !c.utf8(r.value[0].bytes) then None else
    var i := r.value;
    Some(Signed(Cert(i[0].bytes, i[1].bytes, i[2].bytes, i[3].n, Some(i[4].bytes)), i[5].bytes, i[6].bytes))
  }

  predicate IsV1(i: seq<Item>) { |i| == 6 && i[0].Var? && i[1].Var? && i[2].Var? && i[3].Num? && i[4].Var? && i[5].Var? }
  predicate IsV2(i: seq<Item>) { |i| == 7 && IsV1(i[..6]) && i[6].Var? }

  function Serialize(s: Signed): Bytes { Write(SignedItems(s)) }

  /** A byte string behind its length, eight bytes with the least significant first. */
  function Field(b: Bytes): Bytes { LittleEndian(|b|, 8) + b }

  function CertFields(c: Cert): Bytes {
    Field(c.id) + Field(c.ed) + Field(c.dil) + LittleEndian(c.validUntil, 8) + if c.x25519.Some? then Field(c.x25519.value) else []
  }

  lemma {:induction false} WriteAppend(a: seq<Item>, b: seq<Item>)
    ensures Write(a + b) == Write(a) + Write(b)
  {
    if a == [] {
      assert a + b == b && Write(a) == [];
    } else {
      var first, rest := a[0], a[1..];
      WriteAppend(rest, b);
      FirstAndRest(a, b);
      WriteStep(first, rest, b);
    }
  }

  lemma FirstAndRest(a: seq<Item>, b: seq<Item>)
    requires a != []
    ensures a == [a[0]] + a[1..] && a + b == [a[0]] + (a[1..] + b)
  {}

  lemma WriteStep(first: Item, rest: seq<Item>, b: seq<Item>)
    requires Write(rest + b) == Write(rest) + Write(b)
    ensures Write([first] + (rest + b)) == Write([first] + rest) + Write(b)
  {
    WriteCons(first, rest);
    WriteCons(first, rest + b);
    Regroup(WriteItem(first), Write(rest), Write(b));
  }

  lemma WriteOne(i: Item)
    ensures Write([i]) == WriteItem(i)
  {
    assert [i][1..] == [] && Write([]) == [];
  }

  lemma WriteTwo(a: Item, b: Item)
    ensures Write([a, b]) == WriteItem(a) + WriteItem(b)
  {
    WriteAppend([a], [b]);
    WriteOne(a);
    WriteOne(b);
    assert [a] + [b] == [a, b];
  }

  lemma WriteCert(c: Cert)
    ensures Write(CertItems(c)) == CertFields(c)
  {
    var a, b := [Var(c.id), Var(c.ed)], [Var(c.dil), Num(c.validUntil)];
    var x: seq<Item> := if c.x25519.Some? then [Var(c.x25519.value)] else [];
    assert CertItems(c) == a + b + x;
    WriteAppend(a + b, x);
    WriteAppend(a, b);
    WriteTwo(a[0], a[1]);
    WriteTwo(b[0], b[1]);
    if c.x25519.Some? {
      WriteOne(x[0]);
    }
    Regroup(Field(c.id) + Field(c.ed), Field(c.dil), LittleEndian(c.validUntil, 8));
  }

  lemma Regroup(a: Bytes, b: Bytes, c: Bytes)
    ensures a + (b + c) == a + b + c
  {}

  /** The bytes of a certificate and of its signing input, field by field. */
  lemma CertOnBytes(s: Signed)
    ensures Serialize(s) == CertFields(s.cert) + Field(s.sigEd) + Field(s.sigDil)
    ensures SigningInput(s.cert) == (if s.cert.x25519.Some? then CONTEXT else []) + CertFields(s.cert)
  {
    WriteCert(s.cert);
    WriteAppend(CertItems(s.cert), [Var(s.sigEd), Var(s.sigDil)]);
    WriteTwo(Var(s.sigEd), Var(s.sigDil));
    Regroup(CertFields(s.cert), Field(s.sigEd), Field(s.sigDil));
  }

  lemma KindsOfSigned(s: Signed)
    ensures Kinds(SignedItems(s)) == if s.cert.x25519.Some? then V2_KINDS else V1_KINDS
  {
    var i := SignedItems(s);
    KindsAt(i);
  }

  lemma {:induction false} KindsAt(i: seq<Item>)
    ensures |Kinds(i)| == |i| && forall j :: 0 <= j < |i| ==> Kinds(i)[j] == KindOf(i[j])
  {
    if i != [] {
      KindsAt(i[1..]);
      assert forall j :: 0 < j < |i| ==> i[1..][j - 1] == i[j];
    }
  }

  /** No byte string is a certificate of both versions. */
  lemma VersionsDisjoint(c: Crypto, b: Bytes)
    ensures ParseV1(c, b).None? || ParseV2(c, b).None?
  {
    NotBoth(V1_KINDS, [VarBytes], b);
  }

  /** Each version parses back to itself. */
  lemma CertRoundTrip(c: Crypto, s: Signed)
    requires WellFormed(c, s)
    ensures s.cert.x25519.Some? ==> ParseV2(c, Serialize(s)) == Some(s) && ParseV1(c, Serialize(s)).None?
    ensures s.cert.x25519.None? ==> ParseV1(c, Serialize(s)) == Some(s) && ParseV2(c, Serialize(s)).None?
  {
    KindsOfSigned(s);
    ExactRoundTrip(SignedItems(s));
    VersionsDisjoint(c, Serialize(s));
  }

  /** The record with these fields, in their order, is of the version that has an X25519 key or not. */
  lemma ItemsOfV2(i: seq<Item>)
    requires Kinds(i) == V2_KINDS
    ensures IsV2(i) && SignedItems(Signed(Cert(i[0].bytes, i[1].bytes, i[2].bytes, i[3].n, Some(i[4].bytes)), i[5].bytes, i[6].bytes)) == i
  {
    KindsAt(i);
    assert V2_KINDS == [VarBytes, VarBytes, VarBytes, U64, VarBytes, VarBytes, VarBytes];
    assert KindOf(i[0]) == VarBytes && KindOf(i[1]) == VarBytes && KindOf(i[2]) == VarBytes && KindOf(i[3]) == U64;
    assert KindOf(i[4]) == VarBytes && KindOf(i[5]) == VarBytes && KindOf(i[6]) == VarBytes;
  }

  lemma ItemsOfV1(i: seq<Item>)
    requires Kinds(i) == V1_KINDS
    ensures IsV1(i) && SignedItems(Signed(Cert(i[0].bytes, i[1].bytes, i[2].bytes, i[3].n, None), i[4].bytes, i[5].bytes)) == i
  {
    KindsAt(i);
    assert KindOf(i[0]) == VarBytes && KindOf(i[1]) == VarBytes && KindOf(i[2]) == VarBytes && KindOf(i[3]) == U64;
    assert KindOf(i[4]) == VarBytes && KindOf(i[5]) == VarBytes;
  }

  /** Bytes parse as version 2 to a certificate exactly when it is one of that version, well formed, and they
      are its encoding. */
  lemma ParseV2Iff(c: Crypto, b: Bytes, s: Signed)
    ensures ParseV2(c, b) == Some(s) <==> s.cert.x25519.Some? && WellFormed(c, s) && b == Serialize(s)
  {
    if ParseV2(c, b) == Some(s) {
      var i := ReadExactly(V2_KINDS, b).value;
      WriteRead(V2_KINDS, b, i, []);
      assert Write(i) + [] == Write(i);
      ItemsOfV2(i);
    } else if s.cert.x25519.Some? && WellFormed(c, s) && b == Serialize(s) {
      CertRoundTrip(c, s);
    }
  }

  lemma ParseV1Iff(c: Crypto, b: Bytes, s: Signed)
    ensures ParseV1(c, b) == Some(s) <==> s.cert.x25519.None? && WellFormed(c, s) && b == Serialize(s)
  {
    if ParseV1(c, b) == Some(s) {
      var i := ReadExactly(V1_KINDS, b).value;
      WriteRead(V1_KINDS, b, i, []);
      assert Write(i) + [] == Write(i);
      ItemsOfV1(i);
    } else if s.cert.x25519.None? && WellFormed(c, s) && b == Serialize(s) {
      CertRoundTrip(c, s);
    }
  }

  /** What the signatures cover. */
  function SigningInput(cert: Cert): Bytes {
    (if cert.x25519.Some? then CONTEXT else []) + Write(CertItems(cert))
  }

  // The length whose eight little-endian bytes are the context's first eight.
  const CONTEXT_AS_LENGTH: nat := 0x732d_7865_7669_7270

  lemma ContextTail()
    ensures FromLittleEndian([101, 120, 45, 115]) == 0x732d_7865
  {
    LittleCons(115, []);
    LittleCons(45, [115]);
    LittleCons(120, [45, 115]);
    LittleCons(101, [120, 45, 115]);
  }

  lemma ContextAsLength()
    ensures FromLittleEndian(CONTEXT[..8]) == CONTEXT_AS_LENGTH
  {
    var tail: Bytes := [101, 120, 45, 115];
    ContextTail();
    LittleCons(118, tail);
    LittleCons(105, [118] + tail);
    LittleCons(114, [105] + ([118] + tail));
    LittleCons(112, [114] + ([105] + ([118] + tail)));
    assert CONTEXT[..8] == [112] + ([114] + ([105] + ([118] + tail)));
  }

  lemma LittleCons(x: Byte, rest: Bytes)
    ensures FromLittleEndian([x] + rest) == x + 256 * FromLittleEndian(rest)
  {
    assert ([x] + rest)[1..] == rest;
  }

  /** Inputs of different versions can only meet on a version 1 id of one absurd length. */
  lemma SigningInputsDiffer(old1: Cert, new2: Cert)
    requires old1.x25519.None? && new2.x25519.Some? && AllFit(CertItems(old1))
    requires SigningInput(old1) == SigningInput(new2)
    ensures |old1.id| == CONTEXT_AS_LENGTH
  {
    ContextAsLength();
    assert CertItems(old1)[0] == Var(old1.id) && Fits(CertItems(old1)[0]);
    LittleEndianRoundTrip(|old1.id|, 8);
    assert SigningInput(new2)[..8] == CONTEXT[..8];
    assert SigningInput(old1)[..8] == LittleEndian(|old1.id|, 8);
  }

  lemma SameVersionInjective(a: Cert, b: Cert)
    requires AllFit(CertItems(a)) && AllFit(CertItems(b)) && a.x25519.Some? == b.x25519.Some?
    requires Write(CertItems(a)) == Write(CertItems(b))
    ensures a == b
  {
    var x, y := CertItems(a), CertItems(b);
    KindsAt(x);
    KindsAt(y);
    assert Kinds(x) == Kinds(y);
    ExactRoundTrip(x);
    ExactRoundTrip(y);
    assert x == y;
    assert x[0] == y[0] && x[1] == y[1] && x[2] == y[2] && x[3] == y[3] && (a.x25519.Some? ==> x[4] == y[4]);
  }

  /** One signing input, one certificate. */
  lemma SigningInputInjective(a: Cert, b: Cert)
    requires AllFit(CertItems(a)) && AllFit(CertItems(b))
    requires |a.id| != CONTEXT_AS_LENGTH && |b.id| != CONTEXT_AS_LENGTH
    ensures SigningInput(a) == SigningInput(b) <==> a == b
  {
    if SigningInput(a) == SigningInput(b) {
      if a.x25519.Some? != b.x25519.Some? {
        var old1, new2 := if a.x25519.None? then a else b, if a.x25519.None? then b else a;
        SigningInputsDiffer(old1, new2);
      } else {
        var start := if a.x25519.Some? then CONTEXT else [];
        DropPrefix(start, Write(CertItems(a)), Write(CertItems(b)));
        SameVersionInjective(a, b);
      }
    }
  }

  lemma DropPrefix(p: Bytes, x: Bytes, y: Bytes)
    requires p + x == p + y
    ensures x == y
  {
    assert x == (p + x)[|p|..] && y == (p + y)[|p|..];
  }

  /** A certificate and whether its signatures hold, for the version the bytes parse as. */
  function OpenCert(c: Crypto, b: Bytes): Option<(Cert, bool)> {
    var s := if ParseV2(c, b).Some? then ParseV2(c, b) else ParseV1(c, b);
    if s.None? then None else
    var cert := s.value.cert;
    Some((cert, (cert.x25519.Some? ==> |cert.x25519.value| == 32)
                && c.verify(SigningInput(cert), s.value.sigEd, cert.ed, s.value.sigDil, cert.dil)))
  }

  const HEADER: nat := 57

  function OpenV2(c: Crypto, blob: Bytes, ik: Bytes): Option<(Bytes, Bytes)> {
    if |blob| < HEADER + TAG || blob[0] != 2 then None else
    var header, sealed := blob[..HEADER], blob[HEADER..];
    var inner := c.open(c.kdf(c.dh(ik, header[1..33]), V2_INFO), header[33..57], header, sealed);
    if inner.None? then None else SplitInner(inner.value)
  }

  /** A certificate behind its 4-byte length, and the rest. */
  function SplitInner(inner: Bytes): Option<(Bytes, Bytes)> {
    if |inner| < 4 then None else
    var end := 4 + FromLittleEndian(inner[..4]);
    if end > |inner| then None else Some((inner[4..end], inner[end..]))
  }

  function OpenV1(c: Crypto, blob: Bytes, ik: Bytes): Option<(Bytes, Bytes)> {
    if |blob| < 60 then None else
    var end := 60 + FromLittleEndian(blob[56..60]);
    if end > |blob| then None else
    var cert := c.open(c.kdf(c.dh(ik, blob[..32]), V1_INFO), blob[32..56], [], blob[60..end]);
    if cert.None? then None else Some((cert.value, blob[end..]))
  }

  function OpenBlob(c: Crypto, blob: Bytes, ik: Bytes): Option<(Bytes, Bytes)> {
    var v2 := OpenV2(c, blob, ik);
    if v2.Some? then v2 else OpenV1(c, blob, ik)
  }

  datatype Opened = Opened(plaintext: Bytes, id: Bytes, ed: Bytes, x25519: Bytes, verified: bool)

  function Decrypt(c: Crypto, blob: Bytes, ik: Bytes, now: nat): Option<Opened> {
    var o := OpenBlob(c, blob, ik);
    if o.None? then None else
    var r := OpenCert(c, o.value.0);
    if r.None? then None else
    var cert := r.value.0;
    Some(Opened(o.value.1, cert.id, cert.ed, if cert.x25519.Some? then cert.x25519.value else [],
                r.value.1 && cert.id == c.userId(cert.ed) && cert.validUntil >= now))
  }

  function Inner(cert: Bytes, message: Bytes): Bytes { LittleEndian(|cert|, 4) + cert + message }

  lemma SplitInnerOf(cert: Bytes, message: Bytes)
    requires |cert| < Pow256(4)
    ensures SplitInner(Inner(cert, message)) == Some((cert, message))
  {
    LittleEndianRoundTrip(|cert|, 4);
    var inner := Inner(cert, message);
    assert inner[..4] == LittleEndian(|cert|, 4);
    assert inner[4..4 + |cert|] == cert && inner[4 + |cert|..] == message;
  }

  function SealedV2(c: Crypto, eph: Bytes, nonce: Bytes, recipient: Bytes, cert: Bytes, message: Bytes): Bytes {
    var header := [2] + c.pub(eph) + nonce;
    header + c.seal(c.kdf(c.dh(eph, recipient), V2_INFO), nonce, header, Inner(cert, message))
  }

  lemma OpensAsV2(c: Crypto, eph: Bytes, nonce: Bytes, ik: Bytes, cert: Bytes, message: Bytes)
    requires Lawful(c) && |nonce| == 24 && |cert| < Pow256(4)
    ensures OpenBlob(c, SealedV2(c, eph, nonce, c.pub(ik), cert, message), ik) == Some((cert, message))
  {
    var blob, header := SealedV2(c, eph, nonce, c.pub(ik), cert, message), [2] + c.pub(eph) + nonce;
    assert blob[..HEADER] == header && header[1..33] == c.pub(eph) && header[33..57] == nonce;
    assert blob[HEADER..] == c.seal(c.kdf(c.dh(eph, c.pub(ik)), V2_INFO), nonce, header, Inner(cert, message));
    SplitInnerOf(cert, message);
  }

  /** The sender's side, with its random ephemeral secret and nonce as arguments. */
  method SealedSenderEncrypt(c: Crypto, message: Bytes, cert: Bytes, recipient: Bytes, eph: Bytes, nonce: Bytes)
    returns (r: Option<Bytes>)
    requires Lawful(c) && |nonce| == 24
    ensures r.Some? <==> |recipient| == 32 && |cert| < Pow256(4)
    ensures r.Some? ==> r.value == SealedV2(c, eph, nonce, recipient, cert, message)
    ensures r.Some? ==> forall ik :: c.pub(ik) == recipient ==> OpenBlob(c, r.value, ik) == Some((cert, message))
  {
    if |recipient| != 32 || |cert| >= Pow256(4) {
      return None;
    }
    var key := c.kdf(c.dh(eph, recipient), V2_INFO);
    var header: Bytes := [2];
    header := header + c.pub(eph);
    header := header + nonce;
    var inner := LittleEndian(|cert|, 4);
    inner := inner + cert;
    inner := inner + message;
    var sealed := c.seal(key, nonce, header, inner);
    r := Some(header + sealed);
    forall ik | c.pub(ik) == recipient ensures OpenBlob(c, r.value, ik) == Some((cert, message)) {
      OpensAsV2(c, eph, nonce, ik, cert, message);
    }
  }

  /** A version 1 blob, as clients used to write it. */
  function SealedV1(c: Crypto, eph: Bytes, nonce: Bytes, recipient: Bytes, cert: Bytes, message: Bytes): Bytes {
    var sealed := c.seal(c.kdf(c.dh(eph, recipient), V1_INFO), nonce, [], cert);
    c.pub(eph) + nonce + LittleEndian(|sealed|, 4) + sealed + message
  }

  lemma InnerOfSplit(inner: Bytes)
    requires SplitInner(inner).Some?
    ensures var (cert, message) := SplitInner(inner).value;
      inner == Inner(cert, message) && |cert| < Pow256(4)
  {
    FromLittleEndianBound(inner[..4]);
    LittleEndianInverse(inner[..4]);
    assert inner == inner[..4] + inner[4..];
  }

  /** The blob is a version 2 blob that seals this certificate and message for the holder of ik. */
  ghost predicate Seals(c: Crypto, blob: Bytes, ik: Bytes, cert: Bytes, message: Bytes) {
    && |blob| >= HEADER && blob[0] == 2 && |cert| < Pow256(4)
    && blob[HEADER..]
       == c.seal(c.kdf(c.dh(ik, blob[1..33]), V2_INFO), blob[33..57], blob[..HEADER], LittleEndian(|cert|, 4) + cert + message)
  }

  /** A blob opens as version 2 exactly when it seals what it opens to. */
  lemma OpenV2Iff(c: Crypto, blob: Bytes, ik: Bytes, cert: Bytes, message: Bytes)
    requires Lawful(c)
    ensures OpenV2(c, blob, ik) == Some((cert, message)) <==> Seals(c, blob, ik, cert, message)
  {
    if |blob| >= HEADER {
      var header := blob[..HEADER];
      assert header[1..33] == blob[1..33] && header[33..57] == blob[33..57];
    }
    if Seals(c, blob, ik, cert, message) {
      SplitInnerOf(cert, message);
    }
    if OpenV2(c, blob, ik).Some? {
      var header := blob[..HEADER];
      InnerOfSplit(c.open(c.kdf(c.dh(ik, header[1..33]), V2_INFO), header[33..57], header, blob[HEADER..]).value);
    }
  }

  /** The blob is a version 1 blob: a key, a nonce, the length of the sealed certificate, that certificate, and the
      message as it is. */
  ghost predicate SealsV1(c: Crypto, blob: Bytes, ik: Bytes, cert: Bytes, message: Bytes) {
    && |blob| >= 60
    && blob[60..] == c.seal(c.kdf(c.dh(ik, blob[..32]), V1_INFO), blob[32..56], [], cert) + message
    && FromLittleEndian(blob[56..60]) == |cert| + TAG
  }

  lemma OpenV1Iff(c: Crypto, blob: Bytes, ik: Bytes, cert: Bytes, message: Bytes)
    requires Lawful(c)
    ensures OpenV1(c, blob, ik) == Some((cert, message)) <==> SealsV1(c, blob, ik, cert, message)
  {
    if |blob| >= 60 {
      var k, end := c.kdf(c.dh(ik, blob[..32]), V1_INFO), 60 + FromLittleEndian(blob[56..60]);
      var sealed := c.seal(k, blob[32..56], [], cert);
      if SealsV1(c, blob, ik, cert, message) {
        assert blob[60..end] == blob[60..][..|sealed|] == sealed && blob[end..] == blob[60..][|sealed|..] == message;
      }
      if OpenV1(c, blob, ik) == Some((cert, message)) {
        assert blob[60..end] == sealed && blob[60..] == blob[60..end] + blob[end..];
      }
    }
  }

  /** What any blob opens to: what it seals as version 2, or else, if it is no version 2 seal, what it seals as
      version 1. */
  lemma OpenBlobIff(c: Crypto, blob: Bytes, ik: Bytes, cert: Bytes, message: Bytes)
    requires Lawful(c)
    ensures OpenBlob(c, blob, ik) == Some((cert, message)) <==>
      || Seals(c, blob, ik, cert, message)
      || (SealsV1(c, blob, ik, cert, message) && forall ct, m :: !Seals(c, blob, ik, ct, m))
  {
    OpenV2Iff(c, blob, ik, cert, message);
    OpenV1Iff(c, blob, ik, cert, message);
    var got := OpenV2(c, blob, ik);
    if got.Some? {
      OpenV2Iff(c, blob, ik, got.value.0, got.value.1);
    } else {
      forall ct, m ensures !Seals(c, blob, ik, ct, m) {
        OpenV2Iff(c, blob, ik, ct, m);
      }
    }
  }

  /** A version 1 blob opens to its certificate and message whatever its first byte is, unless the same
      bytes happen to be a version 2 seal for the recipient; then those contents win. */
  lemma OpensAsV1(c: Crypto, eph: Bytes, nonce: Bytes, ik: Bytes, cert: Bytes, message: Bytes)
    requires Lawful(c) && |nonce| == 24 && |cert| + TAG < Pow256(4)
    ensures var blob := SealedV1(c, eph, nonce, c.pub(ik), cert, message);
      OpenBlob(c, blob, ik) == Some((cert, message)) <==>
      forall ct, m :: Seals(c, blob, ik, ct, m) ==> ct == cert && m == message
  {
    var blob := SealedV1(c, eph, nonce, c.pub(ik), cert, message);
    var sealed := c.seal(c.kdf(c.dh(eph, c.pub(ik)), V1_INFO), nonce, [], cert);
    LittleEndianRoundTrip(|sealed|, 4);
    assert blob[..32] == c.pub(eph) && blob[32..56] == nonce && blob[56..60] == LittleEndian(|sealed|, 4);
    assert blob[60..60 + |sealed|] == sealed && blob[60 + |sealed|..] == message;
    assert OpenV1(c, blob, ik) == Some((cert, message));
    var got := OpenV2(c, blob, ik);
    if got.Some? {
      OpenV2Iff(c, blob, ik, got.value.0, got.value.1);
    }
    forall ct, m | Seals(c, blob, ik, ct, m) ensures got == Some((ct, m)) {
      OpenV2Iff(c, blob, ik, ct, m);
    }
  }

  /** Whichever way a blob carries a certificate of whichever version, the recipient reads the
      certificate's own fields, and calls the sender verified exactly when both signatures hold over
      them, the id belongs to the signing key and the certificate has not expired. */
  lemma DecryptReads(c: Crypto, blob: Bytes, ik: Bytes, now: nat, s: Signed, message: Bytes)
    requires WellFormed(c, s) && OpenBlob(c, blob, ik) == Some((Serialize(s), message))
    ensures Decrypt(c, blob, ik, now) == Some(Opened(
        message, s.cert.id, s.cert.ed, if s.cert.x25519.Some? then s.cert.x25519.value else [],
        && (s.cert.x25519.Some? ==> |s.cert.x25519.value| == 32)
        && c.verify(SigningInput(s.cert), s.sigEd, s.cert.ed, s.sigDil, s.cert.dil)
        && s.cert.id == c.userId(s.cert.ed) && s.cert.validUntil >= now))
  {
    CertRoundTrip(c, s);
  }

  /** A blob is read exactly when it opens, as either version, to the encoding of a well-formed certificate. */
  lemma DecryptIff(c: Crypto, blob: Bytes, ik: Bytes, now: nat)
    ensures Decrypt(c, blob, ik, now).Some? <==>
      exists s: Signed, message: Bytes :: WellFormed(c, s) && OpenBlob(c, blob, ik) == Some((Serialize(s), message))
  {
    if Decrypt(c, blob, ik, now).Some? {
      var o := OpenBlob(c, blob, ik).value;
      var s := if ParseV2(c, o.0).Some? then ParseV2(c, o.0).value else ParseV1(c, o.0).value;
      ParseV2Iff(c, o.0, s);
      ParseV1Iff(c, o.0, s);
      assert OpenBlob(c, blob, ik) == Some((Serialize(s), o.1));
    }
    if s: Signed, message: Bytes :| WellFormed(c, s) && OpenBlob(c, blob, ik) == Some((Serialize(s), message)) {
      DecryptReads(c, blob, ik, now, s, message);
    }
  }
}
