/** One side of a Double Ratchet session (packages/crypto-wasm/src/ratchet.rs), after sections 3.3 to
    3.5 of Signal's "The Double Ratchet Algorithm". Key derivation is symbolic: HKDF outputs are free
    constructors, and a sealed message opens under its own key and header only. Random bytes and fresh
    key pairs are arguments. */
module Ratchet {
  import opened ByteStrings
  import opened Results
  import opened Pqxdh

  const MAX_SKIP: nat := 1000
  const PAD_BLOCK: nat := 1024
  const U32_MAX: nat := 0xFFFF_FFFF

  // ---------- symbolic keys ----------

  datatype RootKey = Initial(secret: SharedSecret) | NextRoot(rk: RootKey, dh: DhOut)
  datatype ChainKey = FirstChain(rk: RootKey, dh: DhOut) | NextChain(ck: ChainKey)
  datatype MessageKey = MessageKey(ck: ChainKey)

  function KdfRk(rk: RootKey, dh: DhOut): (RootKey, ChainKey) { (NextRoot(rk, dh), FirstChain(rk, dh)) }
  function KdfCk(ck: ChainKey): (ChainKey, MessageKey) { (NextChain(ck), MessageKey(ck)) }

  datatype Header = Header(dhPub: KeyId, pn: nat, n: nat)
  datatype Sealed = Sealed(mk: MessageKey, aad: Header, padded: Bytes)

  function Open(mk: MessageKey, ct: Sealed, aad: Header): Option<Bytes> {
    if ct.mk == mk && ct.aad == aad then Some(ct.padded) else None
  }

  // ---------- padding ----------

  /** Bytes of random padding that bring a length prefix and plaintext to a block boundary. */
  function PaddingLen(n: nat): (k: nat)
    ensures (4 + n + k) % PAD_BLOCK == 0 && k < PAD_BLOCK
  {
    (PAD_BLOCK - (4 + n) % PAD_BLOCK) % PAD_BLOCK
  }

  function Pad(plaintext: Bytes, padding: Bytes): Bytes { LittleEndian(|plaintext|, 4) + plaintext + padding }

  function Unpad(padded: Bytes): Option<Bytes> {
    if |padded| < 4 then None else
    var len := FromLittleEndian(padded[..4]);
    if 4 + len > |padded| then None else Some(padded[4..4 + len])
  }

  lemma UnpadPad(plaintext: Bytes, padding: Bytes)
    requires |plaintext| <= U32_MAX
    ensures Unpad(Pad(plaintext, padding)) == Some(plaintext)
  {
    var prefix := LittleEndian(|plaintext|, 4);
    var padded := Pad(plaintext, padding);
    assert Pow256(4) == U32_MAX + 1;
    LittleEndianRoundTrip(|plaintext|, 4);
    assert padded[..4] == prefix && padded[4..4 + |plaintext|] == plaintext;
  }

  /** The padded plaintext by position: its length in four bytes, least significant first, then it, then padding. */
  lemma PadOnBytes(plaintext: Bytes, padding: Bytes, w: Bytes)
    requires |plaintext| <= U32_MAX
    ensures w == Pad(plaintext, padding) <==>
      && |w| == 4 + |plaintext| + |padding| && FromLittleEndian(w[..4]) == |plaintext|
      && w[4..4 + |plaintext|] == plaintext && w[4 + |plaintext|..] == padding
  {
    assert Pow256(4) == U32_MAX + 1;
    LittleEndianRoundTrip(|plaintext|, 4);
    if |w| == 4 + |plaintext| + |padding| {
      LittleEndianInverse(w[..4]);
      assert w == w[..4] + w[4..4 + |plaintext|] + w[4 + |plaintext|..];
    }
  }

  // ---------- session state ----------

  datatype SessionState = SessionState(
    rk: RootKey, dhs: KeyId, dhr: Option<KeyId>, cks: Option<ChainKey>, ckr: Option<ChainKey>,
    ns: nat, nr: nat, pn: nat, skipped: map<(KeyId, nat), MessageKey>)

  datatype RatchetError = NoSendingChain | TooManySkipped | NoReceivingChain | AuthFailed | BadPadding

  function InitAlice(secret: SharedSecret, bobPub: KeyId, newKey: KeyId): SessionState {
    var (rk, cks) := KdfRk(Initial(secret), DH(newKey, bobPub));
    SessionState(rk, newKey, Some(bobPub), Some(cks), None, 0, 0, 0, map[])
  }

  function InitBob(secret: SharedSecret, bobKey: KeyId): SessionState {
    SessionState(Initial(secret), bobKey, None, None, None, 0, 0, 0, map[])
  }

  /** A chain key advanced n times. */
  function Advance(ck: ChainKey, n: nat): ChainKey {
    if n == 0 then ck else NextChain(Advance(ck, n - 1))
  }

  /** The message keys from number `from` up to `until`, when `ck` is the chain key at `from`. */
  function KeysBetween(ratchetKey: KeyId, ck: ChainKey, from: nat, until: nat): map<(KeyId, nat), MessageKey>
    decreases until
  {
    if until <= from then map[]
    else KeysBetween(ratchetKey, ck, from, until - 1)[(ratchetKey, until - 1) := MessageKey(Advance(ck, until - 1 - from))]
  }

  lemma {:induction false} InKeysBetween(ratchetKey: KeyId, ck: ChainKey, from: nat, until: nat, k: KeyId, n: nat)
    ensures (k, n) in KeysBetween(ratchetKey, ck, from, until) <==> k == ratchetKey && from <= n < until
    ensures from <= n < until ==>
              (ratchetKey, n) in KeysBetween(ratchetKey, ck, from, until) &&
              KeysBetween(ratchetKey, ck, from, until)[(ratchetKey, n)] == MessageKey(Advance(ck, n - from))
    decreases until
  {
    if until > from {
      InKeysBetween(ratchetKey, ck, from, until - 1, k, n);
      InKeysBetween(ratchetKey, ck, from, until - 1, ratchetKey, n);
    }
  }

  // ---------- encryption ----------

  datatype Encrypted = Encrypted(header: Header, ct: Sealed, st: SessionState)

  function Encrypt(st: SessionState, plaintext: Bytes, padding: Bytes): Result<Encrypted, RatchetError> {
    if st.cks.None? then Failure(NoSendingChain) else
    var (next, mk) := KdfCk(st.cks.value);
    var header := Header(st.dhs, st.pn, st.ns);
    Success(Encrypted(header, Sealed(mk, header, Pad(plaintext, padding)), st.(cks := Some(next), ns := st.ns + 1)))
  }

  // ---------- decryption ----------

  /** The receiving chain moved on to `until`, with the keys passed over kept. */
  function SkipTo(st: SessionState, until: nat): SessionState
    requires st.ckr.Some?
  {
    if until <= st.nr then st else
    st.(nr := until, ckr := Some(Advance(st.ckr.value, until - st.nr)),
        skipped := if st.dhr.Some? then st.skipped + KeysBetween(st.dhr.value, st.ckr.value, st.nr, until) else st.skipped)
  }

  function SaturatingAdd(a: nat, b: nat): nat { if a + b > U32_MAX then U32_MAX else a + b }

  function SkipRecv(st: SessionState, until: nat): Result<SessionState, RatchetError> {
    if st.ckr.None? then (if until > st.nr then Failure(NoReceivingChain) else Success(st))
    else if until > SaturatingAdd(st.nr, MAX_SKIP) then Failure(TooManySkipped)
    else Success(SkipTo(st, until))
  }

  function DhRatchet(st: SessionState, header: Header, newKey: KeyId): SessionState {
    var (rk1, ckr) := KdfRk(st.rk, DH(st.dhs, header.dhPub));
    var (rk2, cks) := KdfRk(rk1, DH(newKey, header.dhPub));
    SessionState(rk2, newKey, Some(header.dhPub), Some(cks), Some(ckr), 0, 0, st.ns, st.skipped)
  }

  datatype Decrypted = Decrypted(plaintext: Bytes, st: SessionState)

  function DecryptWith(mk: MessageKey, ct: Sealed, aad: Header): Result<Bytes, RatchetError> {
    match Open(mk, ct, aad)
    case None => Failure(AuthFailed)
    case Some(padded) => if Unpad(padded).None? then Failure(BadPadding) else Success(Unpad(padded).value)
  }

  /** The key and state for a message that is not among the skipped ones. */
  function ReceiveKey(st: SessionState, header: Header, newKey: KeyId): Result<(MessageKey, SessionState), RatchetError> {
    var ratcheted: Result<SessionState, RatchetError> :=
      if st.dhr == Some(header.dhPub) then Success(st)
      else match SkipRecv(st, header.pn)
           case Failure(e) => Failure(e)
           case Success(s) => Success(DhRatchet(s, header, newKey));
    match ratcheted
    case Failure(e) => Failure(e)
    case Success(s1) =>
      match SkipRecv(s1, header.n)
      case Failure(e) => Failure(e)
      case Success(s2) =>
        if s2.ckr.None? then Failure(NoReceivingChain) else
        var (next, mk) := KdfCk(s2.ckr.value);
        Success((mk, s2.(ckr := Some(next), nr := s2.nr + 1)))
  }

  function Decrypt(st: SessionState, ct: Sealed, header: Header, newKey: KeyId): Result<Decrypted, RatchetError> {
    var slot := (header.dhPub, header.n);
    var found: Result<(MessageKey, SessionState), RatchetError> :=
      if slot in st.skipped then Success((st.skipped[slot], st.(skipped := st.skipped - {slot})))
      else ReceiveKey(st, header, newKey);
    match found
    case Failure(e) => Failure(e)
    case Success(pair) =>
      var (mk, after) := pair;
      match DecryptWith(mk, ct, header)
      case Failure(e) => Failure(e)
      case Success(plaintext) => Success(Decrypted(plaintext, after))
  }

  /** A ciphertext opens under the header it was sealed with and no other, and the state changes only then. */
  lemma OtherHeaderFails(st: SessionState, ct: Sealed, header: Header, newKey: KeyId)
    requires header != ct.aad
    ensures Decrypt(st, ct, header, newKey).Failure?
  {
    assert forall mk :: DecryptWith(mk, ct, header) == Failure(AuthFailed);
  }

  /** The state while the loop of skip_recv has reached number k, the chain key not yet stored. */
  ghost function MidSkip(st: SessionState, k: nat): SessionState
    requires st.ckr.Some? && st.nr <= k
  {
    st.(nr := k, skipped := if st.dhr.Some? then st.skipped + KeysBetween(st.dhr.value, st.ckr.value, st.nr, k) else st.skipped)
  }

  lemma MidSkipStart(st: SessionState)
    requires st.ckr.Some?
    ensures MidSkip(st, st.nr) == st
  {
    if st.dhr.Some? {
      assert KeysBetween(st.dhr.value, st.ckr.value, st.nr, st.nr) == map[];
    }
  }

  lemma MidSkipStep(st: SessionState, k: nat)
    requires st.ckr.Some? && st.nr <= k
    ensures var now := MidSkip(st, k);
            MidSkip(st, k + 1) == now.(nr := k + 1, skipped :=
              if st.dhr.Some? then now.skipped[(st.dhr.value, k) := MessageKey(Advance(st.ckr.value, k - st.nr))] else now.skipped)
  {
    if st.dhr.Some? {
      var d, ck := st.dhr.value, st.ckr.value;
      assert KeysBetween(d, ck, st.nr, k + 1) == KeysBetween(d, ck, st.nr, k)[(d, k) := MessageKey(Advance(ck, k - st.nr))];
    }
  }

  lemma MidSkipEnd(st: SessionState, until: nat)
    requires st.ckr.Some?
    ensures var k := if until <= st.nr then st.nr else until;
            MidSkip(st, k).(ckr := Some(Advance(st.ckr.value, k - st.nr))) == SkipTo(st, until)
  {
    MidSkipStart(st);
  }

  // ---------- the code, which updates a session in place ----------

  /** The state a call deserializes, mutates and serializes again. */
  class Session {
    var rk: RootKey
    var dhs: KeyId
    var dhr: Option<KeyId>
    var cks: Option<ChainKey>
    var ckr: Option<ChainKey>
    var ns: nat
    var nr: nat
    var pn: nat
    var skipped: map<(KeyId, nat), MessageKey>

    function State(): SessionState
      reads this
    {
      SessionState(rk, dhs, dhr, cks, ckr, ns, nr, pn, skipped)
    }

    constructor (st: SessionState)
      ensures State() == st
    {
      rk, dhs, dhr, cks, ckr := st.rk, st.dhs, st.dhr, st.cks, st.ckr;
      ns, nr, pn, skipped := st.ns, st.nr, st.pn, st.skipped;
    }

    method SkipReceived(until: nat) returns (err: Option<RatchetError>)
      modifies this
      ensures err.None? <==> SkipRecv(old(State()), until).Success?
      ensures if err.None? then State() == SkipRecv(old(State()), until).value
              else Failure(err.value) == SkipRecv(old(State()), until) && State() == old(State())
    {
      if ckr.None? {
        return if until > nr then Some(NoReceivingChain) else None;
      }
      if until > SaturatingAdd(nr, MAX_SKIP) {
        return Some(TooManySkipped);
      }
      var ck := ckr.value;
      ghost var st0 := State();
      MidSkipStart(st0);
      while nr < until
        modifies this
        invariant st0.nr <= nr && (nr <= until || nr == st0.nr)
        invariant ck == Advance(st0.ckr.value, nr - st0.nr)
        invariant State() == MidSkip(st0, nr)
      {
        MidSkipStep(st0, nr);
        var (next, mk) := KdfCk(ck);
        ck := next;
        if dhr.Some? {
          skipped := skipped[(dhr.value, nr) := mk];
        }
        nr := nr + 1;
      }
      MidSkipEnd(st0, until);
      ckr := Some(ck);
      err := None;
    }

    method RatchetKeys(header: Header, newKey: KeyId)
      modifies this
      ensures State() == DhRatchet(old(State()), header, newKey)
    {
      pn := ns;
      ns := 0;
      nr := 0;
      dhr := Some(header.dhPub);
      var (rk1, receiving) := KdfRk(rk, DH(dhs, header.dhPub));
      rk := rk1;
      ckr := Some(receiving);
      dhs := newKey;
      var (rk2, sending) := KdfRk(rk, DH(dhs, header.dhPub));
      rk := rk2;
      cks := Some(sending);
    }
  }

  method RatchetEncrypt(st: SessionState, plaintext: Bytes, padding: Bytes) returns (r: Result<Encrypted, RatchetError>)
    requires st.ns < U32_MAX && |plaintext| <= U32_MAX && |padding| == PaddingLen(|plaintext|)
    ensures r == Encrypt(st, plaintext, padding)
    ensures r.Success? ==> |r.value.ct.padded| % PAD_BLOCK == 0
  {
    var s := new Session(st);
    if s.cks.None? {
      return Failure(NoSendingChain);
    }
    var (next, mk) := KdfCk(s.cks.value);
    s.cks := Some(next);
    var header := Header(s.dhs, s.pn, s.ns);
    s.ns := s.ns + 1;
    r := Success(Encrypted(header, Sealed(mk, header, Pad(plaintext, padding)), s.State()));
  }

  method RatchetDecrypt(st: SessionState, ct: Sealed, header: Header, newKey: KeyId) returns (r: Result<Decrypted, RatchetError>)
    ensures r == Decrypt(st, ct, header, newKey)
  {
    var s := new Session(st);
    var slot := (header.dhPub, header.n);
    if slot in s.skipped {
      var mk := s.skipped[slot];
      s.skipped := s.skipped - {slot};
      var p := DecryptWith(mk, ct, header);
      return if p.Failure? then Failure(p.error) else Success(Decrypted(p.value, s.State()));
    }
    var isNew := if s.dhr.Some? then s.dhr.value != header.dhPub else true;
    if isNew {
      var err := s.SkipReceived(header.pn);
      if err.Some? {
        return Failure(err.value);
      }
      s.RatchetKeys(header, newKey);
    }
    var err := s.SkipReceived(header.n);
    if err.Some? {
      return Failure(err.value);
    }
    if s.ckr.None? {
      return Failure(NoReceivingChain);
    }
    var (next, mk) := KdfCk(s.ckr.value);
    s.ckr := Some(next);
    s.nr := s.nr + 1;
    var p := DecryptWith(mk, ct, header);
    r := if p.Failure? then Failure(p.error) else Success(Decrypted(p.value, s.State()));
  }
}
