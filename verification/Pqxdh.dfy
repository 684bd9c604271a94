/** The key agreement that seeds a session (packages/crypto-wasm/src/pqxdh.rs). Keys are names: an
    X25519 private key and its public key share one, and a Diffie-Hellman output is the unordered pair
    of the names. HKDF outputs and encapsulated secrets are free constructors. */
module Pqxdh {
  import opened Results

  type KeyId = nat
  datatype DhOut = Dh(lo: KeyId, hi: KeyId)

  function DH(priv: KeyId, pub: KeyId): DhOut {
    if priv <= pub then Dh(priv, pub) else Dh(pub, priv)
  }

  /** hkdf32 over the concatenated DH outputs, and over that and the KEM secret. */
  datatype SharedSecret = SharedSecret(dhs: seq<DhOut>, kem: KemSecret)
  datatype KemSecret = KemSecret(receiver: KeyId, coins: nat)
  datatype KemCiphertext = KemCiphertext(receiver: KeyId, coins: nat)

  /** Bob's published bundle; no one-time prekey when the supply has run out. */
  datatype Bundle = Bundle(ik: KeyId, spk: KeyId, opk: Option<KeyId>, kem: KeyId)
  datatype InitMessage = InitMessage(ik: KeyId, ek: KeyId, kemCt: KemCiphertext, opkUsed: bool)

  /** ML-KEM decapsulation; a ciphertext for another key gives a secret that matches no sender's. */
  function Decapsulate(kemPriv: KeyId, ct: KemCiphertext): KemSecret {
    if ct.receiver == kemPriv then KemSecret(ct.receiver, 2 * ct.coins) else KemSecret(kemPriv, 2 * ct.coins + 1)
  }

  function Initiate(ikA: KeyId, ekA: KeyId, coins: nat, b: Bundle): (r: (SharedSecret, InitMessage)) {
    var dhs := [DH(ikA, b.spk), DH(ekA, b.ik), DH(ekA, b.spk)];
    var all := if b.opk.Some? then dhs + [DH(ekA, b.opk.value)] else dhs;
    (SharedSecret(all, KemSecret(b.kem, 2 * coins)), InitMessage(ikA, ekA, KemCiphertext(b.kem, coins), b.opk.Some?))
  }

  /** Fails when the message used a one-time prekey that Bob cannot supply. */
  function Respond(m: InitMessage, ikB: KeyId, spkB: KeyId, opkB: Option<KeyId>, kemB: KeyId): Option<SharedSecret> {
    var dhs := [DH(spkB, m.ik), DH(ikB, m.ek), DH(spkB, m.ek)];
    if m.opkUsed && opkB.None? then None else
    var all := if m.opkUsed then dhs + [DH(opkB.value, m.ek)] else dhs;
    Some(SharedSecret(all, Decapsulate(kemB, m.kemCt)))
  }

  lemma DhCancels(a: KeyId, x: KeyId, y: KeyId)
    ensures DH(a, x) == DH(x, a)
    ensures DH(a, x) == DH(a, y) <==> x == y
  {}

  /** Bob derives Alice's secret exactly when he answers with the keys of the bundle she used. */
  lemma SecretsAgreeIff(ikA: KeyId, ekA: KeyId, coins: nat, b: Bundle, ikB: KeyId, spkB: KeyId, opkB: Option<KeyId>, kemB: KeyId)
    ensures var (secret, msg) := Initiate(ikA, ekA, coins, b);
            Respond(msg, ikB, spkB, opkB, kemB) == Some(secret)
            <==> ikB == b.ik && spkB == b.spk && kemB == b.kem && (b.opk.Some? ==> opkB == b.opk)
  {
    var (secret, msg) := Initiate(ikA, ekA, coins, b);
    DhCancels(ikA, b.spk, spkB);
    DhCancels(ekA, b.ik, ikB);
    DhCancels(ekA, b.spk, spkB);
    DhCancels(spkB, ikA, ekA);
    if b.opk.Some? && opkB.Some? {
      DhCancels(ekA, b.opk.value, opkB.value);
    }
    var r := Respond(msg, ikB, spkB, opkB, kemB);
    if r == Some(secret) {
      assert r.value.dhs[0] == secret.dhs[0] && r.value.dhs[1] == secret.dhs[1];
      if b.opk.Some? {
        assert r.value.dhs[3] == secret.dhs[3];
        DhCancels(ekA, opkB.value, b.opk.value);
      }
      DhCancels(spkB, ikA, ikA);
      DhCancels(ikB, ekA, ekA);
    }
  }

  /** Bob derives Alice's secret from her own message and from no other: her identity key, her ephemeral key, the
      encapsulation and the use of the one-time prekey are all bound into it. */
  lemma SecretBindsMessage(ikA: KeyId, ekA: KeyId, coins: nat, b: Bundle, m: InitMessage)
    ensures var (secret, msg) := Initiate(ikA, ekA, coins, b);
            Respond(m, b.ik, b.spk, b.opk, b.kem) == Some(secret) <==> m == msg
  {
    var (secret, msg) := Initiate(ikA, ekA, coins, b);
    SecretsAgreeIff(ikA, ekA, coins, b, b.ik, b.spk, b.opk, b.kem);
    var r := Respond(m, b.ik, b.spk, b.opk, b.kem);
    if r == Some(secret) {
      assert |r.value.dhs| == |secret.dhs|;
      assert r.value.dhs[0] == secret.dhs[0] && r.value.dhs[1] == secret.dhs[1];
      DhCancels(ikA, b.spk, b.spk);
      DhCancels(ekA, b.ik, b.ik);
      DhCancels(b.spk, m.ik, ikA);
      DhCancels(b.ik, m.ek, ekA);
    }
  }

  /** d comes from the key pairs a and b. */
  predicate Between(d: DhOut, a: KeyId, b: KeyId) { d.lo <= d.hi && {d.lo, d.hi} == {a, b} }

  /** The outputs that go into the secret, in the order of section 3.3 of Signal's X3DH. */
  lemma SecretOnKeys(ikA: KeyId, ekA: KeyId, coins: nat, b: Bundle)
    ensures var dhs := Initiate(ikA, ekA, coins, b).0.dhs;
      && |dhs| == (if b.opk.Some? then 4 else 3)
      && Between(dhs[0], ikA, b.spk) && Between(dhs[1], ekA, b.ik) && Between(dhs[2], ekA, b.spk)
      && (b.opk.Some? ==> Between(dhs[3], ekA, b.opk.value))
  {}
}
