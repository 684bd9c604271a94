/** Stateless login challenges (server/src/auth/challenge.rs): nonce, expiry and a truncated MAC.
    `mac` is HMAC-SHA256 under the challenge key over domain, user and body, cut to 20 bytes. */
module AuthChallenge {
  import opened ByteStrings
  import opened Results
  import opened SingleUse

  const NONCE_LEN: nat := 8
  const TAG_LEN: nat := 20
  const CHALLENGE_LEN: nat := 32

  type ShortMac = t: Bytes | |t| == TAG_LEN witness Zeros(TAG_LEN)

  function Body(nonce: Bytes, expiresAt: nat): Bytes { nonce + BigEndian(expiresAt, 4) }

  /** Fills a fixed buffer; fails when the expiry does not fit in 32 bits. */
  method Mint(mac: (Bytes, Bytes) -> ShortMac, user: Bytes, nonce: Bytes, now: int) returns (r: Option<Bytes>)
    requires |nonce| == NONCE_LEN
    ensures r.Some? <==> 0 <= now + TTL_SECS < Pow256(4)
    ensures r.Some? ==> r.value == Minted(mac, user, nonce, now + TTL_SECS)
  {
    if now + TTL_SECS < 0 || now + TTL_SECS >= Pow256(4) {
      return None;
    }
    var out := new Byte[CHALLENGE_LEN](_ => 0);
    var body := Body(nonce, now + TTL_SECS);
    Fill(out, 0, body);
    assert out[..NONCE_LEN + 4] == body;
    var tag := mac(user, out[..NONCE_LEN + 4]);
    Fill(out, NONCE_LEN + 4, tag);
    assert out[..] == body + tag;
    r := Some(out[..]);
  }

  function Minted(mac: (Bytes, Bytes) -> ShortMac, user: Bytes, nonce: Bytes, expiresAt: nat): Bytes {
    Body(nonce, expiresAt) + mac(user, Body(nonce, expiresAt))
  }

  function ExpiryOf(challenge: Bytes): nat
    requires |challenge| == CHALLENGE_LEN
  {
    FromBigEndian(challenge[NONCE_LEN..NONCE_LEN + 4])
  }

  predicate Check(mac: (Bytes, Bytes) -> ShortMac, user: Bytes, challenge: Bytes, now: int) {
    && |challenge| == CHALLENGE_LEN
    && mac(user, challenge[..NONCE_LEN + 4]) == challenge[NONCE_LEN + 4..]
    && ChallengeWindow(now, ExpiryOf(challenge))
  }

  /** A challenge minted at second `issued` is accepted from 30 seconds before to 90 seconds after it,
      and at no other second. */
  lemma AcceptedExactlyInWindow(mac: (Bytes, Bytes) -> ShortMac, user: Bytes, nonce: Bytes, issued: int, now: int)
    requires |nonce| == NONCE_LEN && 0 <= issued + TTL_SECS < Pow256(4)
    ensures var c := Minted(mac, user, nonce, issued + TTL_SECS);
            |c| == CHALLENGE_LEN && ExpiryOf(c) == issued + TTL_SECS &&
            (Check(mac, user, c, now) <==> issued - SKEW_SECS <= now <= issued + TTL_SECS)
  {
    var exp := issued + TTL_SECS;
    var body, c := Body(nonce, exp), Minted(mac, user, nonce, exp);
    BigEndianRoundTrip(exp, 4);
    assert c[..NONCE_LEN + 4] == body && c[NONCE_LEN + 4..] == mac(user, body);
    assert c[NONCE_LEN..NONCE_LEN + 4] == BigEndian(exp, 4);
  }

  /** Whatever is accepted for a user is a challenge minted for that user, with some nonce and expiry, inside
      the window of that expiry. */
  lemma AcceptedIffMinted(mac: (Bytes, Bytes) -> ShortMac, user: Bytes, challenge: Bytes, now: int)
    ensures Check(mac, user, challenge, now) <==>
      exists nonce: Bytes, exp: nat :: IsMinted(mac, user, challenge, nonce, exp) && now <= exp <= now + 120
  {
    if Check(mac, user, challenge, now) {
      var nonce, exp := challenge[..8], FromBigEndian(challenge[8..12]);
      FromBigEndianBound(challenge[8..12]);
      BigEndianInverse(challenge[8..12]);
      assert challenge[..12] == nonce + BigEndian(exp, 4);
      assert challenge == challenge[..12] + challenge[12..];
      assert IsMinted(mac, user, challenge, nonce, exp);
    }
    if nonce: Bytes, exp: nat :| IsMinted(mac, user, challenge, nonce, exp) && now <= exp <= now + 120 {
      BigEndianRoundTrip(exp, 4);
      var body := nonce + BigEndian(exp, 4);
      assert challenge[..12] == body && challenge[12..] == mac(user, body) && challenge[8..12] == BigEndian(exp, 4);
    }
  }

  /** Eight bytes of nonce, four of expiry, and the MAC of the user and those twelve. */
  predicate IsMinted(mac: (Bytes, Bytes) -> ShortMac, user: Bytes, challenge: Bytes, nonce: Bytes, exp: nat) {
    |nonce| == 8 && exp < Pow256(4) &&
    challenge == nonce + BigEndian(exp, 4) + mac(user, nonce + BigEndian(exp, 4))
  }
}
