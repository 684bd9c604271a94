/** Two honest parties running ratchet.rs over a network that may drop, reorder and duplicate. The
    i-th ratchet key made in a run starts chain i: Bob's prekey is key 0, Alice's first key is key 1,
    and from then on the owners alternate. */
module RatchetProtocol {
  import opened ByteStrings
  import opened Results
  import opened Pqxdh
  import opened Ratchet
  import opened Hiding

  // ---------- the chains of a run ----------

  /** A message is named by its chain and its number in that chain. */
  datatype Name = Name(chain: nat, n: nat)

  /** What has happened: the ratchet keys in order, how many messages each chain has carried, and
      which messages have been decrypted. */
  datatype History = History(secret: SharedSecret, keys: seq<KeyId>, counts: seq<nat>, got: set<Name>)

  function RootAt(h: History, i: nat): RootKey
    requires i < |h.keys|
  {
    if i == 0 then Initial(h.secret) else NextRoot(RootAt(h, i - 1), DH(h.keys[i - 1], h.keys[i]))
  }

  function ChainAt(h: History, i: nat): ChainKey
    requires 1 <= i < |h.keys|
  {
    FirstChain(RootAt(h, i - 1), DH(h.keys[i - 1], h.keys[i]))
  }

  /** The key the owner of a chain derives for a message. */
  function KeyOf(h: History, m: Name): MessageKey
    requires 1 <= m.chain < |h.keys|
  {
    MessageKey(Advance(ChainAt(h, m.chain), m.n))
  }

  // ---------- distinct messages have distinct keys ----------

  function Depth(rk: RootKey): nat { match rk case Initial(_) => 0 case NextRoot(r, _) => 1 + Depth(r) }
  function Steps(ck: ChainKey): nat { match ck case FirstChain(_, _) => 0 case NextChain(c) => 1 + Steps(c) }
  function Origin(ck: ChainKey): ChainKey { match ck case FirstChain(_, _) => ck case NextChain(c) => Origin(c) }

  lemma {:induction false} RootDepth(h: History, i: nat)
    requires i < |h.keys|
    ensures Depth(RootAt(h, i)) == i
  {
    if i > 0 { RootDepth(h, i - 1); }
  }

  lemma {:induction false} AdvanceCounts(ck: ChainKey, n: nat)
    ensures Steps(Advance(ck, n)) == Steps(ck) + n && Origin(Advance(ck, n)) == Origin(ck)
  {
    if n > 0 { AdvanceCounts(ck, n - 1); }
  }

  lemma {:induction false} AdvanceAdds(ck: ChainKey, m: nat, n: nat)
    ensures Advance(Advance(ck, m), n) == Advance(ck, m + n)
    decreases n
  {
    if n > 0 { AdvanceAdds(ck, m, n - 1); }
  }

  lemma KeysDistinct(h: History, a: Name, b: Name)
    requires 1 <= a.chain < |h.keys| && 1 <= b.chain < |h.keys|
    ensures KeyOf(h, a) == KeyOf(h, b) <==> a == b
  {
    AdvanceCounts(ChainAt(h, a.chain), a.n);
    AdvanceCounts(ChainAt(h, b.chain), b.n);
    RootDepth(h, a.chain - 1);
    RootDepth(h, b.chain - 1);
  }

  lemma {:induction false} RootPrefix(h: History, t: History, i: nat)
    requires h.secret == t.secret && h.keys <= t.keys && i < |h.keys|
    ensures RootAt(t, i) == RootAt(h, i)
  {
    if i > 0 { RootPrefix(h, t, i - 1); }
  }

  lemma ChainPrefix(h: History, t: History, i: nat)
    requires h.secret == t.secret && h.keys <= t.keys && 1 <= i < |h.keys|
    ensures ChainAt(t, i) == ChainAt(h, i)
  {
    RootPrefix(h, t, i - 1);
  }

  // ---------- one party's state, given the history ----------

  ghost predicate ValidHistory(h: History) {
    |h.keys| == |h.counts| >= 2 && h.counts[0] == 0
  }

  ghost predicate DistinctKeys(h: History) { forall i, j :: 0 <= i < j < |h.keys| ==> h.keys[i] != h.keys[j] }

  /** The party whose latest key is key s receives the chains s-1, s-3, ... . */
  predicate Receives(s: nat, chain: nat) { 1 <= chain < s && (s - chain) % 2 == 1 }

  /** How far into a chain the receiver has come. */
  function Limit(st: SessionState, s: nat, h: History, chain: nat): nat
    requires chain < |h.counts|
  {
    if chain + 1 == s then st.nr else h.counts[chain]
  }

  /** A message passed over and not yet decrypted. */
  predicate Pending(st: SessionState, s: nat, h: History, m: Name)
    requires s <= |h.counts|
  {
    Receives(s, m.chain) && m.n < Limit(st, s, h, m.chain) && m !in h.got
  }

  /** The skipped map holds exactly the pending messages, each under the sender's own key. */
  ghost predicate SkippedOk(st: SessionState, s: nat, h: History)
    requires s < |h.keys| == |h.counts|
  {
    && (forall c: nat, n: nat :: c < |h.keys| ==> ((h.keys[c], n) in st.skipped <==> Pending(st, s, h, Name(c, n))))
    && (forall c: nat, n: nat :: c < |h.keys| && (h.keys[c], n) in st.skipped ==>
          1 <= c && st.skipped[(h.keys[c], n)] == KeyOf(h, Name(c, n)))
    && (forall k, n :: (k, n) in st.skipped ==> k in h.keys)
  }

  ghost predicate PartyInv(st: SessionState, s: nat, h: History) {
    && ValidHistory(h) && DistinctKeys(h) && s < |h.keys|
    && st.dhs == h.keys[s] && st.rk == RootAt(h, s)
    && st.dhr == (if s == 0 then None else Some(h.keys[s - 1]))
    && st.ns == h.counts[s] && st.cks == (if s == 0 then None else Some(Advance(ChainAt(h, s), st.ns)))
    && st.pn == (if s < 2 then 0 else h.counts[s - 2])
    && (if s < 2 then st.nr == 0 && st.ckr == None
        else st.nr <= h.counts[s - 1] && st.ckr == Some(Advance(ChainAt(h, s - 1), st.nr)))
    && SkippedOk(st, s, h)
    && (forall m :: m in h.got && (m.chain + s) % 2 == 1 ==> Receives(s, m.chain) && m.n < Limit(st, s, h, m.chain))
  }

  /** The part of the invariant that concerns neither chain keys nor the skipped map. */
  ghost predicate PartyFields(st: SessionState, s: nat, h: History) {
    && ValidHistory(h) && s < |h.keys|
    && st.dhs == h.keys[s] && st.dhr == (if s == 0 then None else Some(h.keys[s - 1]))
    && st.ns == h.counts[s] && st.pn == (if s < 2 then 0 else h.counts[s - 2])
    && (st.cks.Some? <==> s > 0)
    && (if s < 2 then st.nr == 0 && st.ckr.None? else st.nr <= h.counts[s - 1] && st.ckr.Some?)
  }

  /** The whole invariant, its larger part hidden. */
  ghost predicate PartyOk(st: SessionState, s: nat, h: History) {
    PartyFields(st, s, h) && forall k: nat :: Look(k) ==> PartyInv(st, s, h)
  }

  lemma SendingKey(st: SessionState, s: nat, h: History)
    requires PartyOk(st, s, h) && s > 0
    ensures MessageKey(st.cks.value) == KeyOf(h, Name(s, st.ns))
  {
    assert Look(0);
  }

  /** A message is in the skipped map exactly when it is pending. */
  lemma SlotIffPending(st: SessionState, s: nat, h: History, m: Name)
    requires PartyOk(st, s, h) && m.chain < |h.keys|
    ensures s < |h.keys| == |h.counts| && ((h.keys[m.chain], m.n) in st.skipped <==> Pending(st, s, h, m))
  {
    assert Look(0);
  }

  /** The header and ciphertext of a message that was sent. */
  ghost predicate SentAs(h: History, m: Name, header: Header, ct: Sealed, plaintext: Bytes)
    requires ValidHistory(h)
  {
    && 1 <= m.chain < |h.keys| && m.n < h.counts[m.chain] <= U32_MAX
    && header == Header(h.keys[m.chain], if m.chain < 2 then 0 else h.counts[m.chain - 2], m.n)
    && ct.mk == KeyOf(h, m) && ct.aad == header && Unpad(ct.padded) == Some(plaintext)
  }

  function Got(h: History, m: Name): History { h.(got := h.got + {m}) }

  // ---------- decrypting, case by case ----------

  lemma DecryptPending(st: SessionState, s: nat, h: History, m: Name, header: Header, ct: Sealed, plaintext: Bytes, newKey: KeyId)
    requires PartyOk(st, s, h) && SentAs(h, m, header, ct, plaintext) && Pending(st, s, h, m)
    ensures var after := st.(skipped := st.skipped - {(header.dhPub, header.n)});
            Decrypt(st, ct, header, newKey) == Success(Decrypted(plaintext, after)) && PartyOk(after, s, Got(h, m))
  {
    assert Look(0);
    var slot := (header.dhPub, header.n);
    var t, after := Got(h, m), st.(skipped := st.skipped - {slot});
    assert slot == (h.keys[m.chain], m.n) && slot in st.skipped;
    forall c: nat, n: nat | c < |t.keys|
      ensures (t.keys[c], n) in after.skipped <==> Pending(after, s, t, Name(c, n))
    {
      assert (h.keys[c], n) in st.skipped <==> Pending(st, s, h, Name(c, n));
      assert (h.keys[c], n) == slot <==> Name(c, n) == m;
    }
    RootPrefix(h, t, s);
    SameChains(h, t);
  }

  lemma SameChains(h: History, t: History)
    requires h.secret == t.secret && h.keys <= t.keys
    ensures forall i :: 1 <= i < |h.keys| ==> ChainAt(t, i) == ChainAt(h, i)
  {
    forall i | 1 <= i < |h.keys| ensures ChainAt(t, i) == ChainAt(h, i) {
      ChainPrefix(h, t, i);
    }
  }

  lemma SkippedSlot(st: SessionState, s: nat, h: History, until: nat, c: nat, n: nat)
    requires ValidHistory(h) && DistinctKeys(h) && 2 <= s < |h.keys| && SkippedOk(st, s, h)
    requires st.dhr == Some(h.keys[s - 1]) && st.ckr == Some(Advance(ChainAt(h, s - 1), st.nr))
    requires forall m :: m in h.got && m.chain == s - 1 ==> m.n < st.nr
    requires st.nr < until && c < |h.keys|
    ensures var after := SkipTo(st, until);
            ((h.keys[c], n) in after.skipped <==> Pending(after, s, h, Name(c, n))) &&
            ((h.keys[c], n) in after.skipped ==> 1 <= c && after.skipped[(h.keys[c], n)] == KeyOf(h, Name(c, n)))
  {
    InKeysBetween(h.keys[s - 1], Advance(ChainAt(h, s - 1), st.nr), st.nr, until, h.keys[c], n);
    assert (h.keys[c], n) in st.skipped <==> Pending(st, s, h, Name(c, n));
    if c == s - 1 && st.nr <= n < until {
      AdvanceAdds(ChainAt(h, c), st.nr, n - st.nr);
    }
  }

  lemma SkipKeepsSkipped(st: SessionState, s: nat, h: History, until: nat)
    requires PartyInv(st, s, h) && s >= 2 && st.nr < until <= h.counts[s - 1]
    ensures SkippedOk(SkipTo(st, until), s, h)
  {
    assert (s - 1 + s) % 2 == 1;
    forall c: nat, n: nat | c < |h.keys|
      ensures ((h.keys[c], n) in SkipTo(st, until).skipped <==> Pending(SkipTo(st, until), s, h, Name(c, n)))
      ensures (h.keys[c], n) in SkipTo(st, until).skipped ==>
                1 <= c && SkipTo(st, until).skipped[(h.keys[c], n)] == KeyOf(h, Name(c, n))
    {
      SkippedSlot(st, s, h, until, c, n);
    }
    forall k, n | (k, n) in SkipTo(st, until).skipped ensures k in h.keys {
      InKeysBetween(h.keys[s - 1], st.ckr.value, st.nr, until, k, n);
    }
  }

  lemma SkipKeepsInv(st: SessionState, s: nat, h: History, until: nat)
    requires PartyInv(st, s, h) && s >= 2 && st.nr <= until <= h.counts[s - 1]
    ensures PartyInv(SkipTo(st, until), s, h)
  {
    if until > st.nr {
      SkipKeepsSkipped(st, s, h, until);
      AdvanceAdds(ChainAt(h, s - 1), st.nr, until - st.nr);
    }
  }

  /** Skipping within the current chain keeps the invariant: the messages passed over become pending. */
  lemma SkipKeeps(st: SessionState, s: nat, h: History, until: nat)
    requires PartyOk(st, s, h) && s >= 2 && st.nr <= until <= h.counts[s - 1]
    ensures PartyOk(SkipTo(st, until), s, h) && SkipTo(st, until).nr == until
  {
    assert PartyInv(SkipTo(st, until), s, h) by {
      assert Look(0);
      SkipKeepsInv(st, s, h, until);
    }
  }

  /** The state after the next message of the current chain. */
  function Received(st: SessionState): SessionState
    requires st.ckr.Some?
  {
    st.(ckr := Some(NextChain(st.ckr.value)), nr := st.nr + 1)
  }

  lemma ReceiveKeeps(st: SessionState, s: nat, h: History)
    requires PartyOk(st, s, h) && s >= 2 && st.nr < h.counts[s - 1]
    ensures MessageKey(st.ckr.value) == KeyOf(h, Name(s - 1, st.nr))
    ensures PartyOk(Received(st), s, Got(h, Name(s - 1, st.nr)))
  {
    assert Look(0);
    var m := Name(s - 1, st.nr);
    var t, after := Got(h, m), Received(st);
    forall c: nat, n: nat | c < |t.keys|
      ensures (t.keys[c], n) in after.skipped <==> Pending(after, s, t, Name(c, n))
    {
      assert (h.keys[c], n) in st.skipped <==> Pending(st, s, h, Name(c, n));
    }
    RootPrefix(h, t, s);
    SameChains(h, t);
  }

  function Extended(h: History, newKey: KeyId): History { h.(keys := h.keys + [newKey], counts := h.counts + [0]) }

  lemma RatchetSlot(st: SessionState, s: nat, h: History, header: Header, newKey: KeyId, c: nat, n: nat)
    requires PartyInv(st, s, h) && s + 2 == |h.keys| && newKey !in h.keys && c <= |h.keys|
    requires s < 2 || st.nr == h.counts[s - 1]
    ensures var t, after := Extended(h, newKey), DhRatchet(st, header, newKey);
            ((t.keys[c], n) in after.skipped <==> Pending(after, s + 2, t, Name(c, n))) &&
            ((t.keys[c], n) in after.skipped ==> 1 <= c && after.skipped[(t.keys[c], n)] == KeyOf(t, Name(c, n)))
  {
    if c < |h.keys| {
      assert (h.keys[c], n) in st.skipped <==> Pending(st, s, h, Name(c, n));
      if c >= 1 {
        ChainPrefix(h, Extended(h, newKey), c);
      }
    }
  }

  lemma RatchetKeepsInv(st: SessionState, s: nat, h: History, header: Header, newKey: KeyId)
    requires PartyInv(st, s, h) && s + 2 == |h.keys| && header.dhPub == h.keys[s + 1] && newKey !in h.keys
    requires s < 2 || st.nr == h.counts[s - 1]
    ensures PartyInv(DhRatchet(st, header, newKey), s + 2, Extended(h, newKey))
  {
    var t, after := Extended(h, newKey), DhRatchet(st, header, newKey);
    RootPrefix(h, t, s);
    assert RootAt(t, s + 1) == NextRoot(RootAt(t, s), DH(h.keys[s], h.keys[s + 1]));
    assert DH(newKey, h.keys[s + 1]) == DH(h.keys[s + 1], newKey);
    forall c: nat, n: nat | c < |t.keys|
      ensures (t.keys[c], n) in after.skipped <==> Pending(after, s + 2, t, Name(c, n))
      ensures (t.keys[c], n) in after.skipped ==> 1 <= c && after.skipped[(t.keys[c], n)] == KeyOf(t, Name(c, n))
    {
      RatchetSlot(st, s, h, header, newKey, c, n);
    }
  }

  /** The Diffie-Hellman step, once the old chain is used up, moves the party two keys on. */
  lemma RatchetKeeps(st: SessionState, s: nat, h: History, header: Header, newKey: KeyId)
    requires PartyOk(st, s, h) && s + 2 == |h.keys| && header.dhPub == h.keys[s + 1] && newKey !in h.keys
    requires s < 2 || st.nr == h.counts[s - 1]
    ensures PartyOk(DhRatchet(st, header, newKey), s + 2, Extended(h, newKey))
  {
    assert PartyInv(DhRatchet(st, header, newKey), s + 2, Extended(h, newKey)) by {
      assert Look(0);
      RatchetKeepsInv(st, s, h, header, newKey);
    }
  }

  // ---------- which messages decrypt ----------

  /** What the skip bound asks of the chain gaps before a message, in terms of the receiver's state. */
  predicate WithinSkip(st: SessionState, header: Header) {
    || (header.dhPub, header.n) in st.skipped
    || (if st.dhr == Some(header.dhPub) then header.n <= st.nr + MAX_SKIP
        else (st.ckr.Some? ==> header.pn <= st.nr + MAX_SKIP) && header.n <= MAX_SKIP)
  }

  /** The message number m of the current chain, not pending and not yet reached. */
  lemma DecryptAhead(st: SessionState, s: nat, h: History, m: Name, header: Header, ct: Sealed, plaintext: Bytes, newKey: KeyId)
    requires PartyOk(st, s, h) && SentAs(h, m, header, ct, plaintext)
    requires m.chain + 1 == s && st.nr <= m.n
    ensures header.n <= st.nr + MAX_SKIP ==>
              Decrypt(st, ct, header, newKey) == Success(Decrypted(plaintext, Received(SkipTo(st, m.n)))) &&
              PartyOk(Received(SkipTo(st, m.n)), s, Got(h, m))
    ensures header.n > st.nr + MAX_SKIP ==> Decrypt(st, ct, header, newKey) == Failure(TooManySkipped)
  {
    SlotIffPending(st, s, h, m);
    if header.n <= st.nr + MAX_SKIP {
      SkipKeeps(st, s, h, m.n);
      ReceiveKeeps(SkipTo(st, m.n), s, h);
    }
  }

  /** A new ratchet key: the old chain is flushed, then the party moves two keys on. */
  lemma FlushAndRatchet(st: SessionState, s: nat, h: History, header: Header, newKey: KeyId)
    returns (flushed: SessionState)
    requires PartyOk(st, s, h) && s + 2 == |h.keys| && newKey !in h.keys
    requires header.dhPub == h.keys[s + 1] && header.pn == (if s < 1 then 0 else h.counts[s - 1]) <= U32_MAX
    ensures st.ckr.None? || header.pn <= st.nr + MAX_SKIP ==>
              SkipRecv(st, header.pn) == Success(flushed) &&
              PartyOk(DhRatchet(flushed, header, newKey), s + 2, Extended(h, newKey))
    ensures st.ckr.Some? && header.pn > st.nr + MAX_SKIP ==> SkipRecv(st, header.pn) == Failure(TooManySkipped)
  {
    flushed := if s < 2 then st else SkipTo(st, header.pn);
    if st.ckr.None? || header.pn <= st.nr + MAX_SKIP {
      if s >= 2 {
        SkipKeeps(st, s, h, header.pn);
      }
      RatchetKeeps(flushed, s, h, header, newKey);
    }
  }

  /** The first message received from a new chain. */
  lemma DecryptNewChain(st: SessionState, s: nat, h: History, m: Name, header: Header, ct: Sealed, plaintext: Bytes, newKey: KeyId)
    returns (after: SessionState)
    requires PartyOk(st, s, h) && SentAs(h, m, header, ct, plaintext)
    requires m.chain == s + 1 && s + 2 == |h.keys| && newKey !in h.keys && header.pn <= U32_MAX
    ensures WithinSkip(st, header) ==>
              Decrypt(st, ct, header, newKey) == Success(Decrypted(plaintext, after)) &&
              PartyOk(after, s + 2, Got(Extended(h, newKey), m))
    ensures !WithinSkip(st, header) ==> Decrypt(st, ct, header, newKey) == Failure(TooManySkipped)
  {
    NewChainIsNew(st, s, h, m, header);
    var flushed := FlushAndRatchet(st, s, h, header, newKey);
    after := st;
    if st.ckr.None? || header.pn <= st.nr + MAX_SKIP {
      after := DecryptRatcheted(DhRatchet(flushed, header, newKey), s + 2, h, Extended(h, newKey), m, header, ct, plaintext);
      OpensAfterRatchet(st, header, ct, plaintext, newKey, flushed);
    }
  }

  lemma NewChainIsNew(st: SessionState, s: nat, h: History, m: Name, header: Header)
    requires PartyOk(st, s, h) && m.chain == s + 1 < |h.keys| && header.dhPub == h.keys[s + 1] && header.n == m.n
    ensures (header.dhPub, header.n) !in st.skipped && st.dhr != Some(header.dhPub)
  {
    assert Look(0);
    SlotIffPending(st, s, h, m);
  }

  /** Decryption of a message from an unknown ratchet key, unfolded. */
  lemma OpensAfterRatchet(st: SessionState, header: Header, ct: Sealed, plaintext: Bytes, newKey: KeyId, flushed: SessionState)
    requires (header.dhPub, header.n) !in st.skipped && st.dhr != Some(header.dhPub)
    requires SkipRecv(st, header.pn) == Success(flushed) && ct.aad == header && Unpad(ct.padded) == Some(plaintext)
    ensures var reached := SkipRecv(DhRatchet(flushed, header, newKey), header.n);
            (reached.Failure? ==> Decrypt(st, ct, header, newKey) == Failure(reached.error)) &&
            (reached.Success? && reached.value.ckr.Some? && MessageKey(reached.value.ckr.value) == ct.mk ==>
               Decrypt(st, ct, header, newKey) == Success(Decrypted(plaintext, Received(reached.value))))
  {}

  /** What follows the ratchet step: skip to the message and open it. */
  lemma DecryptRatcheted(st: SessionState, s: nat, h: History, t: History, m: Name, header: Header, ct: Sealed, plaintext: Bytes)
    returns (after: SessionState)
    requires PartyOk(st, s, t) && ValidHistory(h) && SentAs(h, m, header, ct, plaintext)
    requires h.secret == t.secret && h.keys <= t.keys && h.counts <= t.counts && m.chain + 1 == s && st.nr == 0
    ensures header.n <= MAX_SKIP ==>
              var skipped := SkipRecv(st, header.n);
              skipped.Success? && skipped.value.ckr.Some? && after == Received(skipped.value) &&
              MessageKey(skipped.value.ckr.value) == ct.mk && PartyOk(after, s, Got(t, m))
    ensures header.n > MAX_SKIP ==> SkipRecv(st, header.n) == Failure(TooManySkipped)
  {
    after := st;
    if header.n <= MAX_SKIP {
      assert m.n < h.counts[m.chain] == t.counts[m.chain];
      SkipKeeps(st, s, t, m.n);
      ReceiveKeeps(SkipTo(st, m.n), s, t);
      ChainPrefix(h, t, m.chain);
      after := Received(SkipTo(st, m.n));
    }
  }

  /** The key derived for a message decrypted before is not the key it was sealed under. */
  lemma ReplayKeyDiffers(st: SessionState, s: nat, h: History, m: Name, header: Header, newKey: KeyId)
    requires PartyInv(st, s, h) && Receives(s, m.chain) && m.n < Limit(st, s, h, m.chain)
    requires header.dhPub == h.keys[m.chain] && header.n == m.n
    ensures ReceiveKey(st, header, newKey).Success? ==> ReceiveKey(st, header, newKey).value.0 != KeyOf(h, m)
  {
    AdvanceCounts(ChainAt(h, m.chain), m.n);
    RootDepth(h, m.chain - 1);
    RootDepth(h, s);
    if m.chain + 1 == s {
      AdvanceCounts(ChainAt(h, s - 1), st.nr);
    } else if SkipRecv(st, header.pn).Success? {
      var flushed := SkipRecv(st, header.pn).value;
      AdvanceCounts(DhRatchet(flushed, header, newKey).ckr.value, m.n);
    }
  }

  /** A message decrypted before never decrypts again. */
  lemma DecryptReplay(st: SessionState, s: nat, h: History, m: Name, header: Header, ct: Sealed, plaintext: Bytes, newKey: KeyId)
    requires PartyOk(st, s, h) && SentAs(h, m, header, ct, plaintext)
    requires m in h.got && (m.chain + s) % 2 == 1
    ensures Decrypt(st, ct, header, newKey) in {Failure(AuthFailed), Failure(TooManySkipped)}
  {
    SlotIffPending(st, s, h, m);
    assert ReceiveKey(st, header, newKey).Success? ==> ReceiveKey(st, header, newKey).value.0 != ct.mk by {
      assert Look(0);
      ReplayKeyDiffers(st, s, h, m, header, newKey);
    }
    assert st.ckr.Some? by {
      assert Look(0);
    }
  }

  // ---------- the two parties and the network ----------

  datatype Party = Alice | Bob
  datatype Sent = Sent(header: Header, ct: Sealed, plaintext: Bytes)

  /** `idx` is the number of the party's latest ratchet key. The network keeps every message ever
      sent, and may deliver any of them, in any order, any number of times, or never. */
  datatype Side = Side(st: SessionState, idx: nat)
  datatype System = System(alice: Side, bob: Side, hist: History, sent: map<Name, Sent>)

  function Get(y: System, p: Party): Side { if p == Alice then y.alice else y.bob }
  function Put(y: System, p: Party, side: Side): System {
    if p == Alice then y.(alice := side) else y.(bob := side)
  }
  function Other(p: Party): Party { if p == Alice then Bob else Alice }

  /** Sessions opened with the secrets of a matching PQXDH exchange. */
  ghost predicate Init(y: System) {
    exists ikA, ekA, coins, b: Bundle, first ::
      StartsFrom(y, ikA, ekA, coins, b, first)
  }

  ghost predicate StartsFrom(y: System, ikA: KeyId, ekA: KeyId, coins: nat, b: Bundle, first: KeyId) {
    var (secret, msg) := Initiate(ikA, ekA, coins, b);
    var answer := Respond(msg, b.ik, b.spk, b.opk, b.kem);
    && first != b.spk && answer.Some?
    && y.alice == Side(InitAlice(secret, b.spk, first), 1)
    && y.bob == Side(InitBob(answer.value, b.spk), 0)
    && y.hist == History(secret, [b.spk, first], [0, 0], {}) && y.sent == map[]
  }

  datatype Event = Send(p: Party, plaintext: Bytes, padding: Bytes) | Deliver(p: Party, m: Name, newKey: KeyId)

  predicate AddressedTo(y: System, p: Party, m: Name) { m in y.sent && (m.chain + Get(y, p).idx) % 2 == 1 }

  function AfterSend(y: System, p: Party, plaintext: Bytes, e: Encrypted): System
    requires Get(y, p).idx < |y.hist.counts|
  {
    var side := Get(y, p);
    Put(y, p, side.(st := e.st)).(
      hist := y.hist.(counts := y.hist.counts[side.idx := y.hist.counts[side.idx] + 1]),
      sent := y.sent[Name(side.idx, side.st.ns) := Sent(e.header, e.ct, plaintext)])
  }

  /** The receiver stores the new state; a changed key pair is the next key of the run. */
  function AfterDecrypt(y: System, p: Party, m: Name, d: Decrypted, newKey: KeyId): System {
    var side := Get(y, p);
    if d.st.dhs == side.st.dhs then Put(y, p, side.(st := d.st)).(hist := Got(y.hist, m))
    else Put(y, p, Side(d.st, |y.hist.keys|)).(hist := Got(Extended(y.hist, newKey), m))
  }

  ghost predicate Step(y: System, z: System, e: Event) {
    match e
    case Send(p, plaintext, padding) =>
      var r := Encrypt(Get(y, p).st, plaintext, padding);
      Get(y, p).st.ns < U32_MAX && |plaintext| <= U32_MAX && Get(y, p).idx < |y.hist.counts| &&
      z == if r.Failure? then y else AfterSend(y, p, plaintext, r.value)
    case Deliver(p, m, newKey) =>
      AddressedTo(y, p, m) && newKey !in y.hist.keys &&
      var r := Decrypt(Get(y, p).st, y.sent[m].ct, y.sent[m].header, newKey);
      z == if r.Failure? then y else AfterDecrypt(y, p, m, r.value, newKey)
  }

  // ---------- the invariant ----------

  ghost predicate SentOk(h: History, sent: map<Name, Sent>)
    requires ValidHistory(h)
  {
    && (forall m :: m in sent <==> 1 <= m.chain < |h.keys| && m.n < h.counts[m.chain])
    && (forall m :: m in sent ==> SentAs(h, m, sent[m].header, sent[m].ct, sent[m].plaintext))
    && (forall i :: 0 <= i < |h.counts| ==> h.counts[i] <= U32_MAX)
  }

  /** Hidden, as in `PartyOk`. */
  ghost predicate SentLog(h: History, sent: map<Name, Sent>) {
    ValidHistory(h) && forall k: nat :: Look(k) ==> SentOk(h, sent)
  }

  lemma SentFacts(h: History, sent: map<Name, Sent>, m: Name)
    requires SentLog(h, sent) && m in sent
    ensures SentAs(h, m, sent[m].header, sent[m].ct, sent[m].plaintext)
    ensures sent[m].header.pn <= U32_MAX
  {
    assert Look(0);
  }

  /** The two latest keys belong to the two parties. */
  predicate Alternate(a: nat, b: nat, n: nat) { a < n && b < n && n >= 2 && a + b + 3 == 2 * n && (a + 1 == b || b + 1 == a) }

  ghost predicate Inv(y: System) {
    && ValidHistory(y.hist)
    && PartyOk(y.alice.st, y.alice.idx, y.hist)
    && PartyOk(y.bob.st, y.bob.idx, y.hist)
    && Alternate(y.alice.idx, y.bob.idx, |y.hist.keys|)
    && SentLog(y.hist, y.sent)
  }

  lemma InitHolds(y: System)
    requires Init(y)
    ensures Inv(y)
  {
    assert Look(0);
    var ikA, ekA, coins, b: Bundle, first :| StartsFrom(y, ikA, ekA, coins, b, first);
    SecretsAgreeIff(ikA, ekA, coins, b, b.ik, b.spk, b.opk, b.kem);
    var h := y.hist;
    assert DH(first, b.spk) == DH(b.spk, first);
    assert RootAt(h, 0) == Initial(h.secret);
    assert RootAt(h, 1) == NextRoot(RootAt(h, 0), DH(b.spk, first));
    assert Advance(ChainAt(h, 1), 0) == ChainAt(h, 1);
  }

  // ---------- what one party's move leaves alone for the other ----------

  lemma GotElsewhere(st: SessionState, s: nat, h: History, m: Name)
    requires PartyOk(st, s, h) && (m.chain + s) % 2 == 0
    ensures PartyOk(st, s, Got(h, m))
  {
    assert Look(0);
    var t := Got(h, m);
    RootPrefix(h, t, s);
    SameChains(h, t);
    forall c: nat, n: nat | c < |h.keys| ensures (t.keys[c], n) in st.skipped <==> Pending(st, s, t, Name(c, n)) {
      assert (h.keys[c], n) in st.skipped <==> Pending(st, s, h, Name(c, n));
    }
  }

  lemma ExtendElsewhere(st: SessionState, s: nat, h: History, newKey: KeyId)
    requires PartyOk(st, s, h) && newKey !in h.keys
    ensures PartyOk(st, s, Extended(h, newKey))
  {
    assert Look(0);
    var t := Extended(h, newKey);
    RootPrefix(h, t, s);
    SameChains(h, t);
    forall c: nat, n: nat | c < |t.keys|
      ensures (t.keys[c], n) in st.skipped <==> Pending(st, s, t, Name(c, n))
      ensures (t.keys[c], n) in st.skipped ==> 1 <= c && st.skipped[(t.keys[c], n)] == KeyOf(t, Name(c, n))
    {
      if c < |h.keys| {
        assert (h.keys[c], n) in st.skipped <==> Pending(st, s, h, Name(c, n));
      }
    }
  }

  function Counted(h: History, i: nat): History
    requires i < |h.counts|
  {
    h.(counts := h.counts[i := h.counts[i] + 1])
  }

  lemma CountElsewhere(st: SessionState, s: nat, h: History, i: nat)
    requires PartyOk(st, s, h) && i < |h.counts| && (i + 1 == s || i == s + 1) && i > 0
    ensures PartyOk(st, s, Counted(h, i))
  {
    assert Look(0);
    var t := Counted(h, i);
    RootPrefix(h, t, s);
    SameChains(h, t);
    forall c: nat, n: nat | c < |h.keys| ensures (t.keys[c], n) in st.skipped <==> Pending(st, s, t, Name(c, n)) {
      assert (h.keys[c], n) in st.skipped <==> Pending(st, s, h, Name(c, n));
    }
  }

  // ---------- every step keeps the invariant ----------

  lemma SentCounted(h: History, sent: map<Name, Sent>, i: nat, m: Name)
    requires ValidHistory(h) && SentOk(h, sent) && i < |h.keys| <= i + 2 && i > 0 && m in sent && h.counts[i] < U32_MAX
    ensures ValidHistory(Counted(h, i)) && SentAs(Counted(h, i), m, sent[m].header, sent[m].ct, sent[m].plaintext)
  {
    ChainPrefix(h, Counted(h, i), m.chain);
  }

  lemma SendKeepsParty(st: SessionState, s: nat, h: History, e: Encrypted)
    requires PartyOk(st, s, h) && s > 0 && e.st == st.(cks := Some(NextChain(st.cks.value)), ns := st.ns + 1)
    ensures PartyOk(e.st, s, Counted(h, s))
  {
    assert Look(0);
    var t := Counted(h, s);
    RootPrefix(h, t, s);
    SameChains(h, t);
    forall c: nat, n: nat | c < |h.keys| ensures (t.keys[c], n) in e.st.skipped <==> Pending(e.st, s, t, Name(c, n)) {
      assert (h.keys[c], n) in st.skipped <==> Pending(st, s, h, Name(c, n));
    }
  }

  /** The invariant, seen from either side. */
  lemma Assemble(y: System, p: Party)
    requires PartyOk(Get(y, p).st, Get(y, p).idx, y.hist) && PartyOk(Get(y, Other(p)).st, Get(y, Other(p)).idx, y.hist)
    requires Alternate(Get(y, p).idx, Get(y, Other(p)).idx, |y.hist.keys|) && SentLog(y.hist, y.sent)
    ensures Inv(y)
  {}

  lemma SendKeepsSent(h: History, sent: map<Name, Sent>, i: nat, e: Sent)
    requires SentLog(h, sent) && 0 < i < |h.keys| <= i + 2 && h.counts[i] < U32_MAX
    requires e.header == Header(h.keys[i], if i < 2 then 0 else h.counts[i - 2], h.counts[i])
    requires e.ct.mk == KeyOf(h, Name(i, h.counts[i])) && e.ct.aad == e.header && Unpad(e.ct.padded) == Some(e.plaintext)
    ensures SentLog(Counted(h, i), sent[Name(i, h.counts[i]) := e])
  {
    assert Look(0);
    var t, m := Counted(h, i), Name(i, h.counts[i]);
    var after := sent[m := e];
    ChainPrefix(h, t, i);
    forall k | k in after ensures SentAs(t, k, after[k].header, after[k].ct, after[k].plaintext) {
      if k != m {
        SentCounted(h, sent, i, k);
      }
    }
  }

  lemma SendKeeps(y: System, z: System, p: Party, plaintext: Bytes, padding: Bytes)
    requires Inv(y) && Step(y, z, Send(p, plaintext, padding))
    ensures Inv(z)
  {
    var side, other, h := Get(y, p), Get(y, Other(p)), y.hist;
    var r := Encrypt(side.st, plaintext, padding);
    if r.Success? {
      var e := r.value;
      SendingKey(side.st, side.idx, h);
      SendKeepsParty(side.st, side.idx, h, e);
      CountElsewhere(other.st, other.idx, h, side.idx);
      UnpadPad(plaintext, padding);
      SendKeepsSent(h, y.sent, side.idx, Sent(e.header, e.ct, plaintext));
      assert Get(z, p) == side.(st := e.st) && Get(z, Other(p)) == other;
      Assemble(z, p);
    }
  }

  lemma SentElsewhere(h: History, t: History, sent: map<Name, Sent>)
    requires SentLog(h, sent) && ValidHistory(t) && t.secret == h.secret
    requires (t.keys == h.keys && t.counts == h.counts) ||
             (|t.keys| == |h.keys| + 1 && h.keys <= t.keys && h.counts <= t.counts && t.counts[|h.keys|] == 0)
    ensures SentLog(t, sent)
  {
    assert Look(0);
    forall m | m in sent ensures SentAs(t, m, sent[m].header, sent[m].ct, sent[m].plaintext) {
      ChainPrefix(h, t, m.chain);
    }
  }

  /** What delivering m to p should do: decrypt exactly when it has not been decrypted before and the
      gaps are within the bound, give the plaintext sent, and keep the invariant. */
  ghost predicate Delivers(y: System, p: Party, m: Name, newKey: KeyId)
    requires m in y.sent
  {
    var side, msg := Get(y, p), y.sent[m];
    var r := Decrypt(side.st, msg.ct, msg.header, newKey);
    (r.Success? <==> m !in y.hist.got && WithinSkip(side.st, msg.header)) &&
    (r.Failure? ==> r.error == TooManySkipped || (r.error == AuthFailed && m in y.hist.got)) &&
    (r.Success? ==> r.value.plaintext == msg.plaintext && Inv(AfterDecrypt(y, p, m, r.value, newKey)))
  }

  lemma OtherSideUntouched(q: Side, h: History, m: Name, newKey: KeyId)
    requires PartyOk(q.st, q.idx, h) && newKey !in h.keys && (m.chain + q.idx) % 2 == 0
    ensures PartyOk(q.st, q.idx, Got(Extended(h, newKey), m))
  {
    ExtendElsewhere(q.st, q.idx, h, newKey);
    GotElsewhere(q.st, q.idx, Extended(h, newKey), m);
  }

  lemma NewChainAssembled(y: System, p: Party, m: Name, newKey: KeyId, after: SessionState)
    requires Inv(y) && AddressedTo(y, p, m) && newKey !in y.hist.keys && m.chain == Get(y, p).idx + 1
    requires PartyOk(after, Get(y, p).idx + 2, Got(Extended(y.hist, newKey), m))
    ensures Inv(AfterDecrypt(y, p, m, Decrypted(y.sent[m].plaintext, after), newKey))
  {
    var side, q, h := Get(y, p), Get(y, Other(p)), y.hist;
    var t := Extended(h, newKey);
    var z := AfterDecrypt(y, p, m, Decrypted(y.sent[m].plaintext, after), newKey);
    SentFacts(h, y.sent, m);
    OtherSideUntouched(q, h, m, newKey);
    SentElsewhere(h, Got(t, m), y.sent);
    NewKeyPair(side, h, newKey, after, Got(t, m));
    assert Get(z, p) == Side(after, |h.keys|) && Get(z, Other(p)) == q && z.hist == Got(t, m);
    Assemble(z, p);
  }

  lemma NewKeyPair(side: Side, h: History, newKey: KeyId, after: SessionState, t: History)
    requires PartyOk(side.st, side.idx, h) && PartyOk(after, side.idx + 2, t) && newKey !in h.keys
    requires t.keys == h.keys + [newKey] && side.idx + 2 == |h.keys|
    ensures after.dhs != side.st.dhs
  {}

  lemma DeliverNewChain(y: System, p: Party, m: Name, newKey: KeyId)
    requires Inv(y) && AddressedTo(y, p, m) && newKey !in y.hist.keys
    requires m !in y.hist.got && m.chain == Get(y, p).idx + 1
    ensures Delivers(y, p, m, newKey)
  {
    var side, msg := Get(y, p), y.sent[m];
    SentFacts(y.hist, y.sent, m);
    var after := DecryptNewChain(side.st, side.idx, y.hist, m, msg.header, msg.ct, msg.plaintext, newKey);
    if WithinSkip(side.st, msg.header) {
      NewChainAssembled(y, p, m, newKey, after);
    }
  }

  lemma DeliverKnownChain(y: System, p: Party, m: Name, newKey: KeyId, after: SessionState)
    requires Inv(y) && AddressedTo(y, p, m)
    requires PartyOk(after, Get(y, p).idx, Got(y.hist, m))
    ensures Inv(AfterDecrypt(y, p, m, Decrypted(y.sent[m].plaintext, after), newKey))
  {
    var side, q, h := Get(y, p), Get(y, Other(p)), y.hist;
    var z := AfterDecrypt(y, p, m, Decrypted(y.sent[m].plaintext, after), newKey);
    GotElsewhere(q.st, q.idx, h, m);
    SentElsewhere(h, Got(h, m), y.sent);
    assert Get(z, p) == side.(st := after) && Get(z, Other(p)) == q && z.hist == Got(h, m);
    Assemble(z, p);
  }

  lemma DeliverOldChain(y: System, p: Party, m: Name, newKey: KeyId)
    requires Inv(y) && AddressedTo(y, p, m) && m !in y.hist.got && Receives(Get(y, p).idx, m.chain)
    ensures Delivers(y, p, m, newKey)
  {
    var st, s, h, msg := Get(y, p).st, Get(y, p).idx, y.hist, y.sent[m];
    SentFacts(h, y.sent, m);
    SlotIffPending(st, s, h, m);
    if Pending(st, s, h, m) {
      DecryptPending(st, s, h, m, msg.header, msg.ct, msg.plaintext, newKey);
      DeliverKnownChain(y, p, m, newKey, st.(skipped := st.skipped - {(msg.header.dhPub, msg.header.n)}));
    } else {
      DecryptAhead(st, s, h, m, msg.header, msg.ct, msg.plaintext, newKey);
      if msg.header.n <= st.nr + MAX_SKIP {
        DeliverKnownChain(y, p, m, newKey, Received(SkipTo(st, m.n)));
      }
    }
  }

  lemma Delivery(y: System, p: Party, m: Name, newKey: KeyId)
    requires Inv(y) && AddressedTo(y, p, m) && newKey !in y.hist.keys
    ensures Delivers(y, p, m, newKey)
  {
    var side, msg := Get(y, p), y.sent[m];
    SentFacts(y.hist, y.sent, m);
    if m in y.hist.got {
      DecryptReplay(side.st, side.idx, y.hist, m, msg.header, msg.ct, msg.plaintext, newKey);
    } else if m.chain == side.idx + 1 {
      DeliverNewChain(y, p, m, newKey);
    } else {
      DeliverOldChain(y, p, m, newKey);
    }
  }

  // ---------- whole runs ----------

  datatype Run = Run(states: seq<System>, events: seq<Event>)

  ghost predicate IsRun(r: Run) {
    && |r.states| == |r.events| + 1
    && Init(r.states[0])
    && forall k :: 0 <= k < |r.events| ==> StepAt(r, k)
  }

  ghost predicate StepAt(r: Run, k: nat)
    requires |r.states| == |r.events| + 1 && k < |r.events|
  {
    Step(r.states[k], r.states[k + 1], r.events[k])
  }

  lemma {:induction false} RunKeepsInv(r: Run, n: nat)
    requires IsRun(r) && n < |r.states|
    ensures Inv(r.states[n])
    decreases n
  {
    if n == 0 {
      InitHolds(r.states[0]);
    } else {
      RunKeepsInv(r, n - 1);
      var y, z, e := r.states[n - 1], r.states[n], r.events[n - 1];
      assert StepAt(r, n - 1);
      match e
      case Send(p, plaintext, padding) => SendKeeps(y, z, p, plaintext, padding);
      case Deliver(p, m, newKey) => Delivery(y, p, m, newKey);
    }
  }

  /** In every state of every run, delivering a message addressed to a party decrypts exactly when it
      has not been decrypted before and its chain gaps are within the skip bound, and then gives the
      plaintext that was sent. Otherwise too many were skipped, or it is a replay that fails to authenticate. */
  lemma DeliversExactly(r: Run, n: nat, p: Party, m: Name, newKey: KeyId)
    requires IsRun(r) && n < |r.states| && AddressedTo(r.states[n], p, m) && newKey !in r.states[n].hist.keys
    ensures var y := r.states[n];
            var d := Decrypt(Get(y, p).st, y.sent[m].ct, y.sent[m].header, newKey);
            (d.Success? <==> m !in y.hist.got && WithinSkip(Get(y, p).st, y.sent[m].header)) &&
            (d.Success? ==> d.value.plaintext == y.sent[m].plaintext) &&
            (d.Failure? ==> d.error == TooManySkipped || (d.error == AuthFailed && m in y.hist.got))
  {
    RunKeepsInv(r, n);
    Delivery(r.states[n], p, m, newKey);
  }

  // ---------- who can send ----------

  /** Alice's keys have odd numbers and Bob's even ones, and Bob has ratcheted only after decrypting. */
  ghost predicate Turns(y: System) {
    && y.alice.idx % 2 == 1 && y.bob.idx % 2 == 0
    && (y.bob.idx > 0 ==> exists m :: m in y.hist.got && m.chain % 2 == 1)
  }

  predicate Alternates(y: System) { Alternate(y.alice.idx, y.bob.idx, |y.hist.keys|) }

  lemma DeliverTurns(y: System, p: Party, m: Name, d: Decrypted, newKey: KeyId)
    requires Turns(y) && AddressedTo(y, p, m) && Alternates(y) && Alternates(AfterDecrypt(y, p, m, d, newKey))
    ensures Turns(AfterDecrypt(y, p, m, d, newKey))
  {
    var z := AfterDecrypt(y, p, m, d, newKey);
    assert m in z.hist.got && forall k :: k in y.hist.got ==> k in z.hist.got;
  }

  lemma StepTurns(y: System, z: System, e: Event)
    requires Step(y, z, e) && Turns(y) && Alternates(y) && Alternates(z)
    ensures Turns(z)
  {
    match e
    case Send(p, plaintext, padding) =>
      assert z.alice.idx == y.alice.idx && z.bob.idx == y.bob.idx && z.hist.got == y.hist.got;
    case Deliver(p, m, newKey) =>
      var d := Decrypt(Get(y, p).st, y.sent[m].ct, y.sent[m].header, newKey);
      if d.Success? {
        DeliverTurns(y, p, m, d.value, newKey);
      }
  }

  lemma RunAlternates(r: Run, n: nat)
    requires IsRun(r) && n < |r.states|
    ensures Alternates(r.states[n])
  {
    RunKeepsInv(r, n);
  }

  lemma {:induction false} RunTurns(r: Run, n: nat)
    requires IsRun(r) && n < |r.states|
    ensures Turns(r.states[n])
    decreases n
  {
    if n > 0 {
      RunTurns(r, n - 1);
      RunAlternates(r, n - 1);
      RunAlternates(r, n);
      assert StepAt(r, n - 1);
      StepTurns(r.states[n - 1], r.states[n], r.events[n - 1]);
    }
  }

  /** In every state of every run, Alice can send, and Bob can send if and only if he has decrypted a message
      of hers. */
  lemma SendSucceedsIff(r: Run, n: nat, p: Party, plaintext: Bytes, padding: Bytes)
    requires IsRun(r) && n < |r.states|
    ensures Encrypt(Get(r.states[n], p).st, plaintext, padding).Success?
       <==> p == Alice || exists m :: m in r.states[n].hist.got && m.chain % 2 == 1
    ensures var e := Encrypt(Get(r.states[n], p).st, plaintext, padding); e.Failure? ==> e.error == NoSendingChain
  {
    RunTurns(r, n);
    RunKeepsInv(r, n);
    var y := r.states[n];
    if m :| m in y.hist.got && m.chain % 2 == 1 {
      GotMeansRatcheted(y.bob.st, y.bob.idx, y.hist, m);
    }
  }

  /** Whoever has decrypted a message has a key pair of their own on the ratchet. */
  lemma GotMeansRatcheted(st: SessionState, s: nat, h: History, m: Name)
    requires PartyOk(st, s, h) && m in h.got && (m.chain + s) % 2 == 1
    ensures s > 0
  {
    assert PartyInv(st, s, h) by { assert Look(0); }
  }

  // ---------- each key seals one message ----------

  /** Event k sends a message. */
  predicate Sends(r: Run, k: nat) {
    |r.states| == |r.events| + 1 && k < |r.events| && r.events[k].Send? &&
    Encrypt(Get(r.states[k], r.events[k].p).st, r.events[k].plaintext, r.events[k].padding).Success?
  }

  function SealedAt(r: Run, k: nat): Sealed
    requires Sends(r, k)
  {
    Encrypt(Get(r.states[k], r.events[k].p).st, r.events[k].plaintext, r.events[k].padding).value.ct
  }

  function NameAt(r: Run, k: nat): Name
    requires Sends(r, k)
  {
    Name(Get(r.states[k], r.events[k].p).idx, Get(r.states[k], r.events[k].p).st.ns)
  }

  /** A message is sent at a position of its chain that no message had before. */
  lemma SendIsNew(r: Run, k: nat)
    requires IsRun(r) && Sends(r, k)
    ensures NameAt(r, k) !in r.states[k].sent
    ensures NameAt(r, k) in r.states[k + 1].sent && r.states[k + 1].sent[NameAt(r, k)].ct == SealedAt(r, k)
  {
    RunKeepsInv(r, k);
    assert StepAt(r, k);
    NotYetSent(r.states[k], r.events[k].p);
  }

  lemma NotYetSent(y: System, p: Party)
    requires Inv(y)
    ensures Name(Get(y, p).idx, Get(y, p).st.ns) !in y.sent
  {
    assert Look(0);
  }

  /** What was sent stays as it was. */
  lemma {:induction false} SentStays(r: Run, k: nat, n: nat, m: Name)
    requires IsRun(r) && k <= n < |r.states| && m in r.states[k].sent
    ensures m in r.states[n].sent && r.states[n].sent[m] == r.states[k].sent[m]
    decreases n
  {
    if k < n {
      SentStays(r, k, n - 1, m);
      assert StepAt(r, n - 1);
      if Sends(r, n - 1) {
        SendIsNew(r, n - 1);
      }
    }
  }

  lemma SealedKeysDistinct(y: System, a: Name, b: Name)
    requires Inv(y) && a in y.sent && b in y.sent && a != b
    ensures y.sent[a].ct.mk != y.sent[b].ct.mk
  {
    SentFacts(y.hist, y.sent, a);
    SentFacts(y.hist, y.sent, b);
    KeysDistinct(y.hist, a, b);
  }

  /** In every run, two sends never seal under the same key. */
  lemma KeysUsedOnce(r: Run, k: nat, j: nat)
    requires IsRun(r) && k < j && Sends(r, k) && Sends(r, j)
    ensures NameAt(r, k) != NameAt(r, j) && SealedAt(r, k).mk != SealedAt(r, j).mk
  {
    SendIsNew(r, k);
    SendIsNew(r, j);
    SentStays(r, k + 1, j, NameAt(r, k));
    SentStays(r, k + 1, j + 1, NameAt(r, k));
    RunKeepsInv(r, j + 1);
    SealedKeysDistinct(r.states[j + 1], NameAt(r, k), NameAt(r, j));
  }

  /** In every state of every run, every key in a skipped map is the one the sender used for a message
      not yet decrypted. */
  lemma SkippedKeysAreSenders(r: Run, n: nat, p: Party, k: KeyId, i: nat)
    requires IsRun(r) && n < |r.states| && (k, i) in Get(r.states[n], p).st.skipped
    ensures var y := r.states[n];
            exists m :: m in y.sent && m !in y.hist.got && y.sent[m].header.dhPub == k && y.sent[m].header.n == i &&
                        Get(y, p).st.skipped[(k, i)] == y.sent[m].ct.mk
  {
    RunKeepsInv(r, n);
    SkippedWasSent(r.states[n], p, k, i);
  }

  lemma SkippedWasSent(y: System, p: Party, k: KeyId, i: nat)
    requires Inv(y) && (k, i) in Get(y, p).st.skipped
    ensures exists m :: m in y.sent && m !in y.hist.got && y.sent[m].header.dhPub == k && y.sent[m].header.n == i &&
                        Get(y, p).st.skipped[(k, i)] == y.sent[m].ct.mk
  {
    assert Look(0);
    var side, h := Get(y, p), y.hist;
    var c :| 0 <= c < |h.keys| && h.keys[c] == k;
    var m := Name(c, i);
    assert Pending(side.st, side.idx, h, m);
    assert m in y.sent && SentAs(h, m, y.sent[m].header, y.sent[m].ct, y.sent[m].plaintext);
  }
}
