# Privex: a verified model of its protocols

Privex is an end-to-end encrypted messenger: a Rust/WASM crypto core, a Rust server and a TypeScript
client. This project models the parts of it whose correctness depends on many steps working together,
and proves what they are for, over every input or every run:

| part | files here | main results |
|---|---|---|
| Double Ratchet sessions seeded by PQXDH | `Pqxdh`, `Ratchet`, `RatchetProtocol` | exact delivery, keys used once, skipped keys are the sender's, secrets bound to the message |
| Shamir sharing over GF(256) | `Field`, `Gf256`, `Shamir` | any threshold of shares reconstructs; fewer say nothing; an altered byte is detected |
| Key-transparency Merkle log, its client check and its cache | `MerkleTree`, `KtLog`, `KtCache` | RFC 6962 refinement down to the bytes, proof completeness and uniqueness, cache consistency |
| Live pushes and backlog | `Delivery` | no message is missed, the pager is complete, in order and can always finish |
| PoW tickets, login challenges, rate limits, the PoW puzzle | `PowTicket`, `AuthChallenge`, `SingleUse`, `RateLimit`, `PowCheck` | round trips, single use and its exact limits, least solutions |
| Backup listing and id migration | `History`, `HistoryMigration` | every row once; which records survive, exactly |
| Sealed sender | `SealedSender` | certificate versions disjoint, round trips, injective signing inputs |
| Device transfer | `Devlink` | no data before both confirm, prefix at all times, completes exactly when it can |
| Offline outbox | `Outbox` | conservation, ttl arithmetic, send order, a flush empties the queue |

Conventions. Code that updates state step by step is a method or a class and is proved against a
specification function; protocols with several actors are step systems, and their theorems are about
every run. Hash functions, MACs and random bytes are arguments. In the ratchet keys are symbolic terms:
key derivation is free, Diffie-Hellman is the unordered pair, and a ciphertext opens under its own key
and header only. In the key-transparency log SHA-256 is an arbitrary function and each result that needs
it names the finite set of byte strings on which it has to be collision free. Sealed sender takes the
laws of authenticated encryption as a hypothesis.

Properties that turned out not to hold of the code as written. For each there is a run that shows the
failing case and a lemma that says exactly when the property holds:

- A PoW ticket can be accepted twice when a request that passed the expiry check spends it after the
  expiry second (the wait for an Argon2id slot lies in between): `SingleUse.LatePowSpendRepeats`, against
  `SingleUse.PowTicketsSingleUse`. Gaps between check and spend are safe if and only if they and the skew
  of the servers' clocks stay within a second: `SingleUse.PowGapSafeIff`.
- A login challenge can be accepted twice when the consume comes a minute or more after the expiry, less
  the skew: `SingleUse.LateLoginConsumeRepeats`. Gaps are safe if and only if they and the skew stay within
  59 seconds, so 29 seconds for the half minute of skew the check allows for: `SingleUse.LoginGapSafeIff`.
- A cached snapshot can miss a committed row when transactions commit out of sequence order, since the
  sequence number is taken before the commit: `KtCache.LateCommitMissesRow`. A commit can be missed if and
  only if it lands below the latest number while a snapshot of that generation is in the slot or about to
  be stored there: `KtCache.CanBeMissedIff`.
- The comment on `dropLegacyIds` says nothing is lost; a record is lost exactly when another row stands
  under its opaque id: `HistoryMigration.ForeignRowLosesRecord`, `HistoryMigration.RecordSurvivesIff`.
- A confirm that lands between the importer's key and its hello can have its ready frame dropped, after
  which the transfer never starts: `Devlink.EarlyConfirmLosesReady`, `Devlink.EarlyReadyStalls`. A run without
  failures can be completed if and only if that has not happened: `Devlink.CanCompleteIff`.
- A PoW ticket has more than one text: the parser skips the six Argon2id bytes when their flag is zero, so two
  payloads, each with its own MAC, open to the same ticket: `PowTicket.IgnoredBytes`. Whatever opens is such a
  payload with its MAC, `PowTicket.OpenIff`, and it is the minted one if and only if those bytes are zero,
  `PowTicket.PayloadIff`.
- A clock set back between two enqueues makes the outbox send the later blob first:
  `Outbox.ClockRollbackReorders`. It keeps the order if and only if no blob is enqueued at an earlier time
  than a row then stored: `Outbox.StoredInOrderIff`, `Outbox.NeverOvertakenIff`.

## Model

| member | source | states |
|---|---|---|
| Pqxdh.SecretsAgreeIff | packages/crypto-wasm/src/pqxdh.rs:99-217 | the responder derives the initiator's secret if and only if he answers with the private keys of the bundle she used, one-time prekey included |
| Pqxdh.SecretBindsMessage | packages/crypto-wasm/src/pqxdh.rs:99-217 | with the bundle's keys the responder derives the initiator's secret from her own message and from no other: both her keys, the encapsulation and the use of the one-time prekey are bound into it |
| Pqxdh.SecretOnKeys | packages/crypto-wasm/src/pqxdh.rs:99-145 | which pairs of keys the Diffie-Hellman outputs come from, in the order of section 3.3 of X3DH |
| Ratchet.UnpadPad | packages/crypto-wasm/src/ratchet.rs:95-116 | removing the padding gives back the plaintext, for every plaintext below 2^32 bytes and any padding |
| Ratchet.PadOnBytes | packages/crypto-wasm/src/ratchet.rs:95-116 | the padded plaintext by position: four bytes of length, the plaintext, the padding, and nothing else is it |
| Ratchet.InKeysBetween | packages/crypto-wasm/src/ratchet.rs:299-319 | which slots skipping fills, and with which chain step's key |
| Ratchet.Session.SkipReceived | packages/crypto-wasm/src/ratchet.rs:299-319 | the in-place loop reaches exactly the specified state, or fails and changes nothing |
| Ratchet.Session.RatchetKeys | packages/crypto-wasm/src/ratchet.rs:321-338 | the DH step's whole new state |
| Ratchet.RatchetEncrypt | packages/crypto-wasm/src/ratchet.rs:211-240 | the call equals the specification used in the protocol theorems, and what it seals is a whole number of 1024-byte blocks |
| Ratchet.RatchetDecrypt | packages/crypto-wasm/src/ratchet.rs:251-297 | the in-place call equals the specification used in the protocol theorems, errors included |
| Ratchet.OtherHeaderFails | packages/crypto-wasm/src/ratchet.rs:251-297 | under any header but the one it was sealed with, a ciphertext fails in every state |
| RatchetProtocol.InitHolds | packages/crypto-wasm/src/ratchet.rs:152-199 | two sessions initialised from a matching PQXDH exchange satisfy the two-party invariant |
| RatchetProtocol.DecryptPending | packages/crypto-wasm/src/ratchet.rs:251-297 | a message passed over earlier opens from the skipped map to its plaintext and keeps the invariant |
| RatchetProtocol.DecryptAhead | packages/crypto-wasm/src/ratchet.rs:251-319 | a message ahead in the current chain opens exactly within the skip bound and keeps the invariant |
| RatchetProtocol.DecryptNewChain | packages/crypto-wasm/src/ratchet.rs:251-338 | a message that starts a new chain opens exactly within the bound on both gaps, and the ratchet step keeps the invariant |
| RatchetProtocol.DecryptReplay | packages/crypto-wasm/src/ratchet.rs:251-297 | a message decrypted once never decrypts again, and which errors the replay gets |
| RatchetProtocol.KeysDistinct | packages/crypto-wasm/src/ratchet.rs:54-73 | two positions of a run share a message key only if they are the same position |
| RatchetProtocol.RunKeepsInv | packages/crypto-wasm/src/ratchet.rs:152-338 | the invariant linking both parties' chains, counters and skipped maps holds in every state of every run with drops, reordering and duplicates |
| RatchetProtocol.DeliversExactly | packages/crypto-wasm/src/ratchet.rs:251-338 | in every state of every run, delivering a message succeeds if and only if it was not decrypted before and its gaps are within MAX_SKIP, and then yields exactly the plaintext sent; otherwise too many were skipped, or it is a replay that does not authenticate |
| RatchetProtocol.SendSucceedsIff | packages/crypto-wasm/src/ratchet.rs:152-240 | in every state of every run the initiator can send, and the responder if and only if he has decrypted a message of hers; otherwise there is no sending chain |
| RatchetProtocol.SendIsNew | packages/crypto-wasm/src/ratchet.rs:211-240 | in every run a message is sent at a position of its chain that no message had before |
| RatchetProtocol.KeysUsedOnce | packages/crypto-wasm/src/ratchet.rs:211-240 | in every run two sends never seal under the same key |
| RatchetProtocol.SkippedKeysAreSenders | packages/crypto-wasm/src/ratchet.rs:251-319 | in every run every key in a skipped map is the one its sender used for a message not yet decrypted |
| FieldPolynomials.TooManyRoots | packages/crypto-wasm/src/shamir.rs:41-63 | over any field of characteristic two, a polynomial with as many distinct roots as coefficients is zero |
| FieldPolynomials.InterpolationExists | packages/crypto-wasm/src/shamir.rs:49-63 | points at distinct x lie on some polynomial with that many coefficients |
| FieldPolynomials.LagrangeRecovers | packages/crypto-wasm/src/shamir.rs:49-63 | Lagrange interpolation through enough values of a polynomial gives its value everywhere |
| FieldPolynomials.LagrangeDetects | packages/crypto-wasm/src/shamir.rs:49-63 | with one of the values altered, interpolation at zero never gives the polynomial's constant term |
| FieldPolynomials.UniqueExtension | packages/crypto-wasm/src/shamir.rs:41-63 | points at distinct nonzero x and any constant term determine exactly one polynomial |
| Gf256.GfMul | packages/crypto-wasm/src/shamir.rs:16-30 | the shift-and-xor loop computes the product of GF(256) |
| Gf256.GfInv | packages/crypto-wasm/src/shamir.rs:33-39 | the 254-step loop computes the field's inverse function |
| Gf256.MulAssoc | packages/crypto-wasm/src/shamir.rs:16-30 | the product is associative |
| Gf256.MulComm | packages/crypto-wasm/src/shamir.rs:16-30 | the product is commutative |
| Gf256.InverseIsInverse | packages/crypto-wasm/src/shamir.rs:33-39 | a times a^254 is 1 for every nonzero byte |
| Gf256.IsField | packages/crypto-wasm/src/shamir.rs:16-39 | bytes with xor, this product and this inverse satisfy the field laws |
| Gf256.AesPolynomial | packages/crypto-wasm/src/shamir.rs:16-30 | x^7 times x is x^4 + x^3 + x + 1, which with the field laws makes it the field of section 4.2 of FIPS 197 |
| Shamir.EvalAt | packages/crypto-wasm/src/shamir.rs:41-47 | the loop evaluates the polynomial with these coefficients |
| Shamir.InterpolateAtZero | packages/crypto-wasm/src/shamir.rs:49-63 | the double loop is Lagrange interpolation at zero |
| Shamir.SplitCore | packages/crypto-wasm/src/shamir.rs:65-91 | the error cases exactly, and otherwise share i holds the threshold, i and every tagged byte's polynomial at i |
| Shamir.ShareOnBytes | packages/crypto-wasm/src/shamir.rs:65-91 | a share by position: the threshold, its number, and for each byte of the secret and its 4-byte tag the polynomial's value there |
| Shamir.ReconstructCore | packages/crypto-wasm/src/shamir.rs:93-130 | the loops equal the specification of reconstruction, which RefusedIff and AnswersIff pin on all inputs |
| Shamir.RefusedIff | packages/crypto-wasm/src/shamir.rs:93-117 | when shares are refused before interpolation, and with which of the four errors, each exactly |
| Shamir.AnswersIff | packages/crypto-wasm/src/shamir.rs:93-130 | for shares that pass the checks, the answer is s if and only if the interpolated payload is s followed by its tag; too short exactly below four bytes, and a tag mismatch exactly otherwise |
| Shamir.AnyThresholdShares | packages/crypto-wasm/src/shamir.rs:65-130 | for every secret, 1 <= threshold <= total <= 255 and choice of coefficients, any list of at least threshold distinct shares in any order reconstructs the secret |
| Shamir.CorruptedShare | packages/crypto-wasm/src/shamir.rs:93-130 | altering any one byte of a share in use makes reconstruction answer a tag mismatch, but for a changed secret byte whose new secret has the same tag |
| Shamir.TooFewSharesFail | packages/crypto-wasm/src/shamir.rs:93-130 | fewer shares of a split are refused as too few |
| Shamir.EveryByteExplained | packages/crypto-wasm/src/shamir.rs:41-91 | threshold - 1 shares of a byte are consistent with every byte value, each through exactly one coefficient vector |
| MerkleTree.LevelKeepsRoot | server/src/crypto/kt_log.rs:55-75 | one round of pairing with odd promotion keeps the recursive tree hash of RFC 6962 |
| MerkleTree.ComputeRoot | server/src/crypto/kt_log.rs:55-75 | the level-by-level root is the tree hash of section 2.1 of RFC 6962; the empty log has its own root |
| MerkleTree.NextLevelPath | server/src/crypto/kt_log.rs:85-115 | the audit path of a level is its sibling followed by the audit path of the next level |
| MerkleTree.BottomUpIsAuditPath | server/src/crypto/kt_log.rs:85-115 | for an index in range, collecting siblings level by level gives the audit path of section 2.1.1 of RFC 6962, and never reads past a level's end |
| MerkleTree.InclusionProof | server/src/crypto/kt_log.rs:85-115 | for an index in range the proof is the audit path of section 2.1.1 of RFC 6962, sides included; for one out of range, what the loop collects where it does not panic |
| MerkleTree.VerifyInclusion | server/src/crypto/kt_log.rs:117-127 | the loop accepts exactly when hashing up the path gives the root |
| MerkleTree.ProofVerifies | server/src/crypto/kt_log.rs:85-127 | every entry's audit path verifies against the root, for every hash function |
| MerkleTree.ProofUnique | server/src/crypto/kt_log.rs:85-127 | without collisions, a path accepted against a root is the audit path of an entry with that leaf |
| MerkleTree.RootDeterminesLog | server/src/crypto/kt_log.rs:55-75 | without collisions, equal roots mean equal ordered lists of leaves |
| KtLog.LeafPreimageInjective | server/src/crypto/kt_log.rs:37-44 | the leaf encoding, which has no length prefix, determines user, bundle hash and timestamp |
| KtLog.LeafOnBytes | server/src/crypto/kt_log.rs:37-44 | the leaf is the hash of 0, the user, the bundle hash and eight bytes whose big-endian value is the timestamp |
| KtLog.PrefixesSeparate | server/src/crypto/kt_log.rs:37-52 | the 0x00 and 0x01 prefixes turn collision freedom of the hash into what the tree proofs need |
| KtLog.AcceptedIffLogged | server/src/crypto/kt_log.rs:37-127 | an entry and proof are accepted against a log's root if and only if the log holds that entry at an index whose audit path is that proof |
| KtLog.RootDeterminesEntries | server/src/crypto/kt_log.rs:37-75 | two non-empty logs of entries have equal roots if and only if they are equal |
| KtLog.ComputeLogRoot | server/src/crypto/kt_log.rs:46-75 | the root of byte-level leaves, which RootOnBytes gives byte by byte |
| KtLog.RootOnBytes | server/src/crypto/kt_log.rs:46-75 | 32 zeros for no leaf, the leaf itself for one, and for more the hash of 65 bytes: 1, the root of the first k leaves and the root of the others, k being the largest power of two below their number |
| KtLog.UnflattenFlatten | packages/crypto-wasm/src/kt.rs:60-76 | reading the flat 33-byte layout gives back the path that was flattened |
| KtLog.FlattenPath | apps/web/src/crypto/contact-crypto.ts:93-100 | the array filled in place holds the flat layout of the path |
| KtLog.VerifyFlat | packages/crypto-wasm/src/kt.rs:60-76 | the client's loop accepts exactly well-sized inputs whose path leads to the root, which FlatOnBytes gives byte by byte |
| KtLog.FlatOnBytes | packages/crypto-wasm/src/kt.rs:49-76 | what is accepted, one 33-byte node after the other: the sibling is hashed in on the left exactly when the node's first byte is 1, and at the end the value is the root |
| KtLog.VerifyBundleInclusion | apps/web/src/crypto/contact-crypto.ts:57-72 | recomputing the leaf, flattening and verifying gives the same answer as the server's verifier on that path |
| KtCache.EntriesToLeaves | server/src/kt_cache.rs:94-106 | the leaves of the decoded entries, or the first entry that does not decode |
| KtCache.BuildIndex | server/src/kt_cache.rs:45-82 | the index maps each user, and nobody else, to that user's last entry |
| KtCache.BuildSnapshot | server/src/kt_cache.rs:45-82 | a snapshot's leaves, root and index are those of its own entries |
| KtCache.SortedLists | server/src/db/queries/kt_log.rs:41-48 | the listing has exactly the visible rows, by sequence number |
| KtCache.EverySnapshotConsistent | server/src/kt_cache.rs:45-82 | under every interleaving and every order of commits, a returned snapshot is the listing of the rows visible at some moment, with the leaves, root and last-entry index of those rows; and it lacks a row visible when its call began if and only if that row committed after the listing with a number up to the generation |
| KtCache.OrderedSnapshotsComplete | server/src/kt_cache.rs:45-82 | with commits in sequence order, a returned snapshot is a prefix of the log that holds every entry present when its call began |
| KtCache.RebuildsOncePerGeneration | server/src/kt_cache.rs:45-82 | at most one call is past the gate, and every published snapshot is strictly newer than the one it replaces |
| KtCache.EveryCallCanReturn | server/src/kt_cache.rs:45-82 | no call is left at the gate for ever: every run can go on, with no further commit, until a given call has returned, if the entries decode |
| KtCache.MissedOnlyIfLate | server/src/kt_cache.rs:45-82 | in every run, a row that a returned snapshot lacks was committed below the latest number while a snapshot of that generation was in flight |
| KtCache.LateIsMissed | server/src/kt_cache.rs:45-82 | every run can go on, from such a commit, to a call that begins after it and returns a snapshot without the row |
| KtCache.LateCommitMissesRow | server/src/db/queries/register.rs:54-72 | for any two rows, a run from the start in which the one with the smaller number commits last and is missing from a snapshot of a later call |
| KtCache.CanBeMissedIff | server/src/kt_cache.rs:45-82 | for every run and every next commit: some continuation misses the row if and only if the commit lands below the latest number while a snapshot of that generation is in the slot or about to be stored |
| Online.OnlineMap.Insert | server/src/ws/state.rs:28-30 | the connection is where the account's next push lands while its receiver exists, removing it gives back the connections there were, and other accounts are untouched |
| Online.OnlineMap.Remove | server/src/ws/state.rs:33-40 | drops one connection in order, and the entry with the last one |
| Online.OnlineMap.Send | server/src/ws/state.rs:45-57 | the frame goes to the newest connection whose receiver exists, to no other, and the answer says whether there was one |
| Delivery.RunKeepsInv | server/src/ws/handler.rs:81-159 | the invariant over mailbox, sends in progress, connections and pagers holds in every state of every run |
| Delivery.SentIsStored | server/src/routes/messages.rs:97-143 | in every run, what a send enqueued is in the mailbox until an ack or the expiry removes it |
| Delivery.NothingMissed | server/src/routes/messages.rs:97-143 | for a connection that stays its account's newest, every row in the mailbox is still to be pushed, was pushed to it, or lies in its backlog range |
| Delivery.PushLands | server/src/routes/messages.rs:97-143 | in every run, a push lands on the newest connection still open, and on no other |
| Delivery.BacklogComplete | server/src/ws/handler.rs:81-159 | the pager writes rows in cursor order, none twice, and once finished has written every row of its range still in the mailbox |
| Delivery.PagerFinishes | server/src/ws/handler.rs:81-159 | every run can go on until a given connection's pager has finished, with nothing else changed |
| Delivery.EverythingDelivered | server/src/ws/handler.rs:81-159 | a connection that has stayed newest and whose pager has finished was pushed or written every row in the mailbox whose send is over |
| Delivery.SentIsDelivered | server/src/routes/messages.rs:97-143 | in every run, a message whose send is over and that nobody removed was pushed to, or written by, a newest connection whose pager has finished |
| Delivery.OnlineMessageArrives | server/src/routes/messages.rs:97-143 | every run can go on with a send that reaches the account's newest connection |
| Delivery.OfflineMessageArrives | server/src/ws/handler.rs:81-159 | every run can go on with a send and then a connect whose backlog has the message |
| SingleUse.UsedAtMostOnce | server/src/rds.rs:188-204 | for any expiring-marker policy, over tokens minted in the run and servers with skewed clocks, no token is used twice when markers cover the deadline and spends land before it |
| SingleUse.LateSpendRepeats | server/src/rds.rs:188-204 | the converse: a request checked after the minting that spends when the marker of a use made at the minting is gone is a second use |
| SingleUse.PowTicketsSingleUse | server/src/routes/mod.rs:83-113 | no PoW ticket is accepted twice in any run whose spends land no later than the expiry second, less the clock skew |
| SingleUse.LatePowSpendRepeats | server/src/routes/mod.rs:83-113 | every later spend of a ticket checked in time is a second acceptance in some run that mints it first |
| SingleUse.PowGapSafeIff | server/src/routes/mod.rs:83-113 | tickets are single use in all runs with bounded check-to-spend gaps if and only if gap and skew together are at most a second |
| SingleUse.LoginChallengesSingleUse | server/src/routes/auth.rs:199-259 | no login challenge is accepted twice in any run whose consumes land within a minute of the expiry, less the clock skew |
| SingleUse.LoginGapSafeIff | server/src/routes/auth.rs:199-259 | logins are single use in all runs with bounded check-to-consume gaps if and only if gap and skew together are at most 59 seconds |
| SingleUse.LateLoginConsumeRepeats | server/src/rds.rs:56-76 | every later consume of a challenge checked in its window is a second acceptance in some run that mints it first |
| Base64Url.DecodeEncode | server/src/pow_ticket.rs:67-145 | decoding undoes encoding, for every byte string, and the text holds no dot |
| Base64Url.EncodeDecode | server/src/pow_ticket.rs:67-145 | decoding is strict: a text that decodes is the encoding of the bytes it decodes to |
| Base64Url.EncodeOnBytes | server/src/pow_ticket.rs:67-104 | group by group the characters are the number the bytes are, as in section 4 of RFC 4648 |
| PowTicket.FillPayload | server/src/pow_ticket.rs:67-104 | the bytes appended one by one are the 72-byte payload |
| PowTicket.Mint | server/src/pow_ticket.rs:67-104 | minting fails exactly on parameters out of range, and otherwise opening the text gives back the ticket |
| PowTicket.ParsePayload | server/src/pow_ticket.rs:108-145 | parsing the payload gives back every field of the ticket |
| PowTicket.OpenMinted | server/src/pow_ticket.rs:67-145 | opening a minted ticket returns exactly what was minted, under any MAC |
| PowTicket.OpenIff | server/src/pow_ticket.rs:108-145 | a text opens to a ticket if and only if it is the prefix, a payload that carries the ticket, by position, and that payload's MAC |
| PowTicket.PayloadIff | server/src/pow_ticket.rs:67-145 | a payload that carries a ticket is the minted one if and only if the Argon2id bytes are zero when its flag is |
| PowTicket.IgnoredBytes | server/src/pow_ticket.rs:108-145 | a second text that opens to the same ticket, for every ticket without Argon2id parameters |
| AuthChallenge.Mint | server/src/auth/challenge.rs:38-48 | fills the 32-byte buffer with nonce, expiry and tag, and fails exactly when the expiry does not fit |
| AuthChallenge.AcceptedExactlyInWindow | server/src/auth/challenge.rs:38-64 | a challenge is accepted from 30 seconds before to 90 seconds after its minting second and at no other time |
| AuthChallenge.AcceptedIffMinted | server/src/auth/challenge.rs:38-64 | a challenge is accepted for a user if and only if it is a nonce, an expiry and the MAC of that user and those, with the expiry at most 120 seconds ahead and not past |
| RateLimit.ExpirySet | server/src/rds.rs:28-50 | after any calls the counter has an expiry, so no identity stays limited for ever |
| RateLimit.OneWindow | server/src/rds.rs:28-50 | within one window at most limit calls are allowed |
| RateLimit.TwiceTheLimit | server/src/rds.rs:28-50 | in every run any span of the window's length holds at most twice the limit of allowed calls |
| RateLimit.AllowedAfterWindow | server/src/rds.rs:28-50 | an identity is allowed again once its window has ended |
| RateLimit.AllowedIff | server/src/rds.rs:28-50 | a call is allowed if and only if fewer than limit calls came before it since its window opened |
| PowCheck.ZeroBitsIsThreshold | server/src/powcheck.rs:35-46 | a digest has d leading zero bits if and only if, read big-endian, it is below 2^(8n - d), for every length and every d |
| PowCheck.LeadingZeroBits | packages/crypto-wasm/src/pow.rs:27-38 | the byte loop computes the number with that property |
| PowCheck.HashedOnBytes | server/src/powcheck.rs:28-33 | what is hashed: the challenge and the nonce in eight bytes, least significant first, and then that digest salted with the challenge |
| PowCheck.PowValid | server/src/powcheck.rs:63-66 | accepts exactly a nonce whose digest is below the threshold, with that digest |
| PowCheck.HybridValid | server/src/powcheck.rs:70-85 | accepts exactly a nonce that meets both thresholds, with its Argon2id digest |
| PowCheck.VerifyHybrid | packages/crypto-wasm/src/pow.rs:184-199 | the client says yes on exactly the inputs the server accepts, and errs exactly where Argon2id refuses its parameters |
| PowCheck.PowSolve | packages/crypto-wasm/src/pow.rs:41-50 | returns the least nonce the verifier accepts, with its digest |
| PowCheck.HybridSolve | server/src/powcheck.rs:100-113 | returns the least nonce the hybrid verifier accepts, with its digest |
| PowCheck.SolveHybrid | packages/crypto-wasm/src/pow.rs:138-178 | reports the least solution, or which of abort, refused parameters or an exhausted nonce space came first |
| HistoryCursor.ParsePrint | server/src/validate.rs:196-208 | parsing a printed integer gives it back if it has 32 bits, and nothing otherwise |
| HistoryCursor.CursorRoundTrip | server/src/validate.rs:196-208 | a time, a colon and an id parse as that cursor if the time has 32 bits and the check accepts the id, and not at all otherwise |
| HistoryCursor.UploadIdsAreCursorIds | server/src/validate.rs:170-183 | every id an upload may store is one the cursor check accepts |
| HistoryPaging.PageAfter | server/src/routes/history.rs:95-127 | the page after k rows is the next run of rows, and it names a next cursor exactly when it is full |
| HistoryPaging.ListAll | apps/web/src/services/history-backup.ts:133-148 | following the cursors visits every row once, in order, and no cursor is refused |
| HistoryMigration.BackupTable.Upload | server/src/routes/history.rs:37-74 | blobs are upserted in order up to the first one refused, and the answer says whether there was one |
| HistoryMigration.BackupTable.DeleteIds | server/src/routes/history.rs:158-176 | refused, it changes nothing; otherwise a row is gone if and only if it was named, and the others are as they were |
| HistoryMigration.UploadBatched | apps/web/src/services/history-backup.ts:91-111 | blobs are uploaded in order up to the first one refused; if none is, in batches that fit, none of which could have taken the item after it |
| HistoryMigration.CollectMissing | apps/web/src/services/history-backup.ts:149-153 | for each record found only under foreign ids, its newest copy |
| HistoryMigration.UploadMissing | apps/web/src/services/history-backup.ts:149-154 | the missing copies are added, and no row there was is changed even if the upload is refused half way |
| HistoryMigration.DropLegacyIds | apps/web/src/services/history-backup.ts:127-159 | completed, the table is the specified one; interrupted, no stale row is gone before every missing copy is there |
| HistoryMigration.UnfinishedKeepsRecords | apps/web/src/services/history-backup.ts:120-159 | an interrupted pass loses no record that a whole pass would keep |
| HistoryMigration.MigratedRow | apps/web/src/services/history-backup.ts:127-159 | where each row of the migrated table comes from, and that the newest legacy copy wins |
| HistoryMigration.OnlyOwnIds | apps/web/src/services/history-backup.ts:127-159 | every row that can be decrypted afterwards stands under its own record's opaque id |
| HistoryMigration.OwnRowsUnchanged | apps/web/src/services/history-backup.ts:127-159 | rows already under their own id and rows that cannot be decrypted are unchanged |
| HistoryMigration.RecordSurvivesIff | apps/web/src/services/history-backup.ts:120-159 | a stored record survives if and only if no other row stood under its opaque id |
| HistoryMigration.ForeignRowLosesRecord | apps/web/src/services/history-backup.ts:120-159 | a table in which such a row loses a record |
| HistoryMigration.MigrationSettles | apps/web/src/services/history-backup.ts:127-159 | a second pass changes nothing |
| HistoryMigration.MigrationKeepsIff | apps/web/src/services/history-backup.ts:113-178 | which records the whole migration, re-upload included, leaves on the server |
| RecordCodec.ReadWrite | packages/crypto-wasm/src/sealed_sender.rs:75-82 | reading what was written gives it back, whatever follows |
| RecordCodec.WriteRead | packages/crypto-wasm/src/sealed_sender.rs:75-82 | what was read, written again, is the same bytes: no two encodings read alike |
| SealedSender.VersionsDisjoint | packages/crypto-wasm/src/sealed_sender.rs:152-191 | no byte string parses as a certificate of both versions |
| SealedSender.CertRoundTrip | packages/crypto-wasm/src/sealed_sender.rs:152-191 | each version parses back to itself and does not parse as the other |
| SealedSender.ParseV1Iff | packages/crypto-wasm/src/sealed_sender.rs:152-191 | bytes parse as a version 1 certificate if and only if they are its encoding and it is well formed |
| SealedSender.ParseV2Iff | packages/crypto-wasm/src/sealed_sender.rs:152-191 | the same for version 2 |
| SealedSender.CertOnBytes | packages/crypto-wasm/src/sealed_sender.rs:31-92 | the bytes of a certificate and of its signing input, field by field |
| SealedSender.SigningInputsDiffer | packages/crypto-wasm/src/sealed_sender.rs:84-92 | signing inputs of different versions can only meet on a version 1 sender id of one length, about 8.3 * 10^18 |
| SealedSender.SigningInputInjective | packages/crypto-wasm/src/sealed_sender.rs:84-92 | otherwise equal signing inputs mean equal certificates, version included |
| SealedSender.SealedSenderEncrypt | packages/crypto-wasm/src/sealed_sender.rs:201-243 | fails exactly on a bad recipient key or an oversized certificate, and otherwise opens for the recipient to the certificate and message sealed |
| SealedSender.OpenV2Iff | packages/crypto-wasm/src/sealed_sender.rs:248-272 | a blob opens as version 2 if and only if it seals what it opens to |
| SealedSender.OpenV1Iff | packages/crypto-wasm/src/sealed_sender.rs:274-301 | a blob opens as version 1 if and only if it seals the certificate, given by position, and the message follows it |
| SealedSender.OpenBlobIff | packages/crypto-wasm/src/sealed_sender.rs:321-347 | what any blob opens to: what it seals as version 2, or, if it is no version 2 seal, what it seals as version 1 |
| SealedSender.OpensAsV1 | packages/crypto-wasm/src/sealed_sender.rs:275-347 | a version 1 blob, whatever its first byte, opens to its own contents if and only if it is not a version 2 seal of others |
| SealedSender.DecryptReads | packages/crypto-wasm/src/sealed_sender.rs:321-347 | the fields reported are the certificate's own, and the sender is verified exactly when signatures, id and expiry all hold |
| SealedSender.DecryptIff | packages/crypto-wasm/src/sealed_sender.rs:321-347 | a blob is read if and only if it opens to the encoding of a well-formed certificate |
| Devlink.RunKeepsInv | apps/web/src/services/devicelink.ts:173-376 | consent and stream invariants hold in every state of every run, with failures, cancels and broken links anywhere |
| Devlink.NothingBeforeBothConfirm | apps/web/src/services/devicelink.ts:173-283 | no manifest or chunk leaves the exporter before both users confirmed |
| Devlink.ImporterHoldsPrefix | apps/web/src/services/devicelink.ts:285-376 | the importer always holds the start of the exporter's list in order, less failed imports; a prefix if none failed; and it knows the number of records |
| Devlink.DoneMeansComplete | apps/web/src/services/devicelink.ts:285-376 | when the importer reports done it went through the whole list, and its count is the exporter's if and only if no import failed, and then it holds the whole list |
| Devlink.EarlyReadyStalls | apps/web/src/services/devicelink.ts:189-271 | in every run, a ready frame that left before the hello is lost for good and the transfer never starts |
| Devlink.ReadyCountsIff | apps/web/src/services/devicelink.ts:229-359 | in every run without failures, the importer's ready frame reaches an exporter that can read it if and only if it did not leave before the hello |
| Devlink.CanCompleteIff | apps/web/src/services/devicelink.ts:173-376 | from every run without failures the transfer can be completed, both sides reporting the whole list and the importer holding it, if and only if no ready frame left before the hello |
| Devlink.EarlyConfirmLosesReady | apps/web/src/services/devicelink.ts:305-367 | a confirm between key and hello can bring a loss about |
| Devlink.ExporterFailureIsFinal | apps/web/src/services/devicelink.ts:183-189 | an exporter that fails or is cancelled before it is done rejects for good, and the importer never reports a complete transfer |
| Devlink.ImporterFailureIsFinal | apps/web/src/services/devicelink.ts:295-301 | an importer that fails or is cancelled before it is done rejects for good |
| Devlink.PeerLeftEnds | apps/web/src/services/devicelink.ts:229-263 | an exporter told that its peer left finishes by handling its frames |
| Devlink.PeerLeftEndsImport | apps/web/src/services/devicelink.ts:315-350 | an importer told that its peer left finishes by handling its frames |
| Outbox.RunKeepsInv | apps/web/src/services/outbox.ts:24-110 | the book-keeping invariant holds in every run of enqueues and flushes, interleaved, on any clock |
| Outbox.EveryBlobAccountedFor | apps/web/src/services/outbox.ts:24-110 | every blob enqueued is exactly one of queued, acknowledged once or given up, and its message's status says which |
| Outbox.SentInTime | apps/web/src/services/outbox.ts:57-77 | no attempt is made at or past the blob's ttl, each carries the ttl less the whole seconds gone by, and every acknowledged send is one of the attempts |
| Outbox.ExpiredIff | apps/web/src/services/outbox.ts:57-77 | a blob has run out if and only if its ttl in seconds has gone by since it was enqueued |
| Outbox.AttemptsCounted | apps/web/src/services/outbox.ts:58-104 | in every run each queued row carries the number of attempts made to send it |
| Outbox.FlushEmptiesQueue | apps/web/src/services/outbox.ts:49-110 | after every run, a flush while the server answers empties the queue: the rows with time left are acknowledged in order, the others given up |
| Outbox.SentInQueueOrder | apps/web/src/services/outbox.ts:47-110 | while no blob is enqueued at an earlier time than a row then stored, blobs are attempted and acknowledged in the order enqueued, and none is sent before an earlier one still queued |
| Outbox.StoredInOrderIff | apps/web/src/services/outbox.ts:24-57 | stored rows stand in enqueue order at every moment if and only if no blob was enqueued at an earlier time than a row then stored |
| Outbox.NeverOvertakenIff | apps/web/src/services/outbox.ts:24-110 | at no moment can the outbox go on to send a blob while an earlier one is queued, if and only if the same holds |
| Outbox.ClockRollbackReorders | apps/web/src/services/outbox.ts:57-59 | from the empty outbox, of any two blobs with the clock set back between them the later one is sent first |
| Outbox.Store.EnqueueBlob | apps/web/src/services/outbox.ts:24-40 | the stored row goes into created_at order and its message is queued |
| Outbox.Store.SendRow | apps/web/src/services/outbox.ts:58-104 | one turn of the loop is the model's turn: expired, accepted, refused for good, or kept for later |
| Outbox.Store.FlushOutbox | apps/web/src/services/outbox.ts:49-110 | a whole flush is a run of the model that ends with no flush under way |

## Left out

- The inside of SHA-256, HKDF, X25519, ML-KEM, ML-DSA, AES-GCM, XChaCha20-Poly1305 and Argon2id: terms or arbitrary functions.
- Hex and base64 decoding of key-transparency fields: the hex decoder is an argument of the cache, and proof digests are 32 bytes by type.
- SQL and Redis: their meaning is taken from the queries (rows strictly after the cursor, ordered and limited; SET NX EX; INCR and EXPIRE in one script).
- Pqxdh.SecretsAgreeIff: does not model the byte-length checks on keys, because they reject before any derivation.
- Ratchet.RatchetEncrypt: asks for a counter below the u32 limit and a plaintext below 2^32 bytes, where the Rust code would wrap or truncate.
- Shamir.ReconstructCore: asks that the input is not one on which the Rust code indexes out of bounds (an empty first share, or threshold byte 0).
- MerkleTree.InclusionProof: asks that the loop does not read past the end of a level, where the Rust code would panic; that is so for every index in range.
- KtCache.EverySnapshotConsistent: rows become visible one at a time, and a row that has become visible is never removed.
- Delivery.NothingMissed: one account at a time, and message contents are names; ttl and ack are both the removal of rows.
- Delivery.BacklogComplete: the writer's deque and cursor are fields of a value in a step system rather than of an object, so that sends and closes can interleave with them.
- RateLimit.TwiceTheLimit: one identity and scope at a time.
- HistoryPaging.ListAll: the rows do not change while they are listed, and ids count characters, which are single bytes for every id an upload stores.
- HistoryMigration.DropLegacyIds: the table keeps no upload times, no other device writes during the pass, and the rate limits of the handlers are not modelled.
- Devlink.RunKeepsInv: handlers are steps on values, since every await is a point where the two devices interleave; both peers are honest, the relay keeps order and there is one hello. Link frames carry nothing here.
- Outbox.EveryBlobAccountedFor: counts acknowledged sends; a send that the server took and whose reply was lost is an attempt that is made again, and the log of attempts shows both.
- Outbox.NeverOvertakenIff: asks for no ttl of zero, since such a blob is given up unsent and so cannot overtake.
- Outbox.Store.EnqueueBlob: also marks the message as queued, which its caller does, and takes the row id that the database would assign.
- PowCheck.PowSolve: without a solution the Rust loop does not end; the method takes a solution as a ghost argument and finds the least.
- The plain client solver with callbacks, as the hybrid one covers its loop.
- restoreHistory and backupMessage, which only import or upload what the model already covers.
- App lock, recovery rendezvous, OPAQUE login, attachments, receipts, prekey upload, the websocket client, the user interface and the API client.
- Security against dishonest devices or a hostile relay, and timing.
