/** The key-transparency log (server/src/crypto/kt_log.rs), its verification in the browser
    (packages/crypto-wasm/src/kt.rs, apps/web/src/crypto/contact-crypto.ts), and what an accepted
    proof means. SHA-256 is an arbitrary function from byte strings to digests; a result that needs it
    to be collision free says on which finite set of byte strings. */
module KtLog {
  import opened ByteStrings
  import opened MerkleTree
  import opened PowersOfTwo

  const DIGEST_LEN: nat := 32
  type Digest = d: Bytes | |d| == DIGEST_LEN witness Zeros(DIGEST_LEN)
  type Hash = Bytes -> Digest

  const ZERO_ROOT: Digest := Zeros(DIGEST_LEN)

  // ---------- hashing ----------

  function NodePreimage(left: Digest, right: Digest): Bytes { [1] + left + right }

  function Node(sha: Hash): (Digest, Digest) -> Digest { (left, right) => sha(NodePreimage(left, right)) }

  /** A log entry; the timestamp is a 64-bit signed integer, hashed as its unsigned image. */
  datatype Entry = Entry(user: Bytes, bundle: Digest, timestamp: int)

  predicate Is64Bit(timestamp: int) { -0x8000_0000_0000_0000 <= timestamp < 0x8000_0000_0000_0000 }

  function Unsigned(timestamp: int): nat
    requires Is64Bit(timestamp)
  {
    if timestamp < 0 then timestamp + 0x1_0000_0000_0000_0000 else timestamp
  }

  function LeafPreimage(e: Entry): Bytes
    requires Is64Bit(e.timestamp)
  {
    [0] + e.user + e.bundle + BigEndian(Unsigned(e.timestamp), 8)
  }

  function LeafHash(sha: Hash, e: Entry): Digest
    requires Is64Bit(e.timestamp)
  {
    sha(LeafPreimage(e))
  }

  predicate ValidLog(log: seq<Entry>) { forall i :: 0 <= i < |log| ==> Is64Bit(log[i].timestamp) }

  function Leaves(sha: Hash, log: seq<Entry>): (leaves: seq<Digest>)
    requires ValidLog(log)
    ensures |leaves| == |log|
  {
    seq(|log|, i requires 0 <= i < |log| => LeafHash(sha, log[i]))
  }

  function Root(sha: Hash, log: seq<Entry>): Digest
    requires ValidLog(log)
  {
    if log == [] then ZERO_ROOT else TreeHash(Node(sha), Leaves(sha, log))
  }

  /** The leaf encoding has no length prefix, but the fixed-width tail makes it unambiguous. */
  lemma LeafPreimageInjective(a: Entry, b: Entry)
    requires Is64Bit(a.timestamp) && Is64Bit(b.timestamp)
    requires LeafPreimage(a) == LeafPreimage(b)
    ensures a == b
  {
    FixedTail(a.user, a.bundle, BigEndian(Unsigned(a.timestamp), 8), b.user, b.bundle, BigEndian(Unsigned(b.timestamp), 8));
    Unsigned64(a.timestamp);
    Unsigned64(b.timestamp);
  }

  lemma FixedTail(u: Bytes, d: Digest, t: Bytes, v: Bytes, e: Digest, s: Bytes)
    requires |t| == |s| == 8 && [0] + u + d + t == [0] + v + e + s
    ensures u == v && d == e && t == s
  {
    var p := [0] + u + d + t;
    assert p[|p| - 8..] == t && p[|p| - 40..|p| - 8] == d && p[1..|p| - 40] == u;
    assert p == [0] + v + e + s;
    assert p[|p| - 8..] == s && p[|p| - 40..|p| - 8] == e && p[1..|p| - 40] == v;
  }

  lemma Unsigned64(timestamp: int)
    requires Is64Bit(timestamp)
    ensures FromBigEndian(BigEndian(Unsigned(timestamp), 8)) == Unsigned(timestamp)
  {
    assert Pow256(8) == 0x1_0000_0000_0000_0000;
    BigEndianRoundTrip(Unsigned(timestamp), 8);
  }

  // ---------- what the hash must keep apart ----------

  function SetOf(s: seq<Digest>): set<Digest> { set x | x in s }

  ghost predicate CollisionFree(sha: Hash, strings: set<Bytes>) {
    forall s, t :: s in strings && t in strings && sha(s) == sha(t) ==> s == t
  }

  /** The byte strings hashed by a set of node hashes. */
  ghost function NodeStrings(pairs: set<(Digest, Digest)>): set<Bytes> {
    set p | p in pairs :: NodePreimage(p.0, p.1)
  }

  ghost function LeafStrings(log: seq<Entry>): set<Bytes>
    requires ValidLog(log)
  {
    set i | 0 <= i < |log| :: LeafPreimage(log[i])
  }

  /** Every byte string hashed to compute the root of a non-empty log. */
  ghost function LogStrings(sha: Hash, log: seq<Entry>): set<Bytes>
    requires ValidLog(log) && log != []
  {
    LeafStrings(log) + NodeStrings(TreePairs(Node(sha), Leaves(sha, log)))
  }

  /** Every byte string hashed to check a proof for an entry. */
  ghost function ProofStrings(sha: Hash, e: Entry, proof: seq<ProofNode<Digest>>): set<Bytes>
    requires Is64Bit(e.timestamp)
  {
    {LeafPreimage(e)} + NodeStrings(ClimbPairs(Node(sha), LeafHash(sha, e), proof))
  }

  lemma NodePreimageInjective(p: (Digest, Digest), q: (Digest, Digest))
    requires NodePreimage(p.0, p.1) == NodePreimage(q.0, q.1)
    ensures p == q
  {
    var s, t := NodePreimage(p.0, p.1), NodePreimage(q.0, q.1);
    assert s[1..33] == p.0 && t[1..33] == q.0;
    assert s[33..] == p.1 && t[33..] == q.1;
  }

  /** Collision freedom of SHA-256 on the strings hashed gives what the tree proofs need: the 0x00 and
      0x01 prefixes keep leaves apart from nodes. */
  lemma PrefixesSeparate(sha: Hash, pairs: set<(Digest, Digest)>, log: seq<Entry>, strings: set<Bytes>)
    requires ValidLog(log) && CollisionFree(sha, strings)
    requires NodeStrings(pairs) <= strings && LeafStrings(log) <= strings
    ensures Faithful(Node(sha), pairs, SetOf(Leaves(sha, log)))
  {
    var node := Node(sha);
    forall p, q | p in pairs && q in pairs && node(p.0, p.1) == node(q.0, q.1) ensures p == q {
      assert NodePreimage(p.0, p.1) in strings && NodePreimage(q.0, q.1) in strings;
      NodePreimageInjective(p, q);
    }
    forall p | p in pairs ensures node(p.0, p.1) !in SetOf(Leaves(sha, log)) {
      assert NodePreimage(p.0, p.1) in strings && NodePreimage(p.0, p.1)[0] == 1;
      forall i | 0 <= i < |log| ensures Leaves(sha, log)[i] != node(p.0, p.1) {
        assert LeafPreimage(log[i]) in strings && LeafPreimage(log[i])[0] == 0;
      }
    }
  }

  // ---------- what an accepted proof means ----------

  /** An entry and proof are accepted against a log's root exactly when the log holds that entry and
      the proof is its own audit path. */
  lemma AcceptedIffLogged(sha: Hash, log: seq<Entry>, e: Entry, proof: seq<ProofNode<Digest>>)
    requires ValidLog(log) && log != [] && Is64Bit(e.timestamp)
    requires CollisionFree(sha, LogStrings(sha, log) + ProofStrings(sha, e, proof))
    ensures Climb(Node(sha), LeafHash(sha, e), proof) == Root(sha, log)
       <==> exists i :: 0 <= i < |log| && log[i] == e && proof == AuditPath(Node(sha), Leaves(sha, log), i)
  {
    var node, leaves, h := Node(sha), Leaves(sha, log), LeafHash(sha, e);
    forall i | 0 <= i < |log| && log[i] == e && proof == AuditPath(node, leaves, i)
      ensures Climb(node, h, proof) == Root(sha, log)
    {
      ProofVerifies(node, leaves, i);
    }
    if Climb(node, h, proof) == Root(sha, log) {
      var pairs := TreePairs(node, leaves) + ClimbPairs(node, h, proof);
      var strings := LogStrings(sha, log) + ProofStrings(sha, e, proof);
      PairStrings(sha, log, e, proof);
      PrefixesSeparate(sha, pairs, log + [e], strings);
      assert SetOf(Leaves(sha, log + [e])) == SetOf(leaves) + {h} by { LeavesAppend(sha, log, e); }
      var i := ProofUnique(node, leaves, h, proof, pairs, SetOf(leaves) + {h});
      assert LeafPreimage(log[i]) in strings && LeafPreimage(e) in strings;
      LeafPreimageInjective(log[i], e);
    }
  }

  lemma LeavesAppend(sha: Hash, log: seq<Entry>, e: Entry)
    requires ValidLog(log) && Is64Bit(e.timestamp)
    ensures ValidLog(log + [e]) && Leaves(sha, log + [e]) == Leaves(sha, log) + [LeafHash(sha, e)]
    ensures SetOf(Leaves(sha, log + [e])) == SetOf(Leaves(sha, log)) + {LeafHash(sha, e)}
  {
    var a, b := Leaves(sha, log + [e]), Leaves(sha, log) + [LeafHash(sha, e)];
    assert a == b;
  }

  lemma PairStrings(sha: Hash, log: seq<Entry>, e: Entry, proof: seq<ProofNode<Digest>>)
    requires ValidLog(log) && log != [] && Is64Bit(e.timestamp)
    ensures var node, leaves, h := Node(sha), Leaves(sha, log), LeafHash(sha, e);
            var strings := LogStrings(sha, log) + ProofStrings(sha, e, proof);
            NodeStrings(TreePairs(node, leaves) + ClimbPairs(node, h, proof)) <= strings &&
            ValidLog(log + [e]) && LeafStrings(log + [e]) <= strings
  {
    forall s | s in LeafStrings(log + [e]) ensures s in LeafStrings(log) + {LeafPreimage(e)} {
      var i :| 0 <= i < |log + [e]| && s == LeafPreimage((log + [e])[i]);
      if i < |log| {
        assert s == LeafPreimage(log[i]);
      }
    }
  }

  /** Two non-empty logs with the same root are the same log; so every append changes the root. */
  lemma RootDeterminesEntries(sha: Hash, a: seq<Entry>, b: seq<Entry>)
    requires ValidLog(a) && ValidLog(b) && a != [] && b != []
    requires CollisionFree(sha, LogStrings(sha, a) + LogStrings(sha, b))
    ensures Root(sha, a) == Root(sha, b) <==> a == b
  {
    if Root(sha, a) == Root(sha, b) {
      var node, la, lb := Node(sha), Leaves(sha, a), Leaves(sha, b);
      var strings := LogStrings(sha, a) + LogStrings(sha, b);
      var pairs := TreePairs(node, la) + TreePairs(node, lb);
      assert NodeStrings(pairs) <= strings;
      PrefixesSeparate(sha, pairs, a, strings);
      PrefixesSeparate(sha, pairs, b, strings);
      RootDeterminesLog(node, la, lb, pairs, SetOf(la) + SetOf(lb));
      forall i | 0 <= i < |a| ensures a[i] == b[i] {
        assert la[i] == lb[i] && LeafPreimage(a[i]) in strings && LeafPreimage(b[i]) in strings;
        LeafPreimageInjective(a[i], b[i]);
      }
    }
  }

  // ---------- the server's and the browser's verifiers ----------

  /** The root of a log of leaf hashes. */
  function LogRoot(sha: Hash, leaves: seq<Digest>): Digest {
    if leaves == [] then ZERO_ROOT else TreeHash(Node(sha), leaves)
  }

  method ComputeLogRoot(sha: Hash, leaves: seq<Digest>) returns (root: Digest)
    ensures root == LogRoot(sha, leaves)
  {
    root := ComputeRoot(Node(sha), ZERO_ROOT, leaves);
  }

  // ---------- roots, leaves and paths by their bytes ----------

  lemma NodeOnBytes(sha: Hash, left: Digest, right: Digest, w: Bytes)
    requires |w| == 1 + 2 * DIGEST_LEN && w[0] == 1 && w[1..33] == left && w[33..65] == right
    ensures Node(sha)(left, right) == sha(w)
  {
    assert w == w[..1] + w[1..33] + w[33..65];
    assert NodePreimage(left, right) == w;
  }

  /** The root: zeros for the empty log, the leaf of a single one, and otherwise the hash of the 65 bytes 1,
      the root of the first k leaves and the root of the others, k the largest power of two below n. */
  lemma RootOnBytes(sha: Hash, leaves: seq<Digest>, e: nat, w: Bytes)
    ensures |LogRoot(sha, [])| == 32 && forall i :: 0 <= i < 32 ==> LogRoot(sha, [])[i] == 0
    ensures |leaves| == 1 ==> LogRoot(sha, leaves) == leaves[0]
    ensures Exp2(e) < |leaves| <= 2 * Exp2(e) && |w| == 65 && w[0] == 1 &&
            w[1..33] == LogRoot(sha, leaves[..Exp2(e)]) && w[33..65] == LogRoot(sha, leaves[Exp2(e)..])
        ==> LogRoot(sha, leaves) == sha(w)
  {
    if Exp2(e) < |leaves| <= 2 * Exp2(e) && |w| == 65 && w[0] == 1 &&
       w[1..33] == LogRoot(sha, leaves[..Exp2(e)]) && w[33..65] == LogRoot(sha, leaves[Exp2(e)..])
    {
      SplitPointIs(|leaves|, e);
      NodeOnBytes(sha, LogRoot(sha, leaves[..Exp2(e)]), LogRoot(sha, leaves[Exp2(e)..]), w);
    }
  }

  /** A leaf: the hash of 0, the user, the 32 bytes of the bundle hash, and eight bytes that are, big-endian,
      the timestamp modulo 2^64. */
  lemma LeafOnBytes(sha: Hash, e: Entry, w: Bytes)
    requires Is64Bit(e.timestamp) && |w| == |e.user| + 41 && w[0] == 0
    requires var n := |e.user| + 1; w[1..n] == e.user && w[n..n + 32] == e.bundle
    requires FromBigEndian(w[|e.user| + 33..]) == if e.timestamp < 0 then e.timestamp + 0x1_0000_0000_0000_0000 else e.timestamp
    ensures LeafHash(sha, e) == sha(w)
  {
    BigEndianInverse(w[|e.user| + 33..]);
    assert w == [0] + e.user + e.bundle + w[|e.user| + 33..];
  }

  const NODE_LEN: nat := 33

  /** The flat layout: one side byte (1 for a sibling on the left) and the sibling hash, per node. */
  function Flatten(path: seq<ProofNode<Digest>>): (flat: Bytes)
    ensures |flat| == NODE_LEN * |path|
  {
    if path == [] then [] else
    Flatten(path[..|path| - 1]) + FlatNode(path[|path| - 1])
  }

  /** How the browser reads the first n nodes of the flat layout. */
  function Unflatten(flat: Bytes, n: nat): (path: seq<ProofNode<Digest>>)
    requires NODE_LEN * n <= |flat|
    ensures |path| == n
  {
    if n == 0 then [] else
    var at := NODE_LEN * (n - 1);
    Unflatten(flat, n - 1) + [ProofNode(flat[at] == 1, flat[at + 1..at + NODE_LEN])]
  }

  lemma {:induction false} UnflattenPrefix(flat: Bytes, more: Bytes, n: nat)
    requires NODE_LEN * n <= |flat|
    ensures Unflatten(flat + more, n) == Unflatten(flat, n)
    decreases n
  {
    if n > 0 {
      var at := NODE_LEN * (n - 1);
      UnflattenPrefix(flat, more, n - 1);
      assert (flat + more)[at + 1..at + NODE_LEN] == flat[at + 1..at + NODE_LEN];
    }
  }

  function FlatNode(node: ProofNode<Digest>): (flat: Bytes)
    ensures |flat| == NODE_LEN
  {
    [if node.left then 1 else 0] + node.hash
  }

  lemma UnflattenPush(flat: Bytes, n: nat, node: ProofNode<Digest>)
    requires |flat| == NODE_LEN * n
    ensures Unflatten(flat + FlatNode(node), n + 1) == Unflatten(flat, n) + [node]
  {
    var more := flat + FlatNode(node);
    UnflattenPrefix(flat, FlatNode(node), n);
    assert more[|flat|] == FlatNode(node)[0];
    assert more[|flat| + 1..|flat| + NODE_LEN] == node.hash;
  }

  lemma {:induction false} UnflattenFlatten(path: seq<ProofNode<Digest>>)
    ensures Unflatten(Flatten(path), |path|) == path
  {
    if path != [] {
      var front, last := path[..|path| - 1], path[|path| - 1];
      UnflattenFlatten(front);
      UnflattenPush(Flatten(front), |front|, last);
      assert path == front + [last];
    }
  }

  /** flattenPath fills a fixed-size array in place, node by node. */
  method FlattenPath(path: seq<ProofNode<Digest>>) returns (out: array<Byte>)
    ensures fresh(out) && out[..] == Flatten(path)
  {
    out := new Byte[NODE_LEN * |path|](_ => 0);
    for i := 0 to |path|
      invariant out[..NODE_LEN * i] == Flatten(path[..i])
    {
      WriteNode(out, NODE_LEN * i, path[i]);
      assert path[..i + 1][..i] == path[..i];
    }
    assert path[..|path|] == path && out[..NODE_LEN * |path|] == out[..];
  }

  // One node of the layout, in place.
  method WriteNode(out: array<Byte>, at: nat, node: ProofNode<Digest>)
    requires at + NODE_LEN <= out.Length
    modifies out
    ensures out[..at + NODE_LEN] == old(out[..at]) + FlatNode(node)
  {
    out[at] := if node.left then 1 else 0;
    Fill(out, at + 1, node.hash);
    assert out[..at] == old(out[..at]);
    assert out[..at + NODE_LEN] == out[..at] + [out[at]] + out[at + 1..at + NODE_LEN];
  }

  predicate FlatAccepts(sha: Hash, leaf: Bytes, flat: Bytes, root: Bytes) {
    |leaf| == DIGEST_LEN && |root| == DIGEST_LEN && |flat| % NODE_LEN == 0 &&
    Climb(Node(sha), leaf, Unflatten(flat, |flat| / NODE_LEN)) == root
  }

  function HeadNode(flat: Bytes): ProofNode<Digest>
    requires |flat| >= NODE_LEN
  {
    ProofNode(flat[0] == 1, flat[1..NODE_LEN])
  }

  lemma {:induction false} UnflattenHead(flat: Bytes, n: nat)
    requires n > 0 && NODE_LEN * n <= |flat|
    ensures Unflatten(flat, n) == [HeadNode(flat)] + Unflatten(flat[NODE_LEN..], n - 1)
  {
    if n > 1 {
      UnflattenHead(flat, n - 1);
      var at, rest := NODE_LEN * (n - 1), flat[NODE_LEN..];
      assert rest[at - NODE_LEN] == flat[at] && rest[at - NODE_LEN + 1..at] == flat[at + 1..at + NODE_LEN];
    }
  }

  /** w is 1, left child, right child, for a value h and the node in front of the flat path. */
  predicate Joins(w: Bytes, h: Digest, flat: Bytes)
    requires |flat| >= 33
  {
    |w| == 65 && w[0] == 1 &&
    if flat[0] == 1 then w[1..33] == flat[1..33] && w[33..65] == h else w[1..33] == h && w[33..65] == flat[1..33]
  }

  lemma ClimbOnBytes(sha: Hash, leaf: Digest, flat: Bytes, n: nat, w: Bytes)
    requires n > 0 && |flat| == NODE_LEN * n && Joins(w, leaf, flat)
    ensures Climb(Node(sha), leaf, Unflatten(flat, n)) == Climb(Node(sha), sha(w), Unflatten(flat[33..], n - 1))
  {
    var path := Unflatten(flat, n);
    UnflattenHead(flat, n);
    ClimbHead(Node(sha), leaf, path);
    assert path[0] == HeadNode(flat) && path[1..] == Unflatten(flat[33..], n - 1);
    NodeOnBytes(sha, w[1..33], w[33..65], w);
  }

  /** What the client accepts, by the bytes: the root itself when no node is left; otherwise what it accepts
      for the hash of the 65 bytes 1, left child and right child, where the sibling is on the left exactly
      when the node's first byte is 1. */
  lemma FlatOnBytes(sha: Hash, leaf: Digest, flat: Bytes, root: Digest, w: Bytes)
    ensures flat == [] ==> (FlatAccepts(sha, leaf, flat, root) <==> leaf == root)
    ensures |flat| >= 33 && Joins(w, leaf, flat)
        ==> (FlatAccepts(sha, leaf, flat, root) <==> FlatAccepts(sha, sha(w), flat[33..], root))
    ensures |flat| % 33 != 0 ==> !FlatAccepts(sha, leaf, flat, root)
  {
    if |flat| >= 33 && |flat| % 33 == 0 && Joins(w, leaf, flat) {
      ClimbOnBytes(sha, leaf, flat, |flat| / NODE_LEN, w);
    }
  }

  method VerifyFlat(sha: Hash, leaf: Bytes, flat: Bytes, root: Bytes) returns (ok: bool)
    ensures ok == FlatAccepts(sha, leaf, flat, root)
  {
    if |leaf| != DIGEST_LEN || |root| != DIGEST_LEN || |flat| % NODE_LEN != 0 {
      return false;
    }
    var h: Digest := leaf;
    for i := 0 to |flat| / NODE_LEN
      invariant |leaf| == DIGEST_LEN && h == Climb(Node(sha), leaf, Unflatten(flat, i))
    {
      var at := NODE_LEN * i;
      var sib: Digest := flat[at + 1..at + NODE_LEN];
      assert Unflatten(flat, i + 1)[..i] == Unflatten(flat, i);
      h := if flat[at] == 1 then sha(NodePreimage(sib, h)) else sha(NodePreimage(h, sib));
    }
    ok := h == root;
  }

  function Concat(parts: seq<Bytes>): Bytes {
    if parts == [] then [] else parts[0] + Concat(parts[1..])
  }

  /** The signed integer with the same 64 bits. */
  function Signed(n: nat): (t: int)
    requires n < 0x1_0000_0000_0000_0000
    ensures Is64Bit(t) && Unsigned(t) == n
  {
    if n < 0x8000_0000_0000_0000 then n else n - 0x1_0000_0000_0000_0000
  }

  /** The inclusion step of verifyBundle: the leaf is recomputed from the key fields received. */
  method VerifyBundleInclusion(sha: Hash, user: Bytes, fields: seq<Bytes>, timestamp: nat,
                               path: seq<ProofNode<Digest>>, root: Bytes) returns (ok: bool)
    requires timestamp < 0x1_0000_0000_0000_0000
    ensures ok == (Climb(Node(sha), LeafHash(sha, Entry(user, sha(Concat(fields)), Signed(timestamp))), path) == root)
  {
    var leaf := sha([0] + user + sha(Concat(fields)) + BigEndian(timestamp, 8));
    var flat := FlattenPath(path);
    UnflattenFlatten(path);
    ok := VerifyFlat(sha, leaf, flat[..], root);
  }
}
