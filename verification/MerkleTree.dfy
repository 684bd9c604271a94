/** Merkle trees built level by level, as server/src/crypto/kt_log.rs does, against the recursive tree
    hash and audit path of sections 2.1 and 2.1.1 of RFC 6962. `node` is the hash of two digests. */
module MerkleTree {
  import opened Hiding
  import opened PowersOfTwo

  /** A sibling on the way to the root; `left` when it stands on the left. */
  datatype ProofNode<D> = ProofNode(left: bool, hash: D)

  // ---------- RFC 6962 ----------

  /** The largest power of two smaller than n. */
  function SplitPoint(n: nat): (k: nat)
    requires n > 1
    ensures 0 < k < n <= 2 * k
  {
    if n == 2 then 1 else 2 * SplitPoint((n + 1) / 2)
  }

  lemma {:induction false} SplitPointIsPower(n: nat) returns (e: nat)
    requires n > 1
    ensures SplitPoint(n) == Exp2(e)
  {
    if n == 2 {
      e := 0;
    } else {
      var half := SplitPointIsPower((n + 1) / 2);
      e := half + 1;
    }
  }

  /** The power of two below n and at least half of it is the split point. */
  lemma SplitPointIs(n: nat, e: nat)
    requires Exp2(e) < n <= 2 * Exp2(e)
    ensures n > 1 && SplitPoint(n) == Exp2(e)
  {
    var d := SplitPointIsPower(n);
    Exp2Unique(d, e, n);
  }

  /** Section 2.1: the Merkle tree hash of a non-empty list of leaf hashes. */
  function TreeHash<D>(node: (D, D) -> D, leaves: seq<D>): D
    requires leaves != []
    decreases |leaves|
  {
    if |leaves| == 1 then leaves[0] else
    var k := SplitPoint(|leaves|);
    node(TreeHash(node, leaves[..k]), TreeHash(node, leaves[k..]))
  }

  /** Section 2.1.1: the audit path of leaf i, nearest sibling first. */
  function AuditPath<D>(node: (D, D) -> D, leaves: seq<D>, i: nat): seq<ProofNode<D>>
    requires i < |leaves|
    decreases |leaves|
  {
    if |leaves| == 1 then [] else
    var k := SplitPoint(|leaves|);
    if i < k then AuditPath(node, leaves[..k], i) + [ProofNode(false, TreeHash(node, leaves[k..]))]
    else AuditPath(node, leaves[k..], i - k) + [ProofNode(true, TreeHash(node, leaves[..k]))]
  }

  // ---------- one level up ----------

  /** Pairs hashed, an odd last node promoted. */
  function NextLevel<D>(node: (D, D) -> D, level: seq<D>): (next: seq<D>)
    ensures |next| == (|level| + 1) / 2
  {
    if |level| == 0 then []
    else if |level| == 1 then level
    else [node(level[0], level[1])] + NextLevel(node, level[2..])
  }

  method BuildNextLevel<D>(node: (D, D) -> D, level: seq<D>) returns (next: seq<D>)
    ensures next == NextLevel(node, level)
  {
    next := [];
    var i := 0;
    while i < |level|
      invariant 0 <= i <= |level|
      invariant NextLevel(node, level) == next + NextLevel(node, level[i..])
    {
      if i + 1 < |level| {
        assert level[i..][2..] == level[i + 2..];
        next := next + [node(level[i], level[i + 1])];
        i := i + 2;
      } else {
        assert level[i..] == [level[i]];
        next := next + [level[i]];
        i := i + 1;
      }
    }
  }

  lemma {:induction false} NextLevelSplits<D>(node: (D, D) -> D, level: seq<D>, k: nat)
    requires k <= |level| && k % 2 == 0
    ensures NextLevel(node, level[..k]) + NextLevel(node, level[k..]) == NextLevel(node, level)
    decreases k
  {
    if k == 0 {
      assert level[0..] == level;
    } else {
      var rest := level[2..];
      NextLevelSplits(node, rest, k - 2);
      assert level[..k][2..] == rest[..k - 2] && level[k..] == rest[k - 2..];
      Regroup([node(level[0], level[1])], NextLevel(node, rest[..k - 2]), NextLevel(node, rest[k - 2..]));
    }
  }

  lemma Regroup<D>(x: seq<D>, y: seq<D>, z: seq<D>)
    ensures (x + y) + z == x + (y + z)
  {}

  lemma SplitPointHalves(n: nat)
    requires n > 2
    ensures SplitPoint(n) % 2 == 0 && SplitPoint((n + 1) / 2) == SplitPoint(n) / 2
  {}

  lemma {:induction false} LevelKeepsRoot<D>(node: (D, D) -> D, level: seq<D>)
    requires |level| > 1
    ensures TreeHash(node, NextLevel(node, level)) == TreeHash(node, level)
    decreases |level|
  {
    if |level| == 2 {
      assert level[..1] == [level[0]] && level[1..] == [level[1]];
    } else {
      var k := SplitPoint(|level|);
      var next := NextLevel(node, level);
      SplitPointHalves(|level|);
      NextLevelSplits(node, level, k);
      assert next[..k / 2] == NextLevel(node, level[..k]) && next[k / 2..] == NextLevel(node, level[k..]);
      LevelKeepsRoot(node, level[..k]);
      if |level[k..]| > 1 {
        LevelKeepsRoot(node, level[k..]);
      }
    }
  }

  /** The sibling that one level adds to a path, if any. */
  function Sibling<D>(level: seq<D>, i: nat): seq<ProofNode<D>>
    requires i < |level|
  {
    if i % 2 == 1 then [ProofNode(true, level[i - 1])]
    else if i + 1 < |level| then [ProofNode(false, level[i + 1])]
    else []
  }

  /** How the halves of a level sit in the next one. */
  lemma HalvesOfNext<D>(node: (D, D) -> D, level: seq<D>)
    requires |level| > 2
    ensures var k, next := SplitPoint(|level|), NextLevel(node, level);
            k % 2 == 0 && SplitPoint(|next|) == k / 2 &&
            next[..k / 2] == NextLevel(node, level[..k]) && next[k / 2..] == NextLevel(node, level[k..]) &&
            TreeHash(node, next[..k / 2]) == TreeHash(node, level[..k]) &&
            TreeHash(node, next[k / 2..]) == TreeHash(node, level[k..])
  {
    var k := SplitPoint(|level|);
    SplitPointHalves(|level|);
    NextLevelSplits(node, level, k);
    LevelKeepsRoot(node, level[..k]);
    if |level[k..]| > 1 {
      LevelKeepsRoot(node, level[k..]);
    }
  }

  lemma PathOnLeft<D>(node: (D, D) -> D, leaves: seq<D>, k: nat, i: nat)
    requires |leaves| > 1 && k == SplitPoint(|leaves|) && i < k
    ensures AuditPath(node, leaves, i)
         == AuditPath(node, leaves[..k], i) + [ProofNode(false, TreeHash(node, leaves[k..]))]
  {}

  lemma SiblingInLeftHalf<D>(level: seq<D>, k: nat, i: nat)
    requires k % 2 == 0 && i < k <= |level|
    ensures Sibling(level[..k], i) == Sibling(level, i)
  {}

  /** Putting a path together from a half's path: `up` is the other half's root. */
  lemma Compose<D>(path: seq<ProofNode<D>>, half: seq<ProofNode<D>>, sibling: seq<ProofNode<D>>, above: seq<ProofNode<D>>,
                   next: seq<ProofNode<D>>, up: ProofNode<D>)
    requires path == half + [up] && half == sibling + above && next == above + [up]
    ensures path == sibling + next
  {}

  lemma PathInLeftHalf<D>(node: (D, D) -> D, level: seq<D>, k: nat, i: nat)
    requires |level| > 2 && k == SplitPoint(|level|) && i < k
    requires AuditPath(node, level[..k], i) == Sibling(level[..k], i) + AuditPath(node, NextLevel(node, level[..k]), i / 2)
    ensures AuditPath(node, level, i) == Sibling(level, i) + AuditPath(node, NextLevel(node, level), i / 2)
  {
    HalvesOfNext(node, level);
    PathOnLeft(node, level, k, i);
    PathOnLeft(node, NextLevel(node, level), k / 2, i / 2);
    SiblingInLeftHalf(level, k, i);
    Compose(AuditPath(node, level, i), AuditPath(node, level[..k], i), Sibling(level, i),
            AuditPath(node, NextLevel(node, level[..k]), i / 2), AuditPath(node, NextLevel(node, level), i / 2),
            ProofNode(false, TreeHash(node, level[k..])));
  }

  lemma HalveDifference(i: nat, k: nat)
    requires k <= i && k % 2 == 0
    ensures (i - k) / 2 == i / 2 - k / 2 && (i - k) % 2 == i % 2
  {}

  lemma SiblingInRightHalf<D>(level: seq<D>, k: nat, i: nat)
    requires k % 2 == 0 && k <= i < |level|
    ensures Sibling(level[k..], i - k) == Sibling(level, i)
  {
    HalveDifference(i, k);
  }

  lemma PathOnRight<D>(node: (D, D) -> D, leaves: seq<D>, k: nat, i: nat)
    requires |leaves| > 1 && k == SplitPoint(|leaves|) && k <= i < |leaves|
    ensures AuditPath(node, leaves, i)
         == AuditPath(node, leaves[k..], i - k) + [ProofNode(true, TreeHash(node, leaves[..k]))]
  {}

  lemma PathInRightHalf<D>(node: (D, D) -> D, level: seq<D>, k: nat, i: nat)
    requires |level| > 2 && k == SplitPoint(|level|) && k <= i < |level|
    requires AuditPath(node, level[k..], i - k)
          == Sibling(level[k..], i - k) + AuditPath(node, NextLevel(node, level[k..]), (i - k) / 2)
    ensures AuditPath(node, level, i) == Sibling(level, i) + AuditPath(node, NextLevel(node, level), i / 2)
  {
    HalvesOfNext(node, level);
    HalveDifference(i, k);
    PathOnRight(node, level, k, i);
    PathOnRight(node, NextLevel(node, level), k / 2, i / 2);
    SiblingInRightHalf(level, k, i);
    Compose(AuditPath(node, level, i), AuditPath(node, level[k..], i - k), Sibling(level, i),
            AuditPath(node, NextLevel(node, level[k..]), (i - k) / 2), AuditPath(node, NextLevel(node, level), i / 2),
            ProofNode(true, TreeHash(node, level[..k])));
  }

  lemma PathOfTwo<D>(node: (D, D) -> D, level: seq<D>, i: nat)
    requires |level| == 2 && i < 2
    ensures AuditPath(node, level, i) == Sibling(level, i) + AuditPath(node, NextLevel(node, level), i / 2)
  {
    assert level[..1] == [level[0]] && level[1..] == [level[1]];
    assert AuditPath(node, NextLevel(node, level), i / 2) == [];
  }

  lemma PathOfOne<D>(node: (D, D) -> D, level: seq<D>)
    requires |level| == 1
    ensures AuditPath(node, level, 0) == Sibling(level, 0) + AuditPath(node, NextLevel(node, level), 0)
  {}

  lemma {:induction false} NextLevelPath<D>(node: (D, D) -> D, level: seq<D>, i: nat)
    requires |level| > 0 && i < |level|
    ensures AuditPath(node, level, i) == Sibling(level, i) + AuditPath(node, NextLevel(node, level), i / 2)
    decreases |level|
  {
    if |level| == 1 {
      PathOfOne(node, level);
    } else if |level| == 2 {
      PathOfTwo(node, level, i);
    } else {
      var k := SplitPoint(|level|);
      if i < k {
        NextLevelPath(node, level[..k], i);
        PathInLeftHalf(node, level, k, i);
      } else {
        NextLevelPath(node, level[k..], i - k);
        PathInRightHalf(node, level, k, i);
      }
    }
  }

  // ---------- the loops of kt_log.rs ----------

  /** `empty` is the root of the empty log. */
  method ComputeRoot<D>(node: (D, D) -> D, empty: D, leaves: seq<D>) returns (root: D)
    ensures root == if leaves == [] then empty else TreeHash(node, leaves)
  {
    if leaves == [] {
      return empty;
    }
    var level := leaves;
    while |level| > 1
      invariant level != [] && TreeHash(node, level) == TreeHash(node, leaves)
      decreases |level|
    {
      LevelKeepsRoot(node, level);
      level := BuildNextLevel(node, level);
    }
    root := level[0];
  }

  /** Whether the Rust code reads past the end of a level: at an odd index, the sibling before it. An index
      in range never does; one out of range may pass through even positions and give a path all the same. */
  predicate ReadsPastEnd(n: nat, idx: nat)
    decreases n
  {
    n > 1 && ((idx % 2 == 1 && idx > n) || ReadsPastEnd((n + 1) / 2, idx / 2))
  }

  lemma {:induction false} InRangeIsSafe(n: nat, idx: nat)
    requires idx < n
    ensures !ReadsPastEnd(n, idx)
    decreases n
  {
    if n > 1 {
      InRangeIsSafe((n + 1) / 2, idx / 2);
    }
  }

  /** What one level contributes, for any index the code gets past. */
  function Contribution<D>(level: seq<D>, idx: nat): seq<ProofNode<D>>
    requires |level| > 1 && (idx % 2 == 1 ==> idx <= |level|)
  {
    if idx % 2 == 1 then [ProofNode(true, level[idx - 1])]
    else if idx + 1 < |level| then [ProofNode(false, level[idx + 1])]
    else []
  }

  function BottomUp<D>(node: (D, D) -> D, level: seq<D>, idx: nat): seq<ProofNode<D>>
    requires !ReadsPastEnd(|level|, idx)
    decreases |level|
  {
    if |level| <= 1 then [] else Contribution(level, idx) + BottomUp(node, NextLevel(node, level), idx / 2)
  }

  /** Bottom up and top down give the same path. */
  lemma {:induction false} BottomUpIsAuditPath<D>(node: (D, D) -> D, level: seq<D>, idx: nat)
    requires idx < |level|
    ensures !ReadsPastEnd(|level|, idx) && BottomUp(node, level, idx) == AuditPath(node, level, idx)
    decreases |level|
  {
    InRangeIsSafe(|level|, idx);
    if |level| > 1 {
      BottomUpIsAuditPath(node, NextLevel(node, level), idx / 2);
      NextLevelPath(node, level, idx);
    }
  }

  /** For an index of the log, its audit path. */
  method InclusionProof<D>(node: (D, D) -> D, leaves: seq<D>, index: nat) returns (proof: seq<ProofNode<D>>)
    requires !ReadsPastEnd(|leaves|, index)
    ensures index < |leaves| ==> proof == AuditPath(node, leaves, index)
    ensures proof == BottomUp(node, leaves, index)
  {
    proof := [];
    var level := leaves;
    var idx: nat := index;
    ghost var whole := BottomUp(node, leaves, index);
    while |level| > 1
      invariant !ReadsPastEnd(|level|, idx) && whole == proof + BottomUp(node, level, idx)
      decreases |level|
    {
      Regroup(proof, Contribution(level, idx), BottomUp(node, NextLevel(node, level), idx / 2));
      if idx % 2 == 1 {
        proof := proof + [ProofNode(true, level[idx - 1])];
      } else if idx + 1 < |level| {
        proof := proof + [ProofNode(false, level[idx + 1])];
      } else {
        assert proof + [] == proof;
      }
      level := BuildNextLevel(node, level);
      idx := idx / 2;
    }
    if index < |leaves| {
      BottomUpIsAuditPath(node, leaves, index);
    }
  }

  /** The running hash after the whole path. */
  function Climb<D>(node: (D, D) -> D, h: D, proof: seq<ProofNode<D>>): D {
    if proof == [] then h else
    var last := proof[|proof| - 1];
    var below := Climb(node, h, proof[..|proof| - 1]);
    if last.left then node(last.hash, below) else node(below, last.hash)
  }

  lemma {:induction false} ClimbHead<D>(node: (D, D) -> D, h: D, proof: seq<ProofNode<D>>)
    requires proof != []
    ensures Climb(node, h, proof)
         == Climb(node, if proof[0].left then node(proof[0].hash, h) else node(h, proof[0].hash), proof[1..])
  {
    if |proof| > 1 {
      ClimbHead(node, h, proof[..|proof| - 1]);
      assert proof[..|proof| - 1][1..] == proof[1..][..|proof| - 2];
    }
  }

  method VerifyInclusion<D(==)>(node: (D, D) -> D, leaf: D, proof: seq<ProofNode<D>>, root: D) returns (ok: bool)
    ensures ok == (Climb(node, leaf, proof) == root)
  {
    var h := leaf;
    for i := 0 to |proof|
      invariant h == Climb(node, leaf, proof[..i])
    {
      var sibling := proof[i];
      assert proof[..i + 1][..i] == proof[..i];
      h := if sibling.left then node(sibling.hash, h) else node(h, sibling.hash);
    }
    assert proof[..|proof|] == proof;
    ok := h == root;
  }

  /** Completeness, for every hash function: the proof of an entry verifies against the root. */
  lemma {:induction false} ProofVerifies<D>(node: (D, D) -> D, leaves: seq<D>, i: nat)
    requires i < |leaves|
    ensures Climb(node, leaves[i], AuditPath(node, leaves, i)) == TreeHash(node, leaves)
    decreases |leaves|
  {
    if |leaves| > 1 {
      var k := SplitPoint(|leaves|);
      var path := AuditPath(node, leaves, i);
      if i < k {
        ProofVerifies(node, leaves[..k], i);
        PathOnLeft(node, leaves, k, i);
        assert path[..|path| - 1] == AuditPath(node, leaves[..k], i);
      } else {
        ProofVerifies(node, leaves[k..], i - k);
        PathOnRight(node, leaves, k, i);
        assert path[..|path| - 1] == AuditPath(node, leaves[k..], i - k);
      }
    }
  }

  // ---------- soundness, from what the hash does not confuse ----------

  /** The pairs hashed to compute a root. */
  ghost function TreePairs<D(!new)>(node: (D, D) -> D, leaves: seq<D>): set<(D, D)>
    requires leaves != []
    decreases |leaves|
  {
    if |leaves| == 1 then {} else
    var k := SplitPoint(|leaves|);
    {Halves(node, leaves)} + TreePairs(node, leaves[..k]) + TreePairs(node, leaves[k..])
  }

  /** The pair hashed last along a path, when there is one. */
  function LastPair<D>(node: (D, D) -> D, h: D, proof: seq<ProofNode<D>>): (D, D)
    requires proof != []
  {
    var last, below := proof[|proof| - 1], Climb(node, h, proof[..|proof| - 1]);
    if last.left then (last.hash, below) else (below, last.hash)
  }

  /** The pairs hashed to check a proof. */
  ghost function ClimbPairs<D(!new)>(node: (D, D) -> D, h: D, proof: seq<ProofNode<D>>): set<(D, D)> {
    if proof == [] then {} else
    {LastPair(node, h, proof)} + ClimbPairs(node, h, proof[..|proof| - 1])
  }

  /** No two of the pairs have the same hash, and none hashes to one of the leaves. */
  ghost predicate Faithful<D(!new)>(node: (D, D) -> D, pairs: set<(D, D)>, leaves: set<D>) {
    && (forall p, q :: p in pairs && q in pairs && node(p.0, p.1) == node(q.0, q.1) ==> p == q)
    && (forall p :: p in pairs ==> node(p.0, p.1) !in leaves)
  }

  predicate AllIn<D>(s: seq<D>, all: set<D>) { forall i :: 0 <= i < |s| ==> s[i] in all }

  lemma TopOfPath<D(!new)>(node: (D, D) -> D, h: D, proof: seq<ProofNode<D>>)
    ensures proof != [] ==> var p := LastPair(node, h, proof); p in ClimbPairs(node, h, proof) && Climb(node, h, proof) == node(p.0, p.1)
  {}

  lemma TopOfTree<D(!new)>(node: (D, D) -> D, leaves: seq<D>)
    requires leaves != []
    ensures |leaves| == 1 ==> TreeHash(node, leaves) == leaves[0]
    ensures |leaves| > 1 ==>
              var p := Halves(node, leaves);
              p in TreePairs(node, leaves) && TreeHash(node, leaves) == node(p.0, p.1)
  {}

  /** The pair hashed last for a root. */
  function Halves<D>(node: (D, D) -> D, leaves: seq<D>): (D, D)
    requires |leaves| > 1
  {
    var k := SplitPoint(|leaves|);
    (TreeHash(node, leaves[..k]), TreeHash(node, leaves[k..]))
  }

  predicate IsPathOf<D(==)>(node: (D, D) -> D, leaves: seq<D>, i: nat, h: D, proof: seq<ProofNode<D>>) {
    i < |leaves| && leaves[i] == h && proof == AuditPath(node, leaves, i)
  }

  lemma LiftRight<D>(node: (D, D) -> D, leaves: seq<D>, j: nat, h: D, front: seq<ProofNode<D>>, last: ProofNode<D>) returns (i: nat)
    requires |leaves| > 1 && IsPathOf(node, leaves[SplitPoint(|leaves|)..], j, h, front)
    requires last == ProofNode(true, TreeHash(node, leaves[..SplitPoint(|leaves|)]))
    ensures IsPathOf(node, leaves, i, h, front + [last])
  {
    i := j + SplitPoint(|leaves|);
    PathOnRight(node, leaves, SplitPoint(|leaves|), i);
  }

  lemma LiftLeft<D>(node: (D, D) -> D, leaves: seq<D>, i: nat, h: D, front: seq<ProofNode<D>>, last: ProofNode<D>)
    requires |leaves| > 1 && IsPathOf(node, leaves[..SplitPoint(|leaves|)], i, h, front)
    requires last == ProofNode(false, TreeHash(node, leaves[SplitPoint(|leaves|)..]))
    ensures IsPathOf(node, leaves, i, h, front + [last])
  {
    PathOnLeft(node, leaves, SplitPoint(|leaves|), i);
  }

  /** What the next lemma asks, hidden until needed. */
  ghost predicate Leads<D(!new)>(node: (D, D) -> D, leaves: seq<D>, h: D, proof: seq<ProofNode<D>>, pairs: set<(D, D)>, all: set<D>) {
    leaves != [] && forall k: nat :: Look(k) ==>
      && Climb(node, h, proof) == TreeHash(node, leaves)
      && TreePairs(node, leaves) <= pairs && ClimbPairs(node, h, proof) <= pairs
      && Faithful(node, pairs, all) && AllIn(leaves, all) && h in all
  }

  lemma LeadsToLeaf<D(!new)>(node: (D, D) -> D, leaves: seq<D>, h: D, proof: seq<ProofNode<D>>, pairs: set<(D, D)>, all: set<D>)
    requires Leads(node, leaves, h, proof, pairs, all) && |leaves| == 1
    ensures IsPathOf(node, leaves, 0, h, proof)
  {
    assert Look(0);
    TopOfPath(node, h, proof);
    TopOfTree(node, leaves);
    assert leaves[0] in all;
    assert proof == [];
  }

  lemma LeadsToHalf<D(!new)>(node: (D, D) -> D, leaves: seq<D>, h: D, proof: seq<ProofNode<D>>, pairs: set<(D, D)>, all: set<D>)
    requires Leads(node, leaves, h, proof, pairs, all) && |leaves| > 1
    ensures proof != []
    ensures var k, front, last := SplitPoint(|leaves|), proof[..|proof| - 1], proof[|proof| - 1];
      if last.left then Leads(node, leaves[k..], h, front, pairs, all) && last.hash == TreeHash(node, leaves[..k])
      else Leads(node, leaves[..k], h, front, pairs, all) && last.hash == TreeHash(node, leaves[k..])
  {
    assert Look(0);
    StepsMeet(node, leaves, h, proof, pairs, all);
    PairsOfHalves(node, leaves);
    AllInHalves(leaves, SplitPoint(|leaves|), all);
  }

  lemma {:induction false} LeadsIsPath<D(!new)>(node: (D, D) -> D, leaves: seq<D>, h: D, proof: seq<ProofNode<D>>, pairs: set<(D, D)>, all: set<D>)
    returns (i: nat)
    requires Leads(node, leaves, h, proof, pairs, all)
    ensures IsPathOf(node, leaves, i, h, proof)
    decreases |leaves|
  {
    if |leaves| == 1 {
      LeadsToLeaf(node, leaves, h, proof, pairs, all);
      i := 0;
    } else {
      LeadsToHalf(node, leaves, h, proof, pairs, all);
      var k, front, last := SplitPoint(|leaves|), proof[..|proof| - 1], proof[|proof| - 1];
      if last.left {
        var j := LeadsIsPath(node, leaves[k..], h, front, pairs, all);
        i := LiftRight(node, leaves, j, h, front, last);
      } else {
        i := LeadsIsPath(node, leaves[..k], h, front, pairs, all);
        LiftLeft(node, leaves, i, h, front, last);
      }
      assert proof == front + [last];
    }
  }

  /** A path that leads from a leaf hash to the root is the audit path of an entry. */
  lemma ProofUnique<D(!new)>(node: (D, D) -> D, leaves: seq<D>, h: D, proof: seq<ProofNode<D>>, pairs: set<(D, D)>, all: set<D>)
    returns (i: nat)
    requires leaves != [] && Climb(node, h, proof) == TreeHash(node, leaves)
    requires TreePairs(node, leaves) <= pairs && ClimbPairs(node, h, proof) <= pairs
    requires Faithful(node, pairs, all) && AllIn(leaves, all) && h in all
    ensures i < |leaves| && leaves[i] == h && proof == AuditPath(node, leaves, i)
  {
    i := LeadsIsPath(node, leaves, h, proof, pairs, all);
  }

  /** The last step up a path that leads to the root joins the tree's two halves. */
  lemma StepsMeet<D(!new)>(node: (D, D) -> D, leaves: seq<D>, h: D, proof: seq<ProofNode<D>>, pairs: set<(D, D)>, all: set<D>)
    requires |leaves| > 1 && Climb(node, h, proof) == TreeHash(node, leaves)
    requires TreePairs(node, leaves) <= pairs && ClimbPairs(node, h, proof) <= pairs
    requires Faithful(node, pairs, all) && h in all
    ensures proof != [] && ClimbPairs(node, h, proof[..|proof| - 1]) <= pairs
    ensures var k, last, below := SplitPoint(|leaves|), proof[|proof| - 1], Climb(node, h, proof[..|proof| - 1]);
            if last.left then last.hash == TreeHash(node, leaves[..k]) && below == TreeHash(node, leaves[k..])
            else below == TreeHash(node, leaves[..k]) && last.hash == TreeHash(node, leaves[k..])
  {
    TopOfPath(node, h, proof);
    TopOfTree(node, leaves);
    assert proof != [];
    assert LastPair(node, h, proof) == Halves(node, leaves);
  }

  lemma PairsOfHalves<D(!new)>(node: (D, D) -> D, leaves: seq<D>)
    requires |leaves| > 1
    ensures var k := SplitPoint(|leaves|);
            TreePairs(node, leaves[..k]) <= TreePairs(node, leaves) && TreePairs(node, leaves[k..]) <= TreePairs(node, leaves)
  {}

  /** The root determines the whole ordered log. */
  lemma {:induction false} RootDeterminesLog<D(!new)>(node: (D, D) -> D, a: seq<D>, b: seq<D>, pairs: set<(D, D)>, all: set<D>)
    requires a != [] && b != [] && TreeHash(node, a) == TreeHash(node, b)
    requires TreePairs(node, a) <= pairs && TreePairs(node, b) <= pairs
    requires Faithful(node, pairs, all) && AllIn(a, all) && AllIn(b, all)
    ensures a == b
    decreases |a|
  {
    SameShape(node, a, b, pairs, all);
    if |a| == 1 {
      assert a == [a[0]] && b == [b[0]];
    } else {
      var j, k := SplitPoint(|a|), SplitPoint(|b|);
      PairsOfHalves(node, a);
      PairsOfHalves(node, b);
      AllInHalves(a, j, all);
      AllInHalves(b, k, all);
      RootDeterminesLog(node, a[..j], b[..k], pairs, all);
      RootDeterminesLog(node, a[j..], b[k..], pairs, all);
      Rejoin(a, j, b, k);
    }
  }

  lemma Rejoin<D>(a: seq<D>, j: nat, b: seq<D>, k: nat)
    requires j <= |a| && k <= |b| && a[..j] == b[..k] && a[j..] == b[k..]
    ensures a == b
  {
    assert a == a[..j] + a[j..] && b == b[..k] + b[k..];
  }

  lemma AllInHalves<D>(s: seq<D>, k: nat, all: set<D>)
    requires k <= |s| && AllIn(s, all)
    ensures AllIn(s[..k], all) && AllIn(s[k..], all)
  {}

  /** Equal roots are both single leaves, or join equal halves. */
  lemma SameShape<D(!new)>(node: (D, D) -> D, a: seq<D>, b: seq<D>, pairs: set<(D, D)>, all: set<D>)
    requires a != [] && b != [] && TreeHash(node, a) == TreeHash(node, b)
    requires TreePairs(node, a) <= pairs && TreePairs(node, b) <= pairs
    requires Faithful(node, pairs, all) && AllIn(a, all) && AllIn(b, all)
    ensures |a| == 1 <==> |b| == 1
    ensures |a| == 1 ==> a[0] == b[0]
    ensures |a| > 1 ==>
      var j, k := SplitPoint(|a|), SplitPoint(|b|);
      TreeHash(node, a[..j]) == TreeHash(node, b[..k]) && TreeHash(node, a[j..]) == TreeHash(node, b[k..])
  {
    TopOfTree(node, a);
    TopOfTree(node, b);
    assert a[0] in all && b[0] in all;
    assert |a| > 1 ==> Halves(node, a) == Halves(node, b);
  }
}
