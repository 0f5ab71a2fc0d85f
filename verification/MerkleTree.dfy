/**
 * The bottom-up Merkle tree of the batch builder and the proof fold of the contract.
 * SHA-256 is a parameter `h` of every definition, so each theorem holds for every hash
 * function into 32 bytes. Soundness therefore cannot assume that `h` is injective: it says
 * that an accepted proof is either honest or hands over two distinct strings, taken from the
 * finitely many that builder and verifier hashed, with the same digest.
 */
module MerkleTree {
  import opened Arithmetic
  import opened ByteCodec
  import opened Wrappers

  type Digest = s: seq<byte> | |s| == 32 witness seq(32, _ => 0)

  type Hash = seq<byte> -> Digest

  const LEAF_DOMAIN: byte := 0
  const NODE_DOMAIN: byte := 1

  // ----- Sorted-pair node hashing -----

  /** Lexicographic order on byte strings, as `Buffer.compare(a, b) <= 0`. */
  predicate LexLeq(a: seq<byte>, b: seq<byte>) {
    if a == [] then true
    else if b == [] then false
    else if a[0] != b[0] then a[0] < b[0]
    else LexLeq(a[1..], b[1..])
  }

  lemma {:induction false} LexLeqIsTotalOrder(a: seq<byte>, b: seq<byte>)
    ensures LexLeq(a, b) || LexLeq(b, a)
    ensures LexLeq(a, b) && LexLeq(b, a) ==> a == b
  {
    if a != [] && b != [] && a[0] == b[0] {
      LexLeqIsTotalOrder(a[1..], b[1..]);
      assert a == [a[0]] + a[1..] && b == [b[0]] + b[1..];
    }
  }

  lemma FirstDigitDecides(x: int, y: int, p: int, u: int, v: int)
    requires 0 <= u < p && 0 <= v < p
    ensures x * p + u <= y * p + v <==> x < y || (x == y && u <= v)
  {
    if x < y {
      MulMonotone(x + 1, y, p);
      assert (x + 1) * p == x * p + p;
    } else if y < x {
      MulMonotone(y + 1, x, p);
      assert (y + 1) * p == y * p + p;
    }
  }

  /** The order is that of the big-endian numbers that the strings denote. */
  lemma {:induction false} LexLeqIsNumeric(a: seq<byte>, b: seq<byte>)
    requires |a| == |b|
    ensures LexLeq(a, b) <==> ValueBE(a) <= ValueBE(b)
  {
    if a != [] {
      LexLeqIsNumeric(a[1..], b[1..]);
      FirstByteWeighs(a);
      FirstByteWeighs(b);
      ValueBEBound(a[1..]);
      ValueBEBound(b[1..]);
      FirstDigitDecides(a[0], b[0], Pow256(|a| - 1), ValueBE(a[1..]), ValueBE(b[1..]));
    }
  }

  function NodePreimage(left: Digest, right: Digest): (p: seq<byte>)
    ensures |p| == 65 && p[0] == NODE_DOMAIN
  {
    var (lo, hi) := if LexLeq(left, right) then (left, right) else (right, left);
    [NODE_DOMAIN] + lo + hi
  }

  /**
   * What is hashed for a pair of siblings: the byte 0x01, then the two children, the one that is smaller as a
   * big-endian number first.
   */
  lemma NodePreimageIsSorted(left: Digest, right: Digest)
    ensures var p := NodePreimage(left, right);
            && |p| == 65 && p[0] == 0x01
            && ValueBE(p[1..33]) <= ValueBE(p[33..])
            && ((p[1..33] == left && p[33..] == right) || (p[1..33] == right && p[33..] == left))
  {
    var p := NodePreimage(left, right);
    LexLeqIsNumeric(left, right);
    assert (p[1..33] == left && p[33..] == right) || (p[1..33] == right && p[33..] == left);
  }

  function HashNode(h: Hash, left: Digest, right: Digest): Digest {
    h(NodePreimage(left, right))
  }

  /** The verifier does not need to know on which side a sibling stands. */
  lemma NodePreimageSymmetric(a: Digest, b: Digest)
    ensures NodePreimage(a, b) == NodePreimage(b, a)
  {
    LexLeqIsTotalOrder(a, b);
  }

  /** A node preimage determines its pair of children, up to their order and nothing else. */
  lemma NodePreimageInjective(a: Digest, b: Digest, c: Digest, d: Digest)
    ensures NodePreimage(a, b) == NodePreimage(c, d) <==> (a == c && b == d) || (a == d && b == c)
  {
    NodePreimageSymmetric(a, b);
    var p, q := NodePreimage(a, b), NodePreimage(c, d);
    assert (p[1..33] == a && p[33..] == b) || (p[1..33] == b && p[33..] == a);
    assert (q[1..33] == c && q[33..] == d) || (q[1..33] == d && q[33..] == c);
  }

  // ----- Verifier -----

  /** The left fold of `hashMerkleNode` over a proof. */
  function Fold(h: Hash, leaf: Digest, proof: seq<Digest>): Digest {
    if proof == [] then leaf
    else HashNode(h, Fold(h, leaf, proof[..|proof| - 1]), proof[|proof| - 1])
  }

  lemma {:induction false} FoldFirst(h: Hash, leaf: Digest, sibling: Digest, rest: seq<Digest>)
    ensures Fold(h, leaf, [sibling] + rest) == Fold(h, HashNode(h, leaf, sibling), rest)
    decreases |rest|
  {
    var proof := [sibling] + rest;
    if rest == [] {
      assert proof[..0] == [];
    } else {
      assert proof[..|proof| - 1] == [sibling] + rest[..|rest| - 1];
      FoldFirst(h, leaf, sibling, rest[..|rest| - 1]);
    }
  }

  method VerifyMerkleProof(h: Hash, leaf: Digest, proof: seq<Digest>) returns (computed: Digest)
    ensures computed == Fold(h, leaf, proof)
  {
    computed := leaf;
    for i := 0 to |proof|
      invariant computed == Fold(h, leaf, proof[..i])
    {
      computed := HashNode(h, computed, proof[i]);
      assert proof[..i + 1][..i] == proof[..i];
    }
    assert proof[..|proof|] == proof;
  }

  // ----- Builder -----

  function Parent(h: Hash, level: seq<Digest>, k: nat): Digest
    requires 2 * k < |level|
  {
    if 2 * k + 1 < |level| then HashNode(h, level[2 * k], level[2 * k + 1]) else level[2 * k]
  }

  /** The next level up: siblings are paired, an odd last node is promoted unchanged. */
  function LevelUp(h: Hash, level: seq<Digest>): (up: seq<Digest>)
    ensures |up| == (|level| + 1) / 2
  {
    seq((|level| + 1) / 2, k requires 0 <= k < (|level| + 1) / 2 => Parent(h, level, k))
  }

  function Root(h: Hash, level: seq<Digest>): Digest
    requires level != []
    decreases |level|
  {
    if |level| == 1 then level[0] else Root(h, LevelUp(h, level))
  }

  /** `p ^ 1` on a non-negative position. */
  function Sibling(p: nat): nat {
    if p % 2 == 0 then p + 1 else p - 1
  }

  /** The sibling, if there is one, contributed to the proof of position `p` at this level. */
  function ProofStep(level: seq<Digest>, p: nat): seq<Digest> {
    if Sibling(p) < |level| then [level[Sibling(p)]] else []
  }

  function ProofAt(h: Hash, level: seq<Digest>, p: nat): seq<Digest>
    requires p < |level|
    decreases |level|
  {
    if |level| == 1 then [] else ProofStep(level, p) + ProofAt(h, LevelUp(h, level), p / 2)
  }

  datatype Tree = Tree(root: Digest, proofs: seq<seq<Digest>>)

  /** One pass over the parents, as the inner `for k` loop makes it. */
  method BuildLevel(h: Hash, level: seq<Digest>) returns (newLevel: seq<Digest>)
    ensures newLevel == LevelUp(h, level)
  {
    newLevel := [];
    var k := 0;
    while k < |level|
      invariant k % 2 == 0 && |newLevel| == k / 2 && k <= |level| + 1
      invariant newLevel == LevelUp(h, level)[..|newLevel|]
    {
      newLevel := newLevel + [if k + 1 < |level| then HashNode(h, level[k], level[k + 1]) else level[k]];
      assert LevelUp(h, level)[k / 2] == Parent(h, level, k / 2);
      k := k + 2;
    }
  }

  /** Leaf `i` has climbed to `position` of `level`, and `proof` is the part of its proof so far. */
  ghost predicate OnTrack(h: Hash, leaves: seq<Digest>, i: nat, level: seq<Digest>, position: nat, proof: seq<Digest>)
    requires i < |leaves|
  {
    position < |level| && proof + ProofAt(h, level, position) == ProofAt(h, leaves, i)
  }

  lemma OnTrackStep(h: Hash, leaves: seq<Digest>, i: nat, level: seq<Digest>, position: nat, proof: seq<Digest>)
    requires i < |leaves| && |level| > 1 && OnTrack(h, leaves, i, level, position, proof)
    ensures OnTrack(h, leaves, i, LevelUp(h, level), position / 2, proof + ProofStep(level, position))
  {
    var step, rest := ProofStep(level, position), ProofAt(h, LevelUp(h, level), position / 2);
    assert proof + (step + rest) == (proof + step) + rest;
  }

  /** The inner `for i` loop: every leaf collects its sibling, if any, and moves to its parent. */
  method ClimbLevel(h: Hash, ghost leaves: seq<Digest>, level: seq<Digest>,
                    positions: array<nat>, proofs: array<seq<Digest>>)
    requires positions.Length == proofs.Length == |leaves| && |level| > 1
    requires forall i :: 0 <= i < |leaves| ==> OnTrack(h, leaves, i, level, positions[i], proofs[i])
    modifies positions, proofs
    ensures forall i :: 0 <= i < |leaves| ==>
              && OnTrack(h, leaves, i, LevelUp(h, level), positions[i], proofs[i])
              && positions[i] == old(positions[i]) / 2
              && proofs[i] == old(proofs[i]) + ProofStep(level, old(positions[i]))
  {
    for i := 0 to positions.Length
      invariant forall j :: 0 <= j < i ==>
                  && positions[j] == old(positions[j]) / 2
                  && proofs[j] == old(proofs[j]) + ProofStep(level, old(positions[j]))
      invariant forall j :: i <= j < positions.Length ==>
                  positions[j] == old(positions[j]) && proofs[j] == old(proofs[j])
    {
      var p := positions[i];
      if Sibling(p) < |level| {
        proofs[i] := proofs[i] + [level[Sibling(p)]];
      }
      positions[i] := p / 2;
    }
    forall i | 0 <= i < |leaves|
      ensures OnTrack(h, leaves, i, LevelUp(h, level), positions[i], proofs[i])
    {
      OnTrackStep(h, leaves, i, level, old(positions[i]), old(proofs[i]));
    }
  }

  /** `FoldFirst` for a step of zero or one siblings. */
  lemma FoldStep(h: Hash, leaf: Digest, step: seq<Digest>, rest: seq<Digest>)
    requires |step| <= 1
    ensures Fold(h, leaf, step + rest)
         == Fold(h, if step == [] then leaf else HashNode(h, leaf, step[0]), rest)
  {
    if step == [] {
      assert step + rest == rest;
    } else {
      assert step == [step[0]];
      FoldFirst(h, leaf, step[0], rest);
    }
  }

  /** The parent of a position hashes it with its sibling, in whichever order, or promotes it. */
  lemma ParentOfPosition(h: Hash, level: seq<Digest>, p: nat)
    requires p < |level|
    ensures LevelUp(h, level)[p / 2]
         == if Sibling(p) < |level| then HashNode(h, level[p], level[Sibling(p)]) else level[p]
  {
    assert LevelUp(h, level)[p / 2] == Parent(h, level, p / 2);
    if Sibling(p) < |level| {
      NodePreimageSymmetric(level[p], level[Sibling(p)]);
    }
  }

  /** Every position of every level folds with its proof to the root. */
  lemma {:induction false} Completeness(h: Hash, level: seq<Digest>, p: nat)
    requires p < |level|
    ensures Fold(h, level[p], ProofAt(h, level, p)) == Root(h, level)
    decreases |level|
  {
    if |level| > 1 {
      Completeness(h, LevelUp(h, level), p / 2);
      ParentOfPosition(h, level, p);
      FoldStep(h, level[p], ProofStep(level, p), ProofAt(h, LevelUp(h, level), p / 2));
    }
  }

  /**
   * `buildMerkleTree`: the root is `Root` of the leaves, and every proof folds from its own
   * leaf to that root. An empty leaf list is the only error.
   */
  method BuildMerkleTree(h: Hash, leaves: seq<Digest>) returns (r: Result<Tree, string>)
    ensures r.Err? <==> leaves == []
    ensures r.Ok? ==>
              && r.value.root == Root(h, leaves)
              && |r.value.proofs| == |leaves|
              && forall i :: 0 <= i < |leaves| ==>
                   && r.value.proofs[i] == ProofAt(h, leaves, i)
                   && Fold(h, leaves[i], r.value.proofs[i]) == r.value.root
  {
    var n := |leaves|;
    if n == 0 {
      return Err("cannot build a Merkle tree over zero leaves");
    }
    var proofs := new seq<Digest>[n](_ => []);
    var positions := new nat[n](i => i);
    var level := leaves;
    while |level| > 1
      invariant level != [] && Root(h, level) == Root(h, leaves)
      invariant forall i :: 0 <= i < n ==> OnTrack(h, leaves, i, level, positions[i], proofs[i])
      decreases |level|
    {
      var newLevel := BuildLevel(h, level);
      ClimbLevel(h, leaves, level, positions, proofs);
      level := newLevel;
    }
    forall i | 0 <= i < n
      ensures proofs[i] == ProofAt(h, leaves, i)
      ensures Fold(h, leaves[i], proofs[i]) == Root(h, leaves)
    {
      assert OnTrack(h, leaves, i, level, positions[i], proofs[i]);
      Completeness(h, leaves, i);
    }
    r := Ok(Tree(level[0], proofs[..]));
  }

  // ----- Depth -----

  function Pow2(n: nat): (p: nat)
    ensures p > 0
  {
    if n == 0 then 1 else 2 * Pow2(n - 1)
  }

  function CeilLog2(n: nat): nat {
    if n <= 1 then 0 else 1 + CeilLog2((n + 1) / 2)
  }

  /** `CeilLog2(n)` is the least exponent of two that reaches `n`. */
  lemma {:induction false} CeilLog2IsLeast(n: nat, d: nat)
    ensures CeilLog2(n) <= d <==> n <= Pow2(d)
  {
    if n > 1 && d > 0 {
      CeilLog2IsLeast((n + 1) / 2, d - 1);
    }
  }

  /** No proof is longer than ceil(log2 n), and the first leaf's proof is exactly that long. */
  lemma {:induction false} ProofDepth(h: Hash, level: seq<Digest>, p: nat)
    requires p < |level|
    ensures |ProofAt(h, level, p)| <= CeilLog2(|level|)
    ensures p == 0 ==> |ProofAt(h, level, p)| == CeilLog2(|level|)
    decreases |level|
  {
    if |level| > 1 {
      ProofDepth(h, LevelUp(h, level), p / 2);
    }
  }

  /** A depth limit admits every proof of a tree exactly when the leaves fit under 2^limit. */
  lemma DepthLimitExact(h: Hash, leaves: seq<Digest>, limit: nat)
    requires leaves != []
    ensures (forall i :: 0 <= i < |leaves| ==> |ProofAt(h, leaves, i)| <= limit) <==> |leaves| <= Pow2(limit)
  {
    CeilLog2IsLeast(|leaves|, limit);
    ProofDepth(h, leaves, 0);
    forall i | 0 <= i < |leaves|
      ensures |ProofAt(h, leaves, i)| <= CeilLog2(|leaves|)
    {
      ProofDepth(h, leaves, i);
    }
  }

  // ----- The shape of the tree -----

  lemma ParentOfFront(h: Hash, level: seq<Digest>, m: nat, k: nat)
    requires 2 * m < |level| && k < m
    ensures Parent(h, level[..2 * m], k) == Parent(h, level, k)
  {
  }

  lemma ParentOfBack(h: Hash, level: seq<Digest>, m: nat, k: nat)
    requires 2 * m < |level| && 2 * k < |level| - 2 * m
    ensures Parent(h, level[2 * m..], k) == Parent(h, level, m + k)
  {
    var back := level[2 * m..];
    assert back[2 * k] == level[2 * (m + k)];
    assert 2 * k + 1 < |back| ==> back[2 * k + 1] == level[2 * (m + k) + 1];
  }

  /** An even number of nodes at the front is paired by itself. */
  lemma LevelUpSplits(h: Hash, level: seq<Digest>, m: nat)
    requires 2 * m < |level|
    ensures LevelUp(h, level)[..m] == LevelUp(h, level[..2 * m])
    ensures LevelUp(h, level)[m..] == LevelUp(h, level[2 * m..])
  {
    forall k | 0 <= k < m
      ensures LevelUp(h, level)[k] == LevelUp(h, level[..2 * m])[k]
    {
      ParentOfFront(h, level, m, k);
    }
    forall k | 0 <= k < (|level| - 2 * m + 1) / 2
      ensures LevelUp(h, level)[m..][k] == LevelUp(h, level[2 * m..])[k]
    {
      ParentOfBack(h, level, m, k);
    }
  }

  lemma RootOfLevelUp(h: Hash, level: seq<Digest>)
    requires level != []
    ensures Root(h, LevelUp(h, level)) == Root(h, level)
  {
    if |level| == 1 {
      assert LevelUp(h, level) == level;
    }
  }

  /**
   * What the tree is, from the top down: the root of more than one leaf is the node over the root of the first
   * 2^j leaves and the root of the others, where 2^j is the largest power of two below their number.
   */
  lemma {:induction false} RootSplits(h: Hash, level: seq<Digest>, j: nat)
    requires Pow2(j) < |level| <= 2 * Pow2(j)
    ensures Root(h, level) == HashNode(h, Root(h, level[..Pow2(j)]), Root(h, level[Pow2(j)..]))
    decreases j
  {
    if j == 0 {
      assert LevelUp(h, level) == [HashNode(h, level[0], level[1])];
    } else {
      var m := Pow2(j - 1);
      RootSplits(h, LevelUp(h, level), j - 1);
      LevelUpSplits(h, level, m);
      RootOfLevelUp(h, level[..2 * m]);
      RootOfLevelUp(h, level[2 * m..]);
    }
  }

  // ----- Soundness -----

  /** Two distinct strings, one from each finite set, with the same digest. */
  ghost predicate Collides(h: Hash, a: set<seq<byte>>, b: set<seq<byte>>) {
    exists x, y :: x in a && y in b && x != y && h(x) == h(y)
  }

  /** Everything the verifier hashes while folding `proof`. */
  ghost function PathPreimages(h: Hash, leaf: Digest, proof: seq<Digest>): set<seq<byte>> {
    if proof == [] then {}
    else
      var shorter := proof[..|proof| - 1];
      PathPreimages(h, leaf, shorter) + {NodePreimage(Fold(h, leaf, shorter), proof[|proof| - 1])}
  }

  /** Everything the verifier hashes for a leaf preimage and its proof. */
  ghost function VerifierPreimages(h: Hash, pre: seq<byte>, proof: seq<Digest>): set<seq<byte>> {
    {pre} + PathPreimages(h, h(pre), proof)
  }

  ghost function LevelPreimages(level: seq<Digest>): set<seq<byte>> {
    set k: nat | k < |level| / 2 :: NodePreimage(level[2 * k], level[2 * k + 1])
  }

  /** Everything the builder hashes above `level`. */
  ghost function TreePreimages(h: Hash, level: seq<Digest>): set<seq<byte>>
    decreases |level|
  {
    if |level| <= 1 then {} else LevelPreimages(level) + TreePreimages(h, LevelUp(h, level))
  }

  function Leaves(h: Hash, pres: seq<seq<byte>>): (leaves: seq<Digest>)
    ensures |leaves| == |pres|
  {
    seq(|pres|, i requires 0 <= i < |pres| => h(pres[i]))
  }

  /** Everything the builder hashes for a list of leaf preimages. */
  ghost function BuilderPreimages(h: Hash, pres: seq<seq<byte>>): set<seq<byte>> {
    (set pre | pre in pres) + TreePreimages(h, Leaves(h, pres))
  }

  ghost predicate IsLeafPreimage(pre: seq<byte>) {
    pre != [] && pre[0] == LEAF_DOMAIN
  }

  /** A non-trivial prefix of a proof ends in a node preimage that the verifier hashed. */
  lemma {:induction false} PathPrefix(h: Hash, leaf: Digest, proof: seq<Digest>, m: nat)
    requires 0 < m <= |proof|
    ensures NodePreimage(Fold(h, leaf, proof[..m - 1]), proof[m - 1]) in PathPreimages(h, leaf, proof)
    ensures Fold(h, leaf, proof[..m]) == h(NodePreimage(Fold(h, leaf, proof[..m - 1]), proof[m - 1]))
    decreases |proof|
  {
    assert proof[..m][..m - 1] == proof[..m - 1];
    if m < |proof| {
      var shorter := proof[..|proof| - 1];
      assert shorter[..m - 1] == proof[..m - 1] && shorter[m - 1] == proof[m - 1];
      PathPrefix(h, leaf, shorter, m);
    }
  }

  /** One level down: a partial fold that meets `LevelUp(level)` meets `level`, or collides. */
  lemma DescendLevel(h: Hash, level: seq<Digest>, pre: seq<byte>, proof: seq<Digest>, m: nat, q: nat)
      returns (m': nat, i: nat)
    requires IsLeafPreimage(pre) && m <= |proof| && |level| > 1 && q < |LevelUp(h, level)|
    requires Fold(h, h(pre), proof[..m]) == LevelUp(h, level)[q]
    ensures Collides(h, VerifierPreimages(h, pre, proof), LevelPreimages(level))
         || (m' <= m && i < |level| && Fold(h, h(pre), proof[..m']) == level[i])
  {
    m', i := m, 2 * q;
    assert LevelUp(h, level)[q] == Parent(h, level, q);
    if 2 * q + 1 < |level| {
      var left, right := level[2 * q], level[2 * q + 1];
      assert NodePreimage(left, right) in LevelPreimages(level);
      if m > 0 {
        PathPrefix(h, h(pre), proof, m);
        var below := Fold(h, h(pre), proof[..m - 1]);
        NodePreimageInjective(below, proof[m - 1], left, right);
        m', i := m - 1, if below == left then 2 * q else 2 * q + 1;
      } else {
        assert pre in VerifierPreimages(h, pre, proof);
      }
    }
  }

  /** All levels down: a proof that reaches the root meets the bottom level, or collides. */
  lemma {:induction false} Descend(h: Hash, level: seq<Digest>, pre: seq<byte>, proof: seq<Digest>)
      returns (m: nat, i: nat)
    requires IsLeafPreimage(pre) && level != []
    requires Fold(h, h(pre), proof) == Root(h, level)
    ensures Collides(h, VerifierPreimages(h, pre, proof), TreePreimages(h, level))
         || (m <= |proof| && i < |level| && Fold(h, h(pre), proof[..m]) == level[i])
    decreases |level|
  {
    m, i := |proof|, 0;
    assert proof[..|proof|] == proof;
    if |level| > 1 {
      m, i := Descend(h, LevelUp(h, level), pre, proof);
      if !Collides(h, VerifierPreimages(h, pre, proof), TreePreimages(h, level)) {
        m, i := DescendLevel(h, level, pre, proof, m, i);
      }
    }
  }

  /** Soundness: an accepted leaf preimage is one of the committed ones, or there is a collision. */
  lemma Soundness(h: Hash, pres: seq<seq<byte>>, pre: seq<byte>, proof: seq<Digest>)
    requires pres != [] && IsLeafPreimage(pre) && forall p :: p in pres ==> IsLeafPreimage(p)
    requires Fold(h, h(pre), proof) == Root(h, Leaves(h, pres))
    ensures pre in pres || Collides(h, VerifierPreimages(h, pre, proof), BuilderPreimages(h, pres))
  {
    var leaves := Leaves(h, pres);
    var m, i := Descend(h, leaves, pre, proof);
    if !Collides(h, VerifierPreimages(h, pre, proof), TreePreimages(h, leaves)) {
      assert leaves[i] == h(pres[i]) && pres[i] in BuilderPreimages(h, pres);
      if m > 0 {
        PathPrefix(h, h(pre), proof, m);
      } else {
        assert pre in VerifierPreimages(h, pre, proof);
      }
    }
  }
}
