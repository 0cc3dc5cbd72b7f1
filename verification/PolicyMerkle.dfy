/**
 The SDK's policy Merkle tree: sorted-pair hashing, odd levels padded with a
 zero node, proofs without direction bits. The functions say what the level
 folding and the proof loop compute; the methods are those loops.
 */
module PolicyMerkle {
  import opened Prelude
  import opened Chain

  const ZERO_NODE: Bytes32 := Fill(32, 0)

  /** The 64 bytes hashed for a pair of nodes, smaller node first. */
  function PairInput(a: Bytes32, b: Bytes32): (r: Bytes)
    ensures |r| == 64
  {
    if LexLeq(a, b) then a + b else b + a
  }

  function Pair(c: Crypto, a: Bytes32, b: Bytes32): Bytes32 {
    c.blake2b(PairInput(a, b))
  }

  lemma PairCommutes(a: Bytes32, b: Bytes32)
    ensures PairInput(a, b) == PairInput(b, a)
  {
    LexLeqTotal(a, b);
  }

  lemma PairInputInjective(a: Bytes32, b: Bytes32, x: Bytes32, y: Bytes32)
    requires PairInput(a, b) == PairInput(x, y)
    ensures (a == x && b == y) || (a == y && b == x)
  {
    var lo, hi := PairInput(a, b)[..32], PairInput(a, b)[32..];
    assert (lo == a && hi == b) || (lo == b && hi == a);
    assert (lo == x && hi == y) || (lo == y && hi == x);
  }

  /** What is hashed for two nodes: first the one below at the first difference. */
  lemma PairInputOrdered(a: Bytes32, b: Bytes32)
    requires Below(a, b)
    ensures PairInput(a, b) == a + b && PairInput(b, a) == a + b
  {
    LexLeqExact(a, b);
    PairCommutes(a, b);
  }

  /** Fills a 64-byte buffer in place and hashes it. */
  method HashPair(c: Crypto, a: Bytes32, b: Bytes32) returns (h: Bytes32)
    ensures h == Pair(c, a, b) == Pair(c, b, a)
    ensures a == b ==> h == c.blake2b(a + a)
    ensures Below(a, b) ==> h == c.blake2b(a + b)
    ensures Below(b, a) ==> h == c.blake2b(b + a)
  {
    var buf := new byte[64](_ => 0);
    var first, second := a, b;
    if !LexLeq(a, b) {
      first, second := b, a;
    }
    forall i | 0 <= i < 32 {
      buf[i] := first[i];
    }
    forall i | 0 <= i < 32 {
      buf[32 + i] := second[i];
    }
    assert buf[..] == first + second;
    h := c.blake2b(buf[..]);
    PairCommutes(a, b);
    LexLeqExact(a, b);
    LexLeqExact(b, a);
  }

  // ---- Levels ---------------------------------------------------------------

  function Pad(level: seq<Bytes32>): (r: seq<Bytes32>)
    ensures |r| % 2 == 0 && level <= r && |r| <= |level| + 1
  {
    if |level| % 2 == 1 then level + [ZERO_NODE] else level
  }

  function Fold(c: Crypto, level: seq<Bytes32>): (up: seq<Bytes32>)
    ensures |up| == (|level| + 1) / 2
  {
    var p := Pad(level);
    seq(|p| / 2, i requires 0 <= i < |p| / 2 => Pair(c, p[2 * i], p[2 * i + 1]))
  }

  lemma FoldAt(c: Crypto, level: seq<Bytes32>, i: nat)
    requires i < |Fold(c, level)|
    ensures 2 * i + 1 < |Pad(level)|
    ensures Fold(c, level)[i] == Pair(c, Pad(level)[2 * i], Pad(level)[2 * i + 1])
  {
  }

  function Root(c: Crypto, level: seq<Bytes32>): Bytes32
    decreases |level|
  {
    if level == [] then ZERO_NODE
    else if |level| == 1 then level[0]
    else Root(c, Fold(c, level))
  }

  /** `index ^ 1`. */
  function Sibling(index: nat): nat {
    if index % 2 == 0 then index + 1 else index - 1
  }

  /** The node hashed together with node `index` of the padded level. */
  function SiblingNode(level: seq<Bytes32>, index: nat): Bytes32
    requires index < |Pad(level)|
  {
    Pad(level)[Sibling(index)]
  }

  /** An index the builder does not stumble over: none is looked up in a level of at
      most one node, and a longer level is padded first. */
  predicate Indexed(level: seq<Bytes32>, index: nat) {
    |level| <= 1 || index < |Pad(level)|
  }

  function Proof(c: Crypto, level: seq<Bytes32>, index: nat): seq<Bytes32>
    requires Indexed(level, index)
    decreases |level|
  {
    if |level| <= 1 then []
    else [SiblingNode(level, index)] + Proof(c, Fold(c, level), index / 2)
  }

  /** A list of at most one leaf has the empty proof at every index. */
  lemma ShortListProof(c: Crypto, leaves: seq<Bytes32>, index: nat)
    requires |leaves| <= 1
    ensures Indexed(leaves, index) && Proof(c, leaves, index) == []
  {
  }

  /** The node reached from `node` by absorbing the siblings in order. */
  function Climb(c: Crypto, node: Bytes32, proof: seq<Bytes32>): Bytes32
    decreases |proof|
  {
    if proof == [] then node else Climb(c, Pair(c, node, proof[0]), proof[1..])
  }

  // ---- The loops ------------------------------------------------------------

  method FoldLevel(c: Crypto, level: seq<Bytes32>) returns (up: seq<Bytes32>)
    ensures up == Fold(c, level)
  {
    var padded := level;
    if |level| % 2 == 1 {
      padded := padded + [ZERO_NODE];
    }
    up := [];
    var i := 0;
    while i < |padded| / 2
      invariant 0 <= i <= |padded| / 2
      invariant |up| == i && forall k :: 0 <= k < i ==> up[k] == Fold(c, level)[k]
    {
      var h := HashPair(c, padded[2 * i], padded[2 * i + 1]);
      up := up + [h];
      i := i + 1;
    }
  }

  method MerkleRoot(c: Crypto, leaves: seq<Bytes32>) returns (root: Bytes32)
    ensures root == Root(c, leaves)
  {
    if leaves == [] {
      return ZERO_NODE;
    }
    var level := leaves;
    while |level| > 1
      invariant level != []
      invariant Root(c, level) == Root(c, leaves)
      decreases |level|
    {
      level := FoldLevel(c, level);
    }
    root := level[0];
  }

  lemma ProofStep(c: Crypto, before: seq<Bytes32>, level: seq<Bytes32>, index: nat)
    requires index < |Pad(level)| && |level| > 1
    ensures index / 2 < |Fold(c, level)| < |level|
    ensures before + Proof(c, level, index)
      == before + [SiblingNode(level, index)] + Proof(c, Fold(c, level), index / 2)
  {
    var sibling, rest := SiblingNode(level, index), Proof(c, Fold(c, level), index / 2);
    assert before + ([sibling] + rest) == before + [sibling] + rest;
  }

  method MerkleProof(c: Crypto, leaves: seq<Bytes32>, index: nat) returns (proof: seq<Bytes32>)
    requires Indexed(leaves, index)
    ensures proof == Proof(c, leaves, index)
  {
    proof := [];
    var level, at := leaves, index;
    ghost var whole := Proof(c, leaves, index);
    while |level| > 1
      invariant 0 <= at && Indexed(level, at)
      invariant proof + Proof(c, level, at) == whole
      decreases |level|
    {
      ProofStep(c, proof, level, at);
      proof := proof + [SiblingNode(level, at)];
      level := FoldLevel(c, level);
      at := at / 2;
    }
    assert Proof(c, level, at) == [];
  }

  method MerkleVerify(c: Crypto, root: Bytes32, leaf: Bytes32, proof: seq<Bytes32>) returns (ok: bool)
    ensures ok <==> Climb(c, leaf, proof) == root
  {
    var node := leaf;
    var i := 0;
    while i < |proof|
      invariant 0 <= i <= |proof|
      invariant Climb(c, node, proof[i..]) == Climb(c, leaf, proof)
    {
      node := HashPair(c, node, proof[i]);
      i := i + 1;
    }
    ok := node == root;
  }

  // ---- Completeness ---------------------------------------------------------

  lemma ClimbCons(c: Crypto, node: Bytes32, sibling: Bytes32, rest: seq<Bytes32>)
    ensures Climb(c, node, [sibling] + rest) == Climb(c, Pair(c, node, sibling), rest)
  {
    assert ([sibling] + rest)[1..] == rest;
  }

  /** A node and its sibling are folded into the node above them. */
  lemma FoldsToParent(c: Crypto, level: seq<Bytes32>, index: nat)
    requires index < |Pad(level)|
    ensures Fold(c, level)[index / 2] == Pair(c, Pad(level)[index], SiblingNode(level, index))
  {
    PairCommutes(Pad(level)[index], SiblingNode(level, index));
  }

  /** The first sibling of a proof leads to the parent, the rest is its proof. */
  lemma ProofStepsUp(c: Crypto, level: seq<Bytes32>, index: nat)
    requires |level| > 1 && index < |Pad(level)|
    ensures Climb(c, Pad(level)[index], Proof(c, level, index))
      == Climb(c, Fold(c, level)[index / 2], Proof(c, Fold(c, level), index / 2))
  {
    FoldsToParent(c, level, index);
    ClimbCons(c, Pad(level)[index], SiblingNode(level, index), Proof(c, Fold(c, level), index / 2));
  }

  /** Every proof the builder makes leads from its leaf to the root, whatever the
      hash function and however many leaves there are. */
  lemma {:induction false} ProofVerifies(c: Crypto, level: seq<Bytes32>, index: nat)
    requires index < |level|
    ensures Climb(c, level[index], Proof(c, level, index)) == Root(c, level)
    decreases |level|
  {
    if |level| > 1 {
      ProofStepsUp(c, level, index);
      ProofVerifies(c, Fold(c, level), index / 2);
    }
  }

  /** The builder also proves the padding: at the index after an odd number of
      leaves, its proof leads from the zero node to the root. */
  lemma PaddingProofVerifies(c: Crypto, level: seq<Bytes32>)
    requires |level| > 1 && |level| % 2 == 1
    ensures Climb(c, ZERO_NODE, Proof(c, level, |level|)) == Root(c, level)
  {
    ProofStepsUp(c, level, |level|);
    ProofVerifies(c, Fold(c, level), |level| / 2);
  }

  function Pow2(n: nat): (p: nat)
    ensures p >= 1
  {
    if n == 0 then 1 else 2 * Pow2(n - 1)
  }

  /** The proof length is the binary logarithm of the leaf count, rounded up. */
  lemma {:induction false} ProofLength(c: Crypto, level: seq<Bytes32>, index: nat)
    requires index < |level|
    ensures CeilLog2(|level|, |Proof(c, level, index)|)
    decreases |level|
  {
    if |level| > 1 {
      var up := Fold(c, level);
      ProofLength(c, up, index / 2);
      ProofSize(c, level, index);
      RoundUpHalf(|level|, |Proof(c, up, index / 2)|);
    }
  }

  /** `k` is the binary logarithm of `n`, rounded up. */
  predicate CeilLog2(n: nat, k: nat) {
    n <= Pow2(k) && (k > 0 ==> Pow2(k - 1) < n)
  }

  lemma ProofSize(c: Crypto, level: seq<Bytes32>, index: nat)
    requires |level| > 1 && index < |Pad(level)|
    ensures |Proof(c, level, index)| == 1 + |Proof(c, Fold(c, level), index / 2)|
  {
  }

  lemma RoundUpHalf(n: nat, k: nat)
    requires n > 1 && CeilLog2((n + 1) / 2, k)
    ensures CeilLog2(n, k + 1)
  {
    if k > 0 {
      assert Pow2(k) == 2 * Pow2(k - 1);
    }
  }

  lemma {:induction false} Pow2Monotone(a: nat, b: nat)
    requires a <= b
    ensures Pow2(a) <= Pow2(b)
    decreases b
  {
    if a < b {
      Pow2Monotone(a, b - 1);
    }
  }

  lemma {:induction false} Pow2Add(a: nat, b: nat)
    ensures Pow2(a + b) == Pow2(a) * Pow2(b)
  {
    if a > 0 {
      Pow2Add(a - 1, b);
      assert Pow2(a + b) == 2 * Pow2(a - 1 + b);
    }
  }

  lemma Pow2Of64()
    ensures Pow2(64) == MAX_U64 + 1
  {
    assert Pow2(4) == 0x10;
    Pow2Add(4, 4);
    assert Pow2(8) == 0x100;
    Pow2Add(8, 8);
    assert Pow2(16) == 0x1_0000;
    Pow2Add(16, 16);
    assert Pow2(32) == 0x1_0000_0000;
    Pow2Add(32, 32);
  }

  lemma CeilLog2Bound(n: nat, k: nat, bits: nat)
    requires CeilLog2(n, k) && n <= Pow2(bits)
    ensures k <= bits
  {
    if k > bits {
      Pow2Monotone(bits, k - 1);
    }
  }

  lemma ProofLengthBound(c: Crypto, level: seq<Bytes32>, index: nat, bits: nat)
    requires index < |level| <= Pow2(bits)
    ensures |Proof(c, level, index)| <= bits
  {
    ProofLength(c, level, index);
    CeilLog2Bound(|level|, |Proof(c, level, index)|, bits);
  }

  /** With a count of leaves a machine can hold, a proof length fits the frame's
      one length byte. */
  lemma ProofFitsFrame(c: Crypto, level: seq<Bytes32>, index: nat)
    requires index < |level| <= MAX_U64
    ensures |Proof(c, level, index)| <= 64
  {
    Pow2Of64();
    ProofLengthBound(c, level, index, 64);
  }
}
