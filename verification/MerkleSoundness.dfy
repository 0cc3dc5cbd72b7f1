/**
 Soundness of policy membership. An accepted proof for a script hash that is not
 on the allowlist hands over, among the byte strings hashed while building the
 root and checking the proof, two that collide or one that hashes to the padding
 node. Both sets are finite and named, so the claim is about concrete strings.
 */
module MerkleSoundness {
  import opened Prelude
  import opened Chain
  import opened PolicyMerkle

  /** Leaf of a policy: the hash of the allowed script's hash. */
  function PolicyLeaf(c: Crypto, scriptHash: Bytes32): Bytes32 {
    c.blake2b(scriptHash)
  }

  function PolicyLeaves(c: Crypto, allowed: seq<Bytes32>): (r: seq<Bytes32>)
    ensures |r| == |allowed|
  {
    seq(|allowed|, i requires 0 <= i < |allowed| => PolicyLeaf(c, allowed[i]))
  }

  function PolicyRoot(c: Crypto, allowed: seq<Bytes32>): Bytes32 {
    Root(c, PolicyLeaves(c, allowed))
  }

  // ---- What gets hashed -----------------------------------------------------

  /** The pair inputs hashed while folding `level` up to its root. */
  ghost function FoldInputs(c: Crypto, level: seq<Bytes32>): set<Bytes>
    decreases |level|
  {
    if |level| <= 1 then {} else LevelInputs(level) + FoldInputs(c, Fold(c, level))
  }

  /** The pair input hashed for node `i` of the next level. */
  function PairAt(level: seq<Bytes32>, i: nat): Bytes
    requires i < |Pad(level)| / 2
  {
    PairInput(Pad(level)[2 * i], Pad(level)[2 * i + 1])
  }

  ghost function LevelInputs(level: seq<Bytes32>): set<Bytes> {
    set i | 0 <= i < |Pad(level)| / 2 :: PairAt(level, i)
  }

  /** The pair inputs hashed while climbing from `node`. */
  ghost function ClimbInputs(c: Crypto, node: Bytes32, proof: seq<Bytes32>): set<Bytes>
    decreases |proof|
  {
    if proof == [] then {}
    else {PairInput(node, proof[0])} + ClimbInputs(c, Pair(c, node, proof[0]), proof[1..])
  }

  /** Everything hashed when the root of `allowed` is built and `proof` is
      checked for `scriptHash`. */
  ghost function Hashed(c: Crypto, allowed: seq<Bytes32>, scriptHash: Bytes32, proof: seq<Bytes32>): set<Bytes> {
    (set s: Bytes | s in allowed) + FoldInputs(c, PolicyLeaves(c, allowed)) +
    {scriptHash} + ClimbInputs(c, PolicyLeaf(c, scriptHash), proof)
  }

  /** The hash function fails on these strings: two of them collide, or one
      hashes to the padding node. */
  ghost predicate Broken(c: Crypto, strings: set<Bytes>) {
    || (exists a, b :: a in strings && b in strings && a != b && c.blake2b(a) == c.blake2b(b))
    || (exists a :: a in strings && c.blake2b(a) == ZERO_NODE)
  }

  lemma Collision(c: Crypto, strings: set<Bytes>, a: Bytes, b: Bytes)
    requires a in strings && b in strings && a != b && c.blake2b(a) == c.blake2b(b)
    ensures Broken(c, strings)
  {
  }

  // ---- Climbing in reverse --------------------------------------------------

  lemma {:induction false} ClimbLast(c: Crypto, node: Bytes32, proof: seq<Bytes32>, k: nat)
    requires 0 < k <= |proof|
    ensures var below := Climb(c, node, proof[..k - 1]);
      && Climb(c, node, proof[..k]) == Pair(c, below, proof[k - 1])
      && PairInput(below, proof[k - 1]) in ClimbInputs(c, node, proof)
    decreases k
  {
    var up := Pair(c, node, proof[0]);
    assert proof[..k][1..] == proof[1..][..k - 1];
    if k > 1 {
      ClimbLast(c, up, proof[1..], k - 1);
      assert proof[..k - 1][1..] == proof[1..][..k - 2];
      assert proof[1..][k - 2] == proof[k - 1];
    } else {
      assert proof[..k - 1] == [];
    }
  }

  /** Some node of the climb from `node` is among `targets`. */
  ghost predicate Meets(c: Crypto, node: Bytes32, proof: seq<Bytes32>, targets: seq<Bytes32>) {
    exists k :: 0 <= k <= |proof| && Climb(c, node, proof[..k]) in targets
  }

  /** The climb met a folded pair at height k: either the hash broke, or one step
      below it met one of the pair's two nodes. */
  lemma MeetsBelow(c: Crypto, x: Bytes32, proof: seq<Bytes32>, k: nat, a: Bytes32, b: Bytes32,
    targets: seq<Bytes32>, strings: set<Bytes>)
    requires a in targets && b in targets
    requires k <= |proof|
    requires Climb(c, PolicyLeaf(c, x), proof[..k]) == Pair(c, a, b)
    requires PairInput(a, b) in strings && x in strings
    requires ClimbInputs(c, PolicyLeaf(c, x), proof) <= strings
    ensures Broken(c, strings) || Meets(c, PolicyLeaf(c, x), proof, targets)
  {
    var leaf := PolicyLeaf(c, x);
    if k == 0 {
      assert proof[..0] == [];
      assert |x| != |PairInput(a, b)|;
      Collision(c, strings, x, PairInput(a, b));
    } else {
      ClimbLast(c, leaf, proof, k);
      var below, sib := Climb(c, leaf, proof[..k - 1]), proof[k - 1];
      if PairInput(below, sib) != PairInput(a, b) {
        Collision(c, strings, PairInput(below, sib), PairInput(a, b));
      } else {
        PairInputInjective(below, sib, a, b);
        assert below in targets;
      }
    }
  }

  lemma InPad(level: seq<Bytes32>, i: nat)
    requires i < |Pad(level)|
    ensures Pad(level)[i] in level + [ZERO_NODE]
  {
  }

  /** One level down: a climb that met a folded level met the level itself. */
  lemma MeetsLevelBelow(c: Crypto, x: Bytes32, proof: seq<Bytes32>, level: seq<Bytes32>, strings: set<Bytes>, k: nat)
    requires |level| > 1 && k <= |proof|
    requires Climb(c, PolicyLeaf(c, x), proof[..k]) in Fold(c, level)
    requires x in strings && FoldInputs(c, level) <= strings
    requires ClimbInputs(c, PolicyLeaf(c, x), proof) <= strings
    ensures Broken(c, strings) || Meets(c, PolicyLeaf(c, x), proof, level + [ZERO_NODE])
  {
    var up, p := Fold(c, level), Pad(level);
    var i :| 0 <= i < |up| && up[i] == Climb(c, PolicyLeaf(c, x), proof[..k]);
    assert PairAt(level, i) in LevelInputs(level);
    FoldAt(c, level, i);
    InPad(level, 2 * i);
    InPad(level, 2 * i + 1);
    MeetsBelow(c, x, proof, k, p[2 * i], p[2 * i + 1], level + [ZERO_NODE], strings);
  }

  /** A climb that ends at the root of `level` passes through one of its nodes, or
      through a zero node, unless the hash broke. */
  lemma {:induction false} ClimbMeetsLevel(
    c: Crypto, x: Bytes32, proof: seq<Bytes32>, level: seq<Bytes32>, strings: set<Bytes>)
    requires Climb(c, PolicyLeaf(c, x), proof) == Root(c, level)
    requires x in strings && FoldInputs(c, level) <= strings
    requires ClimbInputs(c, PolicyLeaf(c, x), proof) <= strings
    ensures Broken(c, strings) || Meets(c, PolicyLeaf(c, x), proof, level + [ZERO_NODE])
    decreases |level|
  {
    var leaf := PolicyLeaf(c, x);
    if |level| <= 1 {
      assert proof[..|proof|] == proof;
      assert Root(c, level) in level + [ZERO_NODE];
    } else {
      var up := Fold(c, level);
      ClimbMeetsLevel(c, x, proof, up, strings);
      if !Broken(c, strings) {
        var k :| 0 <= k <= |proof| && Climb(c, leaf, proof[..k]) in up + [ZERO_NODE];
        if Climb(c, leaf, proof[..k]) in up {
          MeetsLevelBelow(c, x, proof, level, strings, k);
        } else {
          assert Climb(c, leaf, proof[..k]) in level + [ZERO_NODE];
        }
      }
    }
  }

  /** Every node of a climb is the hash of a string the climb names. */
  lemma ClimbNodeHashed(c: Crypto, x: Bytes32, proof: seq<Bytes32>, k: nat) returns (input: Bytes)
    requires k <= |proof|
    ensures c.blake2b(input) == Climb(c, PolicyLeaf(c, x), proof[..k])
    ensures input == x || (|input| == 64 && input in ClimbInputs(c, PolicyLeaf(c, x), proof))
  {
    if k == 0 {
      assert proof[..0] == [];
      input := x;
    } else {
      ClimbLast(c, PolicyLeaf(c, x), proof, k);
      input := PairInput(Climb(c, PolicyLeaf(c, x), proof[..k - 1]), proof[k - 1]);
    }
  }

  lemma ListedAt(c: Crypto, allowed: seq<Bytes32>, scriptHash: Bytes32, proof: seq<Bytes32>, k: nat)
    requires !Broken(c, Hashed(c, allowed, scriptHash, proof)) && k <= |proof|
    requires Climb(c, PolicyLeaf(c, scriptHash), proof[..k]) in PolicyLeaves(c, allowed) + [ZERO_NODE]
    ensures scriptHash in allowed
  {
    var input := ClimbNodeHashed(c, scriptHash, proof, k);
    LeafIsListed(c, allowed, input, Hashed(c, allowed, scriptHash, proof));
  }

  /** Membership soundness, for every allowlist and every proof: too short, too
      long, or through padding at any level. */
  lemma MembershipSound(c: Crypto, allowed: seq<Bytes32>, scriptHash: Bytes32, proof: seq<Bytes32>)
    requires Climb(c, PolicyLeaf(c, scriptHash), proof) == PolicyRoot(c, allowed)
    ensures scriptHash in allowed || Broken(c, Hashed(c, allowed, scriptHash, proof))
  {
    var strings := Hashed(c, allowed, scriptHash, proof);
    var leaves, leaf := PolicyLeaves(c, allowed), PolicyLeaf(c, scriptHash);
    ClimbMeetsLevel(c, scriptHash, proof, leaves, strings);
    if !Broken(c, strings) {
      var k :| 0 <= k <= |proof| && Climb(c, leaf, proof[..k]) in leaves + [ZERO_NODE];
      ListedAt(c, allowed, scriptHash, proof, k);
    }
  }

  /** So where the hash is sound on the strings hashed, what is accepted is listed. */
  lemma AcceptedIsListed(c: Crypto, allowed: seq<Bytes32>, scriptHash: Bytes32, proof: seq<Bytes32>)
    requires Climb(c, PolicyLeaf(c, scriptHash), proof) == PolicyRoot(c, allowed)
    requires var strings := Hashed(c, allowed, scriptHash, proof);
      && (forall a, b :: a in strings && b in strings && c.blake2b(a) == c.blake2b(b) ==> a == b)
      && (forall a :: a in strings ==> c.blake2b(a) != Fill(32, 0))
    ensures scriptHash in allowed
  {
    MembershipSound(c, allowed, scriptHash, proof);
  }

  /** A hashed string whose hash is a policy leaf is the listed script hash. */
  lemma LeafIsListed(c: Crypto, allowed: seq<Bytes32>, input: Bytes, strings: set<Bytes>)
    requires input in strings && (forall s: Bytes :: s in allowed ==> s in strings)
    requires !Broken(c, strings)
    requires c.blake2b(input) in PolicyLeaves(c, allowed) + [ZERO_NODE]
    ensures input in allowed
  {
    var leaves := PolicyLeaves(c, allowed);
    var i :| 0 <= i < |leaves| && leaves[i] == c.blake2b(input);
    assert allowed[i] in strings;
    assert input == allowed[i];
  }
}
