/**
 What the policy walk over the outputs amounts to. The walk is exactly a check of
 one frame per foreign output, in order; the SDK's frames pass it; and together
 with the continuity walk it leaves no output of a scoped session uncovered.
 */
module PolicyCoverage {
  import opened Prelude
  import opened Chain
  import opened PolicyMerkle
  import opened MerkleSoundness
  import opened SessionLock

  // ---- Frames ---------------------------------------------------------------

  datatype Frame = Frame(kind: byte, siblings: seq<Bytes32>)

  function Flatten(nodes: seq<Bytes32>): (b: Bytes)
    ensures |b| == 32 * |nodes|
  {
    if nodes == [] then [] else nodes[0] + Flatten(nodes[1..])
  }

  /** `kind ‖ proof_len ‖ siblings`; the length is truncated to one byte. */
  function FrameBytes(f: Frame): Bytes {
    [f.kind, |f.siblings| % 256] + Flatten(f.siblings)
  }

  function ProofRegion(entries: seq<Frame>): Bytes {
    if entries == [] then [] else FrameBytes(entries[0]) + ProofRegion(entries[1..])
  }

  lemma {:induction false} ProofRegionSnoc(entries: seq<Frame>, f: Frame)
    ensures ProofRegion(entries + [f]) == ProofRegion(entries) + FrameBytes(f)
  {
    if entries == [] {
      assert [f][1..] == [];
    } else {
      assert (entries + [f])[1..] == entries[1..] + [f];
      ProofRegionSnoc(entries[1..], f);
    }
  }

  lemma {:induction false} FlattenSnoc(nodes: seq<Bytes32>, node: Bytes32)
    ensures Flatten(nodes + [node]) == Flatten(nodes) + node
  {
    if nodes == [] {
      assert [node][1..] == [];
    } else {
      assert (nodes + [node])[1..] == nodes[1..] + [node];
      FlattenSnoc(nodes[1..], node);
    }
  }

  lemma FlattenMore(head: Bytes, nodes: seq<Bytes32>, j: nat)
    requires j < |nodes|
    ensures head + Flatten(nodes[..j + 1]) == head + Flatten(nodes[..j]) + nodes[j]
  {
    FlattenSnoc(nodes[..j], nodes[j]);
    assert nodes[..j + 1] == nodes[..j] + [nodes[j]];
  }

  lemma ProofRegionMore(before: Bytes, head: Bytes, entries: seq<Frame>, i: nat)
    requires i < |entries| && before == ProofRegion(entries[..i])
    requires head == before + [entries[i].kind] + [|entries[i].siblings| % 256]
    ensures ProofRegion(entries[..i + 1]) == head + Flatten(entries[i].siblings)
  {
    ProofRegionSnoc(entries[..i], entries[i]);
    assert entries[..i + 1] == entries[..i] + [entries[i]];
    assert head == before + [entries[i].kind, |entries[i].siblings| % 256];
  }

  method BuildProofRegion(entries: seq<Frame>) returns (r: Bytes)
    ensures r == ProofRegion(entries)
  {
    r := [];
    var i := 0;
    while i < |entries|
      invariant 0 <= i <= |entries|
      invariant r == ProofRegion(entries[..i])
    {
      var f := entries[i];
      ghost var before := r;
      r := r + [f.kind];
      r := r + [|f.siblings| % 256];
      ghost var head := r;
      var j := 0;
      while j < |f.siblings|
        invariant 0 <= j <= |f.siblings|
        invariant r == head + Flatten(f.siblings[..j])
      {
        FlattenMore(head, f.siblings, j);
        r := r + f.siblings[j];
        j := j + 1;
      }
      ProofRegionMore(before, head, entries, i);
      assert f.siblings[..j] == f.siblings;
      i := i + 1;
    }
    assert entries[..i] == entries;
  }

  lemma {:induction false} ChunksFlatten(nodes: seq<Bytes32>)
    ensures Chunks(Flatten(nodes)) == nodes
  {
    if nodes != [] {
      var b := Flatten(nodes);
      assert b[..32] == nodes[0] && b[32..] == Flatten(nodes[1..]);
      ChunksFlatten(nodes[1..]);
    }
  }

  // ---- Reading frames back --------------------------------------------------

  /** Outputs the continuity rule does not govern, in output order. */
  function Foreign(self: Script, outputs: seq<Cell>): seq<CellOutput> {
    if outputs == [] then []
    else
      var rest := Foreign(self, outputs[1..]);
      if SameCode(self, outputs[0].output.lock) then rest else [outputs[0].output] + rest
  }

  /** One frame per foreign output, as far as the region's bytes go. */
  function FramesRead(self: Script, outputs: seq<Cell>, region: Bytes): seq<Frame>
    decreases |outputs|
  {
    if outputs == [] then []
    else if SameCode(self, outputs[0].output.lock) then FramesRead(self, outputs[1..], region)
    else if |region| < 2 || |region| < 2 + region[1] as int * 32 then []
    else
      var n: nat := 2 + region[1] as int * 32;
      [Frame(region[0], Chunks(region[2..n]))] + FramesRead(self, outputs[1..], region[n..])
  }

  /** The frame proves the output's type or lock script a member under `root`. */
  ghost predicate Justifies(c: Crypto, root: Bytes32, output: CellOutput, f: Frame) {
    && OutputLeaf(c, f.kind, output).Ok?
    && Climb(c, OutputLeaf(c, f.kind, output).value, f.siblings) == root
  }

  ghost predicate AllJustified(c: Crypto, root: Bytes32, outputs: seq<CellOutput>, frames: seq<Frame>) {
    && |frames| == |outputs|
    && forall i :: 0 <= i < |outputs| ==> Justifies(c, root, outputs[i], frames[i])
  }

  lemma AllJustifiedCons(
    c: Crypto, root: Bytes32, o: CellOutput, outputs: seq<CellOutput>, f: Frame, frames: seq<Frame>)
    ensures AllJustified(c, root, [o] + outputs, [f] + frames)
      <==> Justifies(c, root, o, f) && AllJustified(c, root, outputs, frames)
  {
    var os, fs := [o] + outputs, [f] + frames;
    if AllJustified(c, root, os, fs) {
      assert Justifies(c, root, os[0], fs[0]);
      forall i | 0 <= i < |outputs|
        ensures Justifies(c, root, outputs[i], frames[i])
      {
        assert Justifies(c, root, os[i + 1], fs[i + 1]);
      }
    }
    if Justifies(c, root, o, f) && AllJustified(c, root, outputs, frames) {
      forall i | 0 <= i < |os|
        ensures Justifies(c, root, os[i], fs[i])
      {
        assert i > 0 ==> Justifies(c, root, outputs[i - 1], frames[i - 1]);
      }
    }
  }

  /** The cursor walk accepts exactly when every foreign output has its own frame
      in the region and that frame justifies it. */
  lemma {:induction false} PolicyWalkExact(c: Crypto, self: Script, root: Bytes32, outputs: seq<Cell>, region: Bytes)
    ensures PolicyVerdict(c, self, root, outputs, region).Ok?
      <==> AllJustified(c, root, Foreign(self, outputs), FramesRead(self, outputs, region))
    decreases |outputs|
  {
    if outputs != [] {
      var rest := outputs[1..];
      var output := outputs[0].output;
      if SameCode(self, output.lock) {
        PolicyWalkExact(c, self, root, rest, region);
      } else if |region| >= 2 && |region| >= 2 + region[1] as int * 32 {
        var n: nat := 2 + region[1] as int * 32;
        PolicyWalkExact(c, self, root, rest, region[n..]);
        var f := Frame(region[0], Chunks(region[2..n]));
        AllJustifiedCons(c, root, output, Foreign(self, rest), f, FramesRead(self, rest, region[n..]));
        assert TakeFrame(c, root, output, region).Ok? <==> Justifies(c, root, output, f);
      }
    }
  }

  /** The frames the SDK writes are the frames the lock reads, wherever account
      outputs are interleaved and whatever follows the region. */
  lemma {:induction false} FramesReadBack(self: Script, outputs: seq<Cell>, entries: seq<Frame>, tail: Bytes)
    requires |entries| == |Foreign(self, outputs)|
    requires forall f :: f in entries ==> |f.siblings| <= MAX_U8
    ensures FramesRead(self, outputs, ProofRegion(entries) + tail) == entries
    decreases |outputs|
  {
    if outputs != [] {
      if SameCode(self, outputs[0].output.lock) {
        FramesReadBack(self, outputs[1..], entries, tail);
      } else {
        var f := entries[0];
        assert f in entries;
        var rest := ProofRegion(entries[1..]) + tail;
        var region := ProofRegion(entries) + tail;
        var n: nat := 2 + 32 * |f.siblings|;
        assert region == FrameBytes(f) + rest;
        assert region[0] == f.kind && region[1] == |f.siblings|;
        assert region[2..n] == Flatten(f.siblings) && region[n..] == rest;
        ChunksFlatten(f.siblings);
        FramesReadBack(self, outputs[1..], entries[1..], tail);
      }
    }
  }

  // ---- The SDK's frames pass ------------------------------------------------

  /** A caller's choice for one foreign output: which dimension, and which entry
      of the allowlist. */
  datatype Pick = Pick(kind: byte, index: nat)

  ghost predicate ValidPick(c: Crypto, allowed: seq<Bytes32>, output: CellOutput, pick: Pick) {
    && pick.index < |allowed|
    && ((pick.kind == POLICY_KIND_TYPE && output.typ.Some? && allowed[pick.index] == c.scriptHash(output.typ.value))
        || (pick.kind == POLICY_KIND_LOCK && allowed[pick.index] == c.scriptHash(output.lock)))
  }

  ghost predicate ValidPicks(c: Crypto, allowed: seq<Bytes32>, outputs: seq<CellOutput>, picks: seq<Pick>) {
    && |picks| == |outputs|
    && forall i :: 0 <= i < |picks| ==> ValidPick(c, allowed, outputs[i], picks[i])
  }

  /** One entry per pick, each with the builder's proof. */
  function Entries(c: Crypto, allowed: seq<Bytes32>, picks: seq<Pick>): (r: seq<Frame>)
    requires forall i :: 0 <= i < |picks| ==> picks[i].index < |allowed|
    ensures |r| == |picks|
  {
    seq(|picks|, i requires 0 <= i < |picks| =>
      Frame(picks[i].kind, Proof(c, PolicyLeaves(c, allowed), picks[i].index)))
  }

  /** Completeness of the policy walk: frames made from the builder's proofs, in
      output order, are accepted. */
  lemma SdkRegionAccepted(
    c: Crypto, self: Script, allowed: seq<Bytes32>, outputs: seq<Cell>, picks: seq<Pick>, tail: Bytes)
    requires |allowed| <= MAX_U64
    requires ValidPicks(c, allowed, Foreign(self, outputs), picks)
    ensures PolicyVerdict(c, self, PolicyRoot(c, allowed), outputs, ProofRegion(Entries(c, allowed, picks)) + tail).Ok?
  {
    var foreign, entries := Foreign(self, outputs), Entries(c, allowed, picks);
    forall i | 0 <= i < |picks|
      ensures |entries[i].siblings| <= MAX_U8
      ensures Justifies(c, PolicyRoot(c, allowed), foreign[i], entries[i])
    {
      ProofFitsFrame(c, PolicyLeaves(c, allowed), picks[i].index);
      ProofVerifies(c, PolicyLeaves(c, allowed), picks[i].index);
    }
    FramesReadBack(self, outputs, entries, tail);
    PolicyWalkExact(c, self, PolicyRoot(c, allowed), outputs, ProofRegion(entries) + tail);
  }

  lemma FlatClimbs(c: Crypto, root: Bytes32, leaf: Bytes32, nodes: seq<Bytes32>)
    requires Climb(c, leaf, nodes) == root
    ensures FlatMember(c, root, leaf, Flatten(nodes))
  {
    ChunksFlatten(nodes);
  }

  /** A builder's proof, flattened, is accepted in the lock's chunked form. */
  lemma FlatProofVerifies(c: Crypto, leaves: seq<Bytes32>, index: nat)
    requires index < |leaves|
    ensures FlatMember(c, Root(c, leaves), leaves[index], Flatten(Proof(c, leaves, index)))
  {
    ProofVerifies(c, leaves, index);
    FlatClimbs(c, Root(c, leaves), leaves[index], Proof(c, leaves, index));
  }

  // ---- Coverage -------------------------------------------------------------

  /** The policy walk alone would not do: it skips whatever has the account's code,
      even under other args. */
  lemma PolicyWalkSkipsByCode(c: Crypto, self: Script, root: Bytes32, data: Bytes, cell: Cell, region: Bytes)
    requires SameCode(self, cell.output.lock) && cell.output.lock.args != self.args
    ensures PolicyVerdict(c, self, root, [cell], region).Ok?
    ensures !Continues(self, data, cell)
    ensures AccountVerdict(self, data, [cell]).Err?
  {
    assert [cell][1..] == [] && cell in [cell];
    assert PolicyVerdict(c, self, root, [], region).Ok?;
  }

  lemma {:induction false} ForeignContains(self: Script, outputs: seq<Cell>, j: nat)
    requires j < |outputs| && !SameCode(self, outputs[j].output.lock)
    ensures outputs[j].output in Foreign(self, outputs)
  {
    if j > 0 {
      ForeignContains(self, outputs[1..], j - 1);
    }
  }

  /** Every output of a transaction a scoped session let through is either an
      exact continuation of the account (code, hash type, args and data) or is
      justified by a frame of the witness. */
  lemma SessionOutputsCovered(c: Crypto, rtx: ResolvedTx, script: Script)
    requires SessionAccepts(c, rtx, script)
    requires Session(c, rtx, script).0.policiesRoot != WILDCARD_ROOT
    ensures |LockGroup(c, rtx, script)| == 1
    ensures var (p, region) := Session(c, rtx, script);
      var frames := FramesRead(script, rtx.tx.raw.outputs, region);
      forall cell :: cell in rtx.tx.raw.outputs ==>
        Covered(c, script, AccountCell(c, rtx, script).data, p.policiesRoot, frames, cell)
  {
    SessionAcceptsMeans(c, rtx, script);
    var (p, region) := Session(c, rtx, script);
    LimitsCover(c, rtx, script, AccountCell(c, rtx, script).data, p, region);
  }

  /** An exact continuation of the account (code, hash type, args and data), or an
      output justified by one of the frames. */
  ghost predicate Covered(c: Crypto, script: Script, data: Bytes, root: Bytes32, frames: seq<Frame>, cell: Cell) {
    || Continues(script, data, cell)
    || exists f :: f in frames && Justifies(c, root, cell.output, f)
  }

  lemma LimitsCover(c: Crypto, rtx: ResolvedTx, script: Script, data: Bytes, p: SessionParams, region: Bytes)
    requires LimitsVerdict(c, rtx, script, data, p, region).Ok? && p.policiesRoot != WILDCARD_ROOT
    ensures forall cell :: cell in rtx.tx.raw.outputs ==>
      Covered(c, script, data, p.policiesRoot, FramesRead(script, rtx.tx.raw.outputs, region), cell)
  {
    var outputs := rtx.tx.raw.outputs;
    assert PolicyVerdict(c, script, p.policiesRoot, outputs, region).Ok? && AllContinue(script, data, outputs);
    forall cell | cell in outputs
      ensures Covered(c, script, data, p.policiesRoot, FramesRead(script, outputs, region), cell)
    {
      WalksCover(c, script, data, p.policiesRoot, outputs, region, cell);
    }
  }

  /** Both walks together: what continuity does not vouch for, the policy does. */
  lemma WalksCover(
    c: Crypto, script: Script, data: Bytes, root: Bytes32, outputs: seq<Cell>, region: Bytes, cell: Cell)
    requires PolicyVerdict(c, script, root, outputs, region).Ok? && AllContinue(script, data, outputs)
    requires cell in outputs
    ensures Covered(c, script, data, root, FramesRead(script, outputs, region), cell)
  {
    var foreign, frames := Foreign(script, outputs), FramesRead(script, outputs, region);
    PolicyWalkExact(c, script, root, outputs, region);
    if !Continues(script, data, cell) {
      var j :| 0 <= j < |outputs| && outputs[j] == cell;
      ForeignContains(script, outputs, j);
      var i :| 0 <= i < |foreign| && foreign[i] == cell.output;
      assert frames[i] in frames && Justifies(c, root, foreign[i], frames[i]);
    }
  }

  /** The script hash a frame's kind points at. */
  function PolicyHash(c: Crypto, output: CellOutput, kind: byte): Bytes32
    requires OutputLeaf(c, kind, output).Ok?
  {
    if kind == POLICY_KIND_TYPE then c.scriptHash(output.typ.value) else c.scriptHash(output.lock)
  }

  /** The same against the SDK's root: each output continues the account, or its
      type or lock is on the allowlist, or the hash broke on the strings hashed
      for that output's frame. */
  lemma SessionOutputsAllowed(c: Crypto, rtx: ResolvedTx, script: Script, allowed: seq<Bytes32>)
    requires SessionAccepts(c, rtx, script)
    requires Session(c, rtx, script).0.policiesRoot == PolicyRoot(c, allowed) != WILDCARD_ROOT
    ensures |LockGroup(c, rtx, script)| == 1
    ensures var frames := FramesRead(script, rtx.tx.raw.outputs, Session(c, rtx, script).1);
      forall cell :: cell in rtx.tx.raw.outputs ==>
        Permitted(c, script, AccountCell(c, rtx, script).data, allowed, frames, cell)
  {
    SessionOutputsCovered(c, rtx, script);
    var frames := FramesRead(script, rtx.tx.raw.outputs, Session(c, rtx, script).1);
    var data := AccountCell(c, rtx, script).data;
    forall cell | cell in rtx.tx.raw.outputs
      ensures Permitted(c, script, data, allowed, frames, cell)
    {
      CoveredIsPermitted(c, script, data, allowed, frames, cell);
    }
  }

  /** The hash broke on the strings hashed for this output's frame. */
  ghost predicate FrameBroke(c: Crypto, allowed: seq<Bytes32>, output: CellOutput, f: Frame) {
    OutputLeaf(c, f.kind, output).Ok? && Broken(c, Hashed(c, allowed, PolicyHash(c, output, f.kind), f.siblings))
  }

  /** A continuation of the account, or an output whose type or lock is listed,
      unless the hash broke on one of the frames. */
  ghost predicate Permitted(
    c: Crypto, script: Script, data: Bytes, allowed: seq<Bytes32>, frames: seq<Frame>, cell: Cell)
  {
    || Continues(script, data, cell)
    || (cell.output.typ.Some? && c.scriptHash(cell.output.typ.value) in allowed)
    || c.scriptHash(cell.output.lock) in allowed
    || exists f :: f in frames && FrameBroke(c, allowed, cell.output, f)
  }

  lemma CoveredIsPermitted(
    c: Crypto, script: Script, data: Bytes, allowed: seq<Bytes32>, frames: seq<Frame>, cell: Cell)
    requires Covered(c, script, data, PolicyRoot(c, allowed), frames, cell)
    ensures Permitted(c, script, data, allowed, frames, cell)
  {
    hide Hashed, Broken, PolicyRoot;
    if !Continues(script, data, cell) {
      var f :| f in frames && Justifies(c, PolicyRoot(c, allowed), cell.output, f);
      MembershipSound(c, allowed, PolicyHash(c, cell.output, f.kind), f.siblings);
      assert PolicyHash(c, cell.output, f.kind) in allowed || FrameBroke(c, allowed, cell.output, f);
    }
  }

  // ---- Refusals -------------------------------------------------------------

  /** How a frame is refused: none there, one cut short or of no known kind, or one that
      does not prove the output's type or lock. */
  lemma FrameRefusals(c: Crypto, root: Bytes32, output: CellOutput, region: Bytes)
    ensures
      var taken := TakeFrame(c, root, output, region);
      if |region| < 2 then taken == Err(PolicyProofMissing)
      else
        var n: nat := 2 + 32 * (region[1] as int);
        if |region| < n then taken == Err(PolicyProofMalformed)
        else if region[0] == 0 && output.typ.None? then taken == Err(PolicyNotAllowed)
        else if region[0] > 1 then taken == Err(PolicyProofMalformed)
        else
          var script := if region[0] == 0 then output.typ.value else output.lock;
          taken ==
            if FlatMember(c, root, c.blake2b(c.scriptHash(script)), region[2..n]) then Ok(region[n..])
            else Err(PolicyNotAllowed)
  {
  }

  /** The walk refuses at the first foreign output whose frame is refused, with the
      error of that frame. */
  lemma {:induction false} WalkRefusal(c: Crypto, self: Script, root: Bytes32, outputs: seq<Cell>, region: Bytes)
    requires PolicyVerdict(c, self, root, outputs, region).Err?
    ensures exists i, left ::
      && 0 <= i < |outputs| && !SameCode(self, outputs[i].output.lock)
      && PolicyVerdict(c, self, root, outputs[..i], region) == Ok(())
      && TakeFrame(c, root, outputs[i].output, left) == Err(PolicyVerdict(c, self, root, outputs, region).error)
    decreases |outputs|
  {
    var own := SameCode(self, outputs[0].output.lock);
    var taken := TakeFrame(c, root, outputs[0].output, region);
    if !own && taken.Err? {
      assert outputs[..0] == [];
      assert TakeFrame(c, root, outputs[0].output, region) == Err(PolicyVerdict(c, self, root, outputs, region).error);
    } else {
      var next := if own then region else taken.value;
      WalkRefusal(c, self, root, outputs[1..], next);
      var i, left :|
        && 0 <= i < |outputs[1..]| && !SameCode(self, outputs[1..][i].output.lock)
        && PolicyVerdict(c, self, root, outputs[1..][..i], next) == Ok(())
        && TakeFrame(c, root, outputs[1..][i].output, left)
             == Err(PolicyVerdict(c, self, root, outputs[1..], next).error);
      var front := outputs[..i + 1];
      assert front[0] == outputs[0] && front[1..] == outputs[1..][..i];
      assert outputs[i + 1] == outputs[1..][i];
      assert PolicyVerdict(c, self, root, front, region) == Ok(());
    }
  }
}
