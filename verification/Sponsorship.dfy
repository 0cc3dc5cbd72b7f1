/**
 Fee sponsorship: the relayer sizes a fee on a dry run, appends one input and one
 change output, and must leave the client's part, and the session lock's view of
 the account, as they were.
 */
module Sponsorship {
  import opened Prelude
  import opened Chain
  import opened MerkleSoundness
  import opened Molecule
  import opened SessionLock
  import opened PolicyCoverage
  import opened SessionWitness
  import opened SponsorToken

  const MIN_FEE_SHANNONS: u64 := 1000
  const SHANNONS_PER_BYTE: nat := 100_000_000

  // ---- Serialized size ------------------------------------------------------

  function ScriptSize(s: Script): nat {
    4 + 3 * 4 + 32 + 1 + (4 + |s.args|)
  }

  function OutputSize(cell: Cell): nat {
    4 + 3 * 4 + 8 + ScriptSize(cell.output.lock)
      + if cell.output.typ.Some? then ScriptSize(cell.output.typ.value) else 0
  }

  function OptSize(b: Option<Bytes>): nat {
    if b.Some? then 4 + |b.value| else 0
  }

  function WitnessSize(w: Witness): nat {
    match w
    case Opaque(b) => |b|
    case Structured(args) => 4 + 3 * 4 + OptSize(args.lock) + OptSize(args.inputType) + OptSize(args.outputType)
  }

  /** An output's entries in the two dynamic vectors: an offset and a body each. */
  function OutputFootprint(): Cell -> nat {
    (cell: Cell) => (4 + OutputSize(cell)) + (4 + 4 + |cell.data|)
  }

  function WitnessFootprint(): Witness -> nat {
    (w: Witness) => 4 + 4 + WitnessSize(w)
  }

  /** Length of the serialized transaction; out-points and capacities are of fixed
      width, so their values do not enter. */
  function TxSize(tx: Tx): nat {
    var raw := tx.raw;
    var rawSize := 4 + 6 * 4 + 4
      + (4 + 37 * |raw.cellDeps|) + (4 + 32 * |raw.headerDeps|) + (4 + 44 * |raw.inputs|)
      + 4 + 4 + SumOf(OutputFootprint(), raw.outputs);
    4 + 2 * 4 + rawSize + 4 + SumOf(WitnessFootprint(), tx.witnesses)
  }

  lemma ScriptWritten(s: Script)
    ensures |WriteScript(s)| == ScriptSize(s)
  {
    TableSize([s.codeHash, [s.hashType], FixBytes(s.args)]);
    Concat3(s.codeHash, [s.hashType], FixBytes(s.args));
  }

  lemma OutputWritten(cell: Cell)
    ensures |WriteOutput(cell)| == OutputSize(cell)
  {
    var o := cell.output;
    var typ := if o.typ.Some? then WriteScript(o.typ.value) else [];
    ScriptWritten(o.lock);
    if o.typ.Some? {
      ScriptWritten(o.typ.value);
    }
    TableSize([LE64(o.capacity), WriteScript(o.lock), typ]);
    Concat3(LE64(o.capacity), WriteScript(o.lock), typ);
  }

  lemma WitnessWritten(w: Witness)
    ensures |WriteWitness(w)| == 4 + WitnessSize(w)
  {
    if w.Structured? {
      var a, b, d := WriteOpt(w.args.lock), WriteOpt(w.args.inputType), WriteOpt(w.args.outputType);
      TableSize([a, b, d]);
      Concat3(a, b, d);
    }
  }

  lemma {:induction false} OutputsFootprint(outputs: seq<Cell>)
    ensures SumOf(OutputFootprint(), outputs)
      == 4 * |outputs| + SumOf((cell: Cell) => OutputSize(cell), outputs)
       + 4 * |outputs| + SumOf((cell: Cell) => 4 + |cell.data|, outputs)
  {
    if outputs != [] {
      OutputsFootprint(outputs[1..]);
    }
  }

  lemma {:induction false} WitnessesFootprint(ws: seq<Witness>)
    ensures SumOf(WitnessFootprint(), ws) == 4 * |ws| + SumOf((w: Witness) => 4 + WitnessSize(w), ws)
  {
    if ws != [] {
      WitnessesFootprint(ws[1..]);
    }
  }

  lemma OutputVectorsSize(outputs: seq<Cell>)
    ensures |Table(Each(WriteOutput, outputs))| + |Table(Each(WriteData, outputs))|
      == 4 + 4 + SumOf(OutputFootprint(), outputs)
  {
    forall cell
      ensures |WriteOutput(cell)| == OutputSize(cell)
    {
      OutputWritten(cell);
    }
    EachSize(WriteOutput, (cell: Cell) => OutputSize(cell), outputs);
    EachSize(WriteData, (cell: Cell) => 4 + |cell.data|, outputs);
    TableSize(Each(WriteOutput, outputs));
    TableSize(Each(WriteData, outputs));
    OutputsFootprint(outputs);
  }

  lemma WitnessVectorSize(ws: seq<Witness>)
    ensures |Table(Each(WriteWitness, ws))| == 4 + SumOf(WitnessFootprint(), ws)
  {
    forall w
      ensures |WriteWitness(w)| == 4 + WitnessSize(w)
    {
      WitnessWritten(w);
    }
    EachSize(WriteWitness, (w: Witness) => 4 + WitnessSize(w), ws);
    TableSize(Each(WriteWitness, ws));
    WitnessesFootprint(ws);
  }

  /** The size the fee is figured on is the length of the transaction as written. */
  lemma WrittenSize(tx: Tx)
    ensures |WriteTx(tx)| == TxSize(tx)
  {
    var raw := tx.raw;
    var deps, headers := FixVec(Each(WriteDep, raw.cellDeps)), FixVec(Each(WriteHash, raw.headerDeps));
    var inputs := FixVec(Each(WriteInput, raw.inputs));
    var outputs, data := Table(Each(WriteOutput, raw.outputs)), Table(Each(WriteData, raw.outputs));
    var witnesses := Table(Each(WriteWitness, tx.witnesses));
    FixVecSize(WriteDep, 37, raw.cellDeps);
    FixVecSize(WriteHash, 32, raw.headerDeps);
    FixVecSize(WriteInput, 44, raw.inputs);
    OutputVectorsSize(raw.outputs);
    WitnessVectorSize(tx.witnesses);
    TableSize([LE32(0), deps, headers, inputs, outputs, data]);
    Concat6(LE32(0), deps, headers, inputs, outputs, data);
    TableSize([WriteRaw(raw), witnesses]);
    Concat2(WriteRaw(raw), witnesses);
  }

  // ---- Balancing ------------------------------------------------------------

  datatype AssembleError = InsufficientFee

  function ChangeCell(lock: Script, capacity: u64): Cell {
    Cell(CellOutput(capacity, lock, None), [])
  }

  /** The deps not already present, in order. */
  function Missing(existing: seq<CellDep>, deps: seq<CellDep>): seq<CellDep> {
    if deps == [] then []
    else
      var n := |deps| - 1;
      Missing(existing, deps[..n]) + if deps[n] in existing then [] else [deps[n]]
  }

  /** What is appended is exactly the fee deps not present already, as often as they
      were given. */
  lemma {:induction false} MissingExact(existing: seq<CellDep>, deps: seq<CellDep>, d: CellDep)
    ensures multiset(Missing(existing, deps))[d] == if d in existing then 0 else multiset(deps)[d]
    decreases |deps|
  {
    if deps != [] {
      var n := |deps| - 1;
      MissingExact(existing, deps[..n], d);
      assert deps == deps[..n] + [deps[n]];
    }
  }

  /** And in the order they were given: it is done dep by dep. */
  lemma {:induction false} MissingInOrder(existing: seq<CellDep>, front: seq<CellDep>, back: seq<CellDep>)
    ensures Missing(existing, front + back) == Missing(existing, front) + Missing(existing, back)
    decreases |back|
  {
    if back == [] {
      assert front + back == front;
    } else {
      var n := |back| - 1;
      assert (front + back)[..|front + back| - 1] == front + back[..n];
      MissingInOrder(existing, front, back[..n]);
    }
  }

  /** So after balancing every fee dep is there, once more exactly when it was not. */
  lemma FeeDepsCarried(existing: seq<CellDep>, deps: seq<CellDep>, d: CellDep)
    ensures multiset(existing + Missing(existing, deps))[d]
      == multiset(existing)[d] + if d in existing then 0 else multiset(deps)[d]
    ensures d in existing + Missing(existing, deps) <==> d in existing || d in deps
  {
    MissingExact(existing, deps, d);
    var all := existing + Missing(existing, deps);
    assert d in all <==> multiset(all)[d] > 0;
    assert d in deps <==> multiset(deps)[d] > 0;
    assert d in existing <==> multiset(existing)[d] > 0;
  }

  function Balance(
    partial: Tx, feeInput: OutPoint, feeCapacity: u64, fee: u64, changeLock: Script, feeDeps: seq<CellDep>)
    : Result<Tx, AssembleError>
  {
    if feeCapacity < fee then Err(InsufficientFee)
    else
      var raw := partial.raw;
      Ok(partial.(raw := RawTx(
        raw.cellDeps + Missing(raw.cellDeps, feeDeps),
        raw.headerDeps,
        raw.inputs + [feeInput],
        raw.outputs + [ChangeCell(changeLock, feeCapacity - fee)])))
  }

  method BalanceTx(
    partial: Tx, feeInput: OutPoint, feeCapacity: u64, fee: u64, changeLock: Script, feeDeps: seq<CellDep>)
    returns (r: Result<Tx, AssembleError>)
    ensures r == Balance(partial, feeInput, feeCapacity, fee, changeLock, feeDeps)
  {
    if feeCapacity < fee {
      return Err(InsufficientFee);
    }
    var raw := partial.raw;
    var change := ChangeCell(changeLock, feeCapacity - fee);
    var built := RawTx(raw.cellDeps, raw.headerDeps, raw.inputs + [feeInput], raw.outputs + [change]);
    var existing := raw.cellDeps;
    var i := 0;
    while i < |feeDeps|
      invariant 0 <= i <= |feeDeps|
      invariant built == RawTx(existing + Missing(existing, feeDeps[..i]), raw.headerDeps,
        raw.inputs + [feeInput], raw.outputs + [change])
    {
      assert feeDeps[..i + 1][..i] == feeDeps[..i];
      if feeDeps[i] !in existing {
        built := built.(cellDeps := built.cellDeps + [feeDeps[i]]);
      }
      i := i + 1;
    }
    assert feeDeps[..i] == feeDeps;
    r := Ok(partial.(raw := built));
  }

  function MinFee(tx: Tx, ratePerKb: u64): u64 {
    var product := TxSize(tx) * ratePerKb;
    var clamped := if product <= MAX_U64 then product else MAX_U64;
    (clamped + 999) / 1000
  }

  /** The fee is the least whole number of shannons covering the size at the rate,
      while the product fits 64 bits. */
  lemma MinFeeExact(tx: Tx, ratePerKb: u64, fee: nat)
    requires TxSize(tx) * ratePerKb <= MAX_U64
    ensures fee >= MinFee(tx, ratePerKb) <==> fee * 1000 >= TxSize(tx) * ratePerKb
  {
  }

  /** The size of a balanced transaction does not depend on the fee cell, its
      capacity or the fee. */
  lemma BalancedSize(
    partial: Tx, changeLock: Script, feeDeps: seq<CellDep>,
    in1: OutPoint, cap1: u64, fee1: u64, in2: OutPoint, cap2: u64, fee2: u64)
    requires fee1 <= cap1 && fee2 <= cap2
    ensures TxSize(Balance(partial, in1, cap1, fee1, changeLock, feeDeps).value)
      == TxSize(Balance(partial, in2, cap2, fee2, changeLock, feeDeps).value)
  {
    var outputs := partial.raw.outputs;
    var c1, c2 := ChangeCell(changeLock, cap1 - fee1), ChangeCell(changeLock, cap2 - fee2);
    SumOfConcat(OutputFootprint(), outputs, [c1]);
    SumOfConcat(OutputFootprint(), outputs, [c2]);
    assert [c1][1..] == [] && [c2][1..] == [];
    assert SumOf(OutputFootprint(), [c1]) == SumOf(OutputFootprint(), [c2]);
  }

  // ---- The service ----------------------------------------------------------

  datatype FeeCell = FeeCell(outPoint: OutPoint, capacity: u64)

  datatype ServiceError =
    | Unauthorized(error: AuthzError)
    | Assemble(reason: AssembleError)
    | NoFeeCell
    | RpcFailed(message: string)

  datatype Service = Service(
    authority: Authority, feeLock: Script, feeDeps: seq<CellDep>, feeRate: u64, scope: Bytes)

  datatype Sponsored = Sponsored(tx: Tx, fee: u64, feeInput: OutPoint, subject: Bytes)

  /** The node's search for a fee cell under a lock with at least some capacity. */
  type Collector = (Script, u64) -> Result<Option<FeeCell>, string>

  /** Occupied capacity of an empty cell under the lock. */
  function MinChange(lock: Script): nat {
    (8 + 32 + 1 + |lock.args|) * SHANNONS_PER_BYTE
  }

  function ScriptOccupied(s: Script): nat {
    |s.codeHash| + 1 + |s.args|
  }

  /** What a cell must hold to be on chain: a byte of capacity for every byte of its
      capacity field, scripts and data. */
  function OccupiedCapacity(cell: Cell): nat {
    (8 + ScriptOccupied(cell.output.lock) + (if cell.output.typ.Some? then ScriptOccupied(cell.output.typ.value) else 0)
     + |cell.data|) * SHANNONS_PER_BYTE
  }

  /** The minimum change is what the change cell occupies, whatever it holds. */
  lemma MinChangeExact(lock: Script, capacity: u64)
    ensures OccupiedCapacity(ChangeCell(lock, capacity)) == MinChange(lock)
  {
  }

  function DryRun(s: Service, partial: Tx): Tx {
    Balance(partial, OutPoint(Fill(32, 0), 0), MAX_U64 / 2, 0, s.feeLock, s.feeDeps).value
  }

  function SizedFee(s: Service, partial: Tx): u64 {
    var fee := MinFee(DryRun(s, partial), s.feeRate);
    if fee < MIN_FEE_SHANNONS then MIN_FEE_SHANNONS else fee
  }

  function Sponsor(s: Service, collect: Collector, token: Bytes, partial: Tx, now: u64)
    : Result<Sponsored, ServiceError>
  {
    match Authorize(s.authority, token, now, s.scope)
    case Err(e) => Err(Unauthorized(e))
    case Ok(cap) =>
      var fee := SizedFee(s, partial);
      var needed := fee + MinChange(s.feeLock);
      if needed > MAX_U64 then Err(Assemble(InsufficientFee))
      else
        match collect(s.feeLock, needed)
        case Err(e) => Err(RpcFailed(e))
        case Ok(None) => Err(NoFeeCell)
        case Ok(Some(cell)) =>
          match Balance(partial, cell.outPoint, cell.capacity, fee, s.feeLock, s.feeDeps)
          case Err(e) => Err(Assemble(e))
          case Ok(tx) => Ok(Sponsored(tx, fee, cell.outPoint, cap.subject))
  }

  /** The cell a successful sponsorship collected. */
  function Collected(s: Service, collect: Collector, partial: Tx): Option<FeeCell> {
    var needed := SizedFee(s, partial) + MinChange(s.feeLock);
    if needed > MAX_U64 then None
    else
      match collect(s.feeLock, needed)
      case Ok(found) => found
      case Err(_) => None
  }

  lemma BalancedShape(s: Service, partial: Tx, cell: FeeCell, fee: u64)
    requires fee <= cell.capacity
    ensures var tx := Balance(partial, cell.outPoint, cell.capacity, fee, s.feeLock, s.feeDeps).value;
      && tx.raw.inputs == partial.raw.inputs + [cell.outPoint]
      && tx.raw.outputs == partial.raw.outputs + [ChangeCell(s.feeLock, cell.capacity - fee)]
      && tx.raw.headerDeps == partial.raw.headerDeps
      && partial.raw.cellDeps <= tx.raw.cellDeps
      && (forall d :: d in partial.raw.cellDeps || d in s.feeDeps <==> d in tx.raw.cellDeps)
      && tx.witnesses == partial.witnesses
  {
    forall d
      ensures d in partial.raw.cellDeps || d in s.feeDeps
        <==> d in partial.raw.cellDeps + Missing(partial.raw.cellDeps, s.feeDeps)
    {
      FeeDepsCarried(partial.raw.cellDeps, s.feeDeps, d);
    }
  }

  /** Whenever sponsorship succeeds: the token was good; the fee is the minimum for
      the final transaction (not just the dry run), or the floor; the client's
      inputs, outputs, header deps and witnesses are an unchanged prefix; and the
      change is the rest of the collected cell, enough to exist on chain exactly
      when the collector kept its side. */
  lemma SponsorSound(s: Service, collect: Collector, token: Bytes, partial: Tx, now: u64)
    requires Sponsor(s, collect, token, partial, now).Ok?
    ensures Collected(s, collect, partial).Some?
    ensures var done, cell := Sponsor(s, collect, token, partial, now).value, Collected(s, collect, partial).value;
      && Authorize(s.authority, token, now, s.scope).Ok?
      && done.fee >= MinFee(done.tx, s.feeRate) && done.fee >= MIN_FEE_SHANNONS
      && (done.fee == MinFee(done.tx, s.feeRate) || done.fee == MIN_FEE_SHANNONS)
      && done.fee <= cell.capacity
      && done.tx.raw.inputs == partial.raw.inputs + [cell.outPoint]
      && done.tx.raw.outputs == partial.raw.outputs + [ChangeCell(s.feeLock, cell.capacity - done.fee)]
      && done.tx.raw.headerDeps == partial.raw.headerDeps
      && done.tx.witnesses == partial.witnesses
      && (forall d :: d in partial.raw.cellDeps || d in s.feeDeps <==> d in done.tx.raw.cellDeps)
      && (OccupiedCapacity(ChangeCell(s.feeLock, cell.capacity - done.fee)) <= cell.capacity - done.fee <==>
            SizedFee(s, partial) + MinChange(s.feeLock) <= cell.capacity)
  {
    var fee, cell := SizedFee(s, partial), Collected(s, collect, partial).value;
    BalancedSize(
      partial, s.feeLock, s.feeDeps, OutPoint(Fill(32, 0), 0), MAX_U64 / 2, 0, cell.outPoint, cell.capacity, fee);
    BalancedShape(s, partial, cell, fee);
    MinChangeExact(s.feeLock, cell.capacity - fee);
  }

  // ---- The lock's view of a sponsored transaction ---------------------------

  lemma {:induction false} MatchingAppend<T>(p: T -> bool, s: seq<T>, x: T)
    requires !p(x)
    ensures Matching(p, s + [x]) == Matching(p, s)
  {
    assert (s + [x])[..|s|] == s;
  }

  /** The fee cell joins no account group. */
  lemma SponsoredGroup(c: Crypto, rtx: ResolvedTx, tx: Tx, script: Script, feeCell: Cell)
    requires c.scriptHash(feeCell.output.lock) != c.scriptHash(script)
    ensures LockGroup(c, ResolvedTx(tx, rtx.spent + [feeCell], rtx.timestamps), script) == LockGroup(c, rtx, script)
    ensures GroupCells(c, ResolvedTx(tx, rtx.spent + [feeCell], rtx.timestamps), script) == GroupCells(c, rtx, script)
  {
    MatchingAppend(HasLockHash(c, c.scriptHash(script)), rtx.spent, feeCell);
    var group := LockGroup(c, rtx, script);
    forall i | 0 <= i < |group|
      ensures group[i] < |rtx.spent| && (rtx.spent + [feeCell])[group[i]] == rtx.spent[group[i]]
    {
      assert group[i] in group;
    }
  }

  /** A change output under other code does not move the continuity verdict. */
  lemma SponsoredContinuity(account: Script, data: Bytes, outputs: seq<Cell>, change: Cell)
    requires !SameCode(account, change.output.lock)
    ensures AccountVerdict(account, data, outputs + [change]) == AccountVerdict(account, data, outputs)
  {
    SumOfConcat(CapacityUnder(account), outputs, [change]);
    assert [change][1..] == [];
    assert SumOf(CapacityUnder(account), [change]) == 0;
    assert AllContinue(account, data, outputs + [change]) <==> AllContinue(account, data, outputs) by {
      assert forall cell :: cell in outputs + [change] <==> cell in outputs || cell == change;
    }
  }

  // ---- The frame for the change ---------------------------------------------

  lemma {:induction false} ForeignAppend(self: Script, outputs: seq<Cell>, change: Cell)
    requires !SameCode(self, change.output.lock)
    ensures Foreign(self, outputs + [change]) == Foreign(self, outputs) + [change.output]
  {
    if outputs == [] {
      assert [] + [change] == [change] && [change][1..] == [];
    } else {
      assert (outputs + [change])[1..] == outputs[1..] + [change];
      ForeignAppend(self, outputs[1..], change);
    }
  }

  lemma {:induction false} FramesReadCount(self: Script, outputs: seq<Cell>, region: Bytes)
    ensures |FramesRead(self, outputs, region)| <= |Foreign(self, outputs)|
    decreases |outputs|
  {
    if outputs != [] {
      if SameCode(self, outputs[0].output.lock) {
        FramesReadCount(self, outputs[1..], region);
      } else if |region| >= 2 && |region| >= 2 + region[1] as int * 32 {
        FramesReadCount(self, outputs[1..], region[2 + region[1] as int * 32..]);
      }
    }
  }

  /** A region that holds a frame for every foreign output yields the same frames
      when one more output follows, and then at most one more. */
  lemma {:induction false} FramesReadAppend(self: Script, outputs: seq<Cell>, change: Cell, region: Bytes)
    requires !SameCode(self, change.output.lock)
    ensures FramesRead(self, outputs, region) <= FramesRead(self, outputs + [change], region)
    ensures |FramesRead(self, outputs, region)| < |Foreign(self, outputs)|
      ==> FramesRead(self, outputs + [change], region) == FramesRead(self, outputs, region)
    decreases |outputs|
  {
    if outputs == [] {
      assert [] + [change] == [change] && [change][1..] == [];
    } else {
      assert (outputs + [change])[1..] == outputs[1..] + [change];
      if SameCode(self, outputs[0].output.lock) {
        FramesReadAppend(self, outputs[1..], change, region);
      } else if |region| >= 2 && |region| >= 2 + region[1] as int * 32 {
        FramesReadAppend(self, outputs[1..], change, region[2 + region[1] as int * 32..]);
      }
    }
  }

  /** The region holds, after the frames of the client's own outputs, one more that
      proves the relayer's change. */
  ghost predicate ChangeFramed(
    c: Crypto, self: Script, root: Bytes32, outputs: seq<Cell>, change: Cell, region: Bytes)
  {
    var frames, n := FramesRead(self, outputs + [change], region), |Foreign(self, outputs)|;
    |frames| == n + 1 && Justifies(c, root, change.output, frames[n])
  }

  lemma AllJustifiedSnoc(
    c: Crypto, root: Bytes32, outputs: seq<CellOutput>, o: CellOutput, frames: seq<Frame>, f: Frame)
    ensures AllJustified(c, root, outputs + [o], frames + [f])
      <==> AllJustified(c, root, outputs, frames) && Justifies(c, root, o, f)
  {
    var os, fs := outputs + [o], frames + [f];
    if AllJustified(c, root, os, fs) {
      assert Justifies(c, root, os[|outputs|], fs[|frames|]);
      forall i | 0 <= i < |outputs|
        ensures Justifies(c, root, outputs[i], frames[i])
      {
        assert Justifies(c, root, os[i], fs[i]);
      }
    }
    if AllJustified(c, root, outputs, frames) && Justifies(c, root, o, f) {
      forall i | 0 <= i < |os|
        ensures Justifies(c, root, os[i], fs[i])
      {
        assert i < |outputs| ==> Justifies(c, root, outputs[i], frames[i]);
      }
    }
  }

  /** In a scoped session the change output is a foreign output like any other:
      sponsorship keeps the policy verdict exactly when the region holds one more
      frame, and that frame proves the change. */
  lemma SponsoredPolicyExact(c: Crypto, self: Script, root: Bytes32, outputs: seq<Cell>, change: Cell, region: Bytes)
    requires !SameCode(self, change.output.lock)
    ensures PolicyVerdict(c, self, root, outputs + [change], region).Ok? <==>
      (PolicyVerdict(c, self, root, outputs, region).Ok? && ChangeFramed(c, self, root, outputs, change, region))
  {
    var before, after := FramesRead(self, outputs, region), FramesRead(self, outputs + [change], region);
    var foreign := Foreign(self, outputs);
    PolicyWalkExact(c, self, root, outputs, region);
    PolicyWalkExact(c, self, root, outputs + [change], region);
    ForeignAppend(self, outputs, change);
    FramesReadAppend(self, outputs, change, region);
    FramesReadCount(self, outputs, region);
    if |after| == |foreign| + 1 && |before| == |foreign| {
      assert after == before + [after[|foreign|]];
      AllJustifiedSnoc(c, root, foreign, change.output, before, after[|foreign|]);
    }
  }

  /** A region that was exactly right for the client's outputs is wrong once the
      relayer has added its change: the walk runs out of frames. */
  lemma SponsorshipBreaksPolicy(
    c: Crypto, self: Script, root: Bytes32, outputs: seq<Cell>, change: Cell, entries: seq<Frame>)
    requires !SameCode(self, change.output.lock)
    requires |entries| == |Foreign(self, outputs)| && forall f :: f in entries ==> |f.siblings| <= MAX_U8
    ensures PolicyVerdict(c, self, root, outputs, ProofRegion(entries)).Ok?
      <==> AllJustified(c, root, Foreign(self, outputs), entries)
    ensures PolicyVerdict(c, self, root, outputs + [change], ProofRegion(entries)).Err?
  {
    var region := ProofRegion(entries);
    assert region + [] == region;
    FramesReadBack(self, outputs, entries, []);
    PolicyWalkExact(c, self, root, outputs, region);
    SponsoredPolicyExact(c, self, root, outputs, change, region);
    if ChangeFramed(c, self, root, outputs, change, region) {
      NoMoreFrames(self, outputs, change, entries);
    }
  }

  lemma FirstFrame(entries: seq<Frame>)
    requires entries != [] && |entries[0].siblings| <= MAX_U8
    ensures var region, n := ProofRegion(entries), 2 + 32 * |entries[0].siblings|;
      n <= |region| && region[1] == |entries[0].siblings| && region[n..] == ProofRegion(entries[1..])
  {
    hide Flatten;
    var frame, rest := FrameBytes(entries[0]), ProofRegion(entries[1..]);
    assert frame[1] == |entries[0].siblings|;
    CutAt(frame, rest);
  }

  lemma CutAt(front: Bytes, rest: Bytes)
    requires |front| >= 2
    ensures (front + rest)[1] == front[1] && (front + rest)[|front|..] == rest
  {
  }

  /** The SDK's region for the client's outputs holds no further frame. */
  lemma {:induction false} NoMoreFrames(self: Script, outputs: seq<Cell>, change: Cell, entries: seq<Frame>)
    requires !SameCode(self, change.output.lock)
    requires |entries| == |Foreign(self, outputs)| && forall f :: f in entries ==> |f.siblings| <= MAX_U8
    ensures |FramesRead(self, outputs + [change], ProofRegion(entries))| == |entries|
    decreases |outputs|
  {
    if outputs == [] {
      assert [] + [change] == [change];
    } else {
      assert (outputs + [change])[1..] == outputs[1..] + [change];
      if SameCode(self, outputs[0].output.lock) {
        NoMoreFrames(self, outputs[1..], change, entries);
      } else {
        assert entries[0] in entries;
        FirstFrame(entries);
        NoMoreFrames(self, outputs[1..], change, entries[1..]);
      }
    }
  }

  /** With one more entry it passes exactly when the client's frames did and the
      entry proves the change. */
  lemma ExtraFrameExact(
    c: Crypto, self: Script, root: Bytes32, outputs: seq<Cell>, change: Cell, entries: seq<Frame>, f: Frame)
    requires !SameCode(self, change.output.lock)
    requires |entries| == |Foreign(self, outputs)|
    requires |f.siblings| <= MAX_U8 && forall e :: e in entries ==> |e.siblings| <= MAX_U8
    ensures PolicyVerdict(c, self, root, outputs + [change], ProofRegion(entries + [f])).Ok? <==>
      (AllJustified(c, root, Foreign(self, outputs), entries) && Justifies(c, root, change.output, f))
  {
    var region := ProofRegion(entries + [f]);
    assert region + [] == region;
    ForeignAppend(self, outputs, change);
    FramesReadBack(self, outputs + [change], entries + [f], []);
    PolicyWalkExact(c, self, root, outputs + [change], region);
    AllJustifiedSnoc(c, root, Foreign(self, outputs), change.output, entries, f);
  }

  lemma PermittedChange(
    c: Crypto, script: Script, data: Bytes, allowed: seq<Bytes32>, frames: seq<Frame>, lock: Script, capacity: u64)
    requires Permitted(c, script, data, allowed, frames, ChangeCell(lock, capacity)) && !SameCode(script, lock)
    ensures c.scriptHash(lock) in allowed
      || exists f :: f in frames
           && f.kind == POLICY_KIND_LOCK && Broken(c, Hashed(c, allowed, c.scriptHash(lock), f.siblings))
  {
    if c.scriptHash(lock) !in allowed {
      var change := ChangeCell(lock, capacity);
      var f :| f in frames && FrameBroke(c, allowed, change.output, f);
      assert f.kind == POLICY_KIND_LOCK && Broken(c, Hashed(c, allowed, c.scriptHash(lock), f.siblings));
    }
  }

  /** So a scoped session that was sponsored and accepted has the relayer's lock on
      its allowlist, or the hash broke on the strings hashed for the change. */
  lemma SponsoredNeedsRelayerListed(
    c: Crypto, rtx: ResolvedTx, script: Script, allowed: seq<Bytes32>, lock: Script, capacity: u64, client: seq<Cell>)
    requires SessionAccepts(c, rtx, script)
    requires Session(c, rtx, script).0.policiesRoot == PolicyRoot(c, allowed) != WILDCARD_ROOT
    requires rtx.tx.raw.outputs == client + [ChangeCell(lock, capacity)]
    requires !SameCode(script, lock)
    ensures c.scriptHash(lock) in allowed
      || exists f :: f in FramesRead(script, rtx.tx.raw.outputs, Session(c, rtx, script).1)
           && f.kind == POLICY_KIND_LOCK && Broken(c, Hashed(c, allowed, c.scriptHash(lock), f.siblings))
  {
    SessionOutputsAllowed(c, rtx, script, allowed);
    var change, frames := ChangeCell(lock, capacity), FramesRead(script, rtx.tx.raw.outputs, Session(c, rtx, script).1);
    assert rtx.tx.raw.outputs[|client|] == change && change in rtx.tx.raw.outputs;
    assert Permitted(c, script, AccountCell(c, rtx, script).data, allowed, frames, change);
    PermittedChange(c, script, AccountCell(c, rtx, script).data, allowed, frames, lock, capacity);
  }

  // ---- The lock's verdict on what the service returns -----------------------

  /** All limits together, for a session over any policy: sponsorship changes the
      lock's verdict only through the frame the change output needs. */
  lemma SponsoredLimitsExact(
    c: Crypto, rtx: ResolvedTx, tx: Tx, script: Script, data: Bytes, p: SessionParams, region: Bytes,
    feeCell: Cell, change: Cell)
    requires tx.raw.outputs == rtx.tx.raw.outputs + [change]
    requires !SameCode(script, change.output.lock)
    requires c.scriptHash(feeCell.output.lock) != c.scriptHash(script)
    ensures LimitsVerdict(c, ResolvedTx(tx, rtx.spent + [feeCell], rtx.timestamps), script, data, p, region).Ok? <==>
      (&& LimitsVerdict(c, rtx, script, data, p, region).Ok?
       && (p.policiesRoot == WILDCARD_ROOT
           || ChangeFramed(c, script, p.policiesRoot, rtx.tx.raw.outputs, change, region)))
  {
    SponsoredGroup(c, rtx, tx, script, feeCell);
    SponsoredContinuity(script, data, rtx.tx.raw.outputs, change);
    SponsoredPolicyExact(c, script, p.policiesRoot, rtx.tx.raw.outputs, change, region);
  }

  /** The client's last step: its session witness takes the place of the
      placeholder in the balanced transaction. */
  function WithWitness(tx: Tx, at: nat, w: Witness): Tx
    requires at < |tx.witnesses|
  {
    tx.(witnesses := tx.witnesses[at := w])
  }

  lemma SponsoredShape(s: Service, collect: Collector, token: Bytes, partial: Tx, now: u64)
    requires Sponsor(s, collect, token, partial, now).Ok?
    ensures Collected(s, collect, partial).Some?
    ensures var done, cell := Sponsor(s, collect, token, partial, now).value, Collected(s, collect, partial).value;
      && done.fee <= cell.capacity
      && done.tx.raw.outputs == partial.raw.outputs + [ChangeCell(s.feeLock, cell.capacity - done.fee)]
      && done.tx.witnesses == partial.witnesses
  {
    SponsorSound(s, collect, token, partial, now);
  }

  /** Any transaction that adds a fee input and a change output to the client's and
      carries the client's witness for it. */
  lemma ResignedExact(
    c: Crypto, client: ResolvedTx, tx: Tx, script: Script, at: nat, owner: Bytes20, p: SessionParams,
    sessionSig: Bytes, guardianSig: Option<Bytes>, region: Bytes, feeCell: Cell, change: Cell)
    requires tx.raw.outputs == client.tx.raw.outputs + [change]
    requires at < |tx.witnesses| && tx.witnesses[at] == RegisteredWitness(sessionSig, guardianSig, region)
    requires !SameCode(script, change.output.lock)
    requires c.scriptHash(feeCell.output.lock) != c.scriptHash(script)
    requires script.args == RegisteredArgs(owner, SessionParamsBlock(p)) && WellSized(p, sessionSig, guardianSig)
    requires LockGroup(c, client, script) == [at] && at < |client.spent|
    ensures LockVerdict(c, ResolvedTx(tx, client.spent + [feeCell], client.timestamps), script).Ok? <==>
      (&& p.sessionHash != NO_KEY
       && c.sigOk(sessionSig, TxMessage(c, tx), p.sessionHash)
       && (guardianSig.Some? ==> c.sigOk(guardianSig.value, TxMessage(c, tx), p.guardianHash))
       && WithinLimits(c, client, script, client.spent[at], p, region)
       && (p.policiesRoot == WILDCARD_ROOT
           || ChangeFramed(c, script, p.policiesRoot, client.tx.raw.outputs, change, region)))
  {
    var final := ResolvedTx(tx, client.spent + [feeCell], client.timestamps);
    SponsoredGroup(c, client, tx, script, feeCell);
    RegisteredWitnessMeans(c, final, script, at, owner, p, sessionSig, guardianSig, region);
    SponsoredWithinLimits(c, client, tx, script, at, p, region, feeCell, change);
  }

  /** The same as `SponsoredLimitsExact`, on the guard rails said outright. */
  lemma SponsoredWithinLimits(
    c: Crypto, client: ResolvedTx, tx: Tx, script: Script, at: nat, p: SessionParams, region: Bytes,
    feeCell: Cell, change: Cell)
    requires tx.raw.outputs == client.tx.raw.outputs + [change]
    requires !SameCode(script, change.output.lock)
    requires c.scriptHash(feeCell.output.lock) != c.scriptHash(script)
    requires LockGroup(c, client, script) == [at] && at < |client.spent|
    ensures var final := ResolvedTx(tx, client.spent + [feeCell], client.timestamps);
      WithinLimits(c, final, script, final.spent[at], p, region) <==>
        (&& WithinLimits(c, client, script, client.spent[at], p, region)
         && (p.policiesRoot == WILDCARD_ROOT
             || ChangeFramed(c, script, p.policiesRoot, client.tx.raw.outputs, change, region)))
  {
    var final := ResolvedTx(tx, client.spent + [feeCell], client.timestamps);
    SponsoredGroup(c, client, tx, script, feeCell);
    LimitsExact(c, client, script, at, p, region);
    LimitsExact(c, final, script, at, p, region);
    SponsoredLimitsExact(c, client, tx, script, client.spent[at].data, p, region, feeCell, change);
  }

  /** Assemble, then sign: the lock accepts what the service returned, once the
      client has signed it, exactly when the session and guardian signatures cover
      the sponsored transaction, the client's own transaction was within the
      session's limits, and in a scoped session the region holds a frame that
      proves the change. */
  lemma SponsoredSessionExact(
    c: Crypto, s: Service, collect: Collector, token: Bytes, client: ResolvedTx, now: u64, feeCell: Cell,
    script: Script, at: nat, owner: Bytes20, p: SessionParams, sessionSig: Bytes, guardianSig: Option<Bytes>,
    region: Bytes)
    requires Sponsor(s, collect, token, client.tx, now).Ok? && Collected(s, collect, client.tx).Some?
    requires feeCell.output.lock == s.feeLock
    requires feeCell.output.capacity == Collected(s, collect, client.tx).value.capacity
    requires c.scriptHash(s.feeLock) != c.scriptHash(script) && !SameCode(script, s.feeLock)
    requires script.args == RegisteredArgs(owner, SessionParamsBlock(p)) && WellSized(p, sessionSig, guardianSig)
    requires LockGroup(c, client, script) == [at] && at < |client.spent| && at < |client.tx.witnesses|
    ensures at < |Sponsor(s, collect, token, client.tx, now).value.tx.witnesses|
    ensures
      var done := Sponsor(s, collect, token, client.tx, now).value;
      var tx := WithWitness(done.tx, at, RegisteredWitness(sessionSig, guardianSig, region));
      var change := ChangeCell(s.feeLock, feeCell.output.capacity - done.fee);
      LockVerdict(c, ResolvedTx(tx, client.spent + [feeCell], client.timestamps), script).Ok? <==>
        (&& p.sessionHash != NO_KEY
         && c.sigOk(sessionSig, TxMessage(c, done.tx), p.sessionHash)
         && (guardianSig.Some? ==> c.sigOk(guardianSig.value, TxMessage(c, done.tx), p.guardianHash))
         && WithinLimits(c, client, script, client.spent[at], p, region)
         && (p.policiesRoot == WILDCARD_ROOT
             || ChangeFramed(c, script, p.policiesRoot, client.tx.raw.outputs, change, region)))
  {
    hide Sponsor, Collected, LockVerdict, WithinLimits, ChangeFramed, RegisteredWitness, LockGroup;
    SponsoredShape(s, collect, token, client.tx, now);
    var done := Sponsor(s, collect, token, client.tx, now).value;
    var tx := WithWitness(done.tx, at, RegisteredWitness(sessionSig, guardianSig, region));
    var change := ChangeCell(s.feeLock, feeCell.output.capacity - done.fee);
    ResignedExact(c, client, tx, script, at, owner, p, sessionSig, guardianSig, region, feeCell, change);
  }

  /** The same in the carried model: the witness brings the params and the owner's
      blessing of them, which must hold at the spent cell's epoch. */
  lemma SponsoredCarriedExact(
    c: Crypto, s: Service, collect: Collector, token: Bytes, client: ResolvedTx, now: u64, feeCell: Cell,
    script: Script, at: nat, owner: Bytes20, ownerAuth: Bytes, p: SessionParams, sessionSig: Bytes,
    guardianSig: Option<Bytes>, region: Bytes)
    requires Sponsor(s, collect, token, client.tx, now).Ok? && Collected(s, collect, client.tx).Some?
    requires feeCell.output.lock == s.feeLock
    requires feeCell.output.capacity == Collected(s, collect, client.tx).value.capacity
    requires c.scriptHash(s.feeLock) != c.scriptHash(script) && !SameCode(script, s.feeLock)
    requires script.args == OwnerOnlyArgs(owner) && |ownerAuth| == SIGNATURE_LEN
    requires WellSized(p, sessionSig, guardianSig)
    requires LockGroup(c, client, script) == [at] && at < |client.spent| && at < |client.tx.witnesses|
    ensures at < |Sponsor(s, collect, token, client.tx, now).value.tx.witnesses|
    ensures
      var done := Sponsor(s, collect, token, client.tx, now).value;
      var w := CarriedWitness(SessionParamsBlock(p), ownerAuth, sessionSig, guardianSig, region);
      var change := ChangeCell(s.feeLock, feeCell.output.capacity - done.fee);
      LockVerdict(c, ResolvedTx(WithWitness(done.tx, at, w), client.spent + [feeCell], client.timestamps), script).Ok?
        <==>
        (&& Blessed(c, script, owner, ownerAuth, p, client.spent[at].data)
         && p.sessionHash != NO_KEY
         && c.sigOk(sessionSig, TxMessage(c, done.tx), p.sessionHash)
         && (guardianSig.Some? ==> c.sigOk(guardianSig.value, TxMessage(c, done.tx), p.guardianHash))
         && WithinLimits(c, client, script, client.spent[at], p, region)
         && (p.policiesRoot == WILDCARD_ROOT
             || ChangeFramed(c, script, p.policiesRoot, client.tx.raw.outputs, change, region)))
  {
    hide Sponsor, Collected, LockVerdict, WithinLimits, ChangeFramed, CarriedWitness, LockGroup;
    SponsoredShape(s, collect, token, client.tx, now);
    var done := Sponsor(s, collect, token, client.tx, now).value;
    var w := CarriedWitness(SessionParamsBlock(p), ownerAuth, sessionSig, guardianSig, region);
    var change := ChangeCell(s.feeLock, feeCell.output.capacity - done.fee);
    ResignedCarriedExact(
      c, client, WithWitness(done.tx, at, w), script, at, owner, ownerAuth, p, sessionSig, guardianSig, region,
      feeCell, change);
  }

  /** The owner's authorization covers these params for this lock at the epoch in
      the data. */
  predicate Blessed(c: Crypto, script: Script, owner: Bytes20, ownerAuth: Bytes, p: SessionParams, data: Bytes) {
    c.sigOk(ownerAuth, SessionAuthMessage(c, c.scriptHash(script), RevocationEpoch(data), SessionParamsBlock(p)), owner)
  }

  lemma ResignedCarriedExact(
    c: Crypto, client: ResolvedTx, tx: Tx, script: Script, at: nat, owner: Bytes20, ownerAuth: Bytes,
    p: SessionParams, sessionSig: Bytes, guardianSig: Option<Bytes>, region: Bytes, feeCell: Cell, change: Cell)
    requires tx.raw.outputs == client.tx.raw.outputs + [change]
    requires at < |tx.witnesses|
    requires tx.witnesses[at] == CarriedWitness(SessionParamsBlock(p), ownerAuth, sessionSig, guardianSig, region)
    requires !SameCode(script, change.output.lock)
    requires c.scriptHash(feeCell.output.lock) != c.scriptHash(script)
    requires script.args == OwnerOnlyArgs(owner) && |ownerAuth| == SIGNATURE_LEN
    requires WellSized(p, sessionSig, guardianSig)
    requires LockGroup(c, client, script) == [at] && at < |client.spent|
    ensures LockVerdict(c, ResolvedTx(tx, client.spent + [feeCell], client.timestamps), script).Ok? <==>
      (&& Blessed(c, script, owner, ownerAuth, p, client.spent[at].data)
       && p.sessionHash != NO_KEY
       && c.sigOk(sessionSig, TxMessage(c, tx), p.sessionHash)
       && (guardianSig.Some? ==> c.sigOk(guardianSig.value, TxMessage(c, tx), p.guardianHash))
       && WithinLimits(c, client, script, client.spent[at], p, region)
       && (p.policiesRoot == WILDCARD_ROOT
           || ChangeFramed(c, script, p.policiesRoot, client.tx.raw.outputs, change, region)))
  {
    var final := ResolvedTx(tx, client.spent + [feeCell], client.timestamps);
    SponsoredGroup(c, client, tx, script, feeCell);
    CarriedWitnessMeans(c, final, script, at, owner, ownerAuth, p, sessionSig, guardianSig, region);
    SponsoredWithinLimits(c, client, tx, script, at, p, region, feeCell, change);
  }

  // ---- Refusals -------------------------------------------------------------

  /** How sponsorship is refused, in the order it is attempted, and what the collector
      is asked for. */
  lemma SponsorRefusals(s: Service, collect: Collector, token: Bytes, partial: Tx, now: u64)
    ensures
      var authorized := Authorize(s.authority, token, now, s.scope);
      var needed := SizedFee(s, partial) + MinChange(s.feeLock);
      var verdict := Sponsor(s, collect, token, partial, now);
      if authorized.Err? then verdict == Err(Unauthorized(authorized.error))
      else if needed > MAX_U64 then verdict == Err(Assemble(InsufficientFee))
      else
        match collect(s.feeLock, needed)
        case Err(e) => verdict == Err(RpcFailed(e))
        case Ok(None) => verdict == Err(NoFeeCell)
        case Ok(Some(cell)) =>
          if cell.capacity < SizedFee(s, partial) then verdict == Err(Assemble(InsufficientFee))
          else
            && verdict.Ok?
            && verdict.value.fee == SizedFee(s, partial) && verdict.value.feeInput == cell.outPoint
            && verdict.value.subject == authorized.value.subject
  {
  }
}
