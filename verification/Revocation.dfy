/**
 Revoking carried authorizations. An owner's blessing of a session is signed for one
 revocation epoch; it can be used exactly while a live account cell carries that
 epoch. Sessions cannot bring an epoch back, but whoever creates an account cell can,
 and one owner transaction cannot retire an epoch that two cells carry.
 */
module Revocation {
  import opened Prelude
  import opened Chain
  import opened CellLedger
  import opened SessionLock
  import opened SessionWitness
  import opened SessionLedger
  import opened PaymentChannel

  // ---- Blessings ------------------------------------------------------------

  datatype Blessing = Blessing(params: SessionParams, epoch: u64, ownerAuth: Bytes)

  function BlessingInput(c: Crypto, account: Script, params: SessionParams, epoch: u64): Bytes {
    AuthInput(c.scriptHash(account), epoch, SessionParamsBlock(params))
  }

  function BlessingMessage(c: Crypto, account: Script, params: SessionParams, epoch: u64): Bytes32 {
    SessionAuthMessage(c, c.scriptHash(account), epoch, SessionParamsBlock(params))
  }

  /** The lock's check of the blessing on a cell at `epoch`. */
  predicate VerifiesAt(c: Crypto, account: Script, owner: Bytes20, b: Blessing, epoch: u64) {
    c.sigOk(b.ownerAuth, BlessingMessage(c, account, b.params, epoch), owner)
  }

  /** The owner of a carried-model account made this blessing, for its own epoch, and
      the signature is good for that message only. */
  ghost predicate Made(c: Crypto, account: Script, owner: Bytes20, b: Blessing) {
    && account.args == OwnerOnlyArgs(owner)
    && |b.ownerAuth| == SIGNATURE_LEN
    && VerifiesAt(c, account, owner, b, b.epoch)
    && forall m: Bytes32 :: c.sigOk(b.ownerAuth, m, owner) ==> m == BlessingMessage(c, account, b.params, b.epoch)
  }

  /** The messages of two epochs are the same though the strings hashed differ. */
  predicate EpochsCollide(c: Crypto, account: Script, b: Blessing, epoch: u64) {
    Collide(c, BlessingInput(c, account, b.params, b.epoch), BlessingInput(c, account, b.params, epoch))
  }

  lemma VerifiesAtExact(c: Crypto, account: Script, owner: Bytes20, b: Blessing, epoch: u64)
    requires Made(c, account, owner, b)
    ensures (VerifiesAt(c, account, owner, b, epoch) <==> epoch == b.epoch) || EpochsCollide(c, account, b, epoch)
  {
    if VerifiesAt(c, account, owner, b, epoch) {
      var h, block := c.scriptHash(account), SessionParamsBlock(b.params);
      AuthMessageBinds(c, h, b.epoch, block, h, epoch, block);
    }
  }

  /** The lock accepts a transaction carrying the blessing exactly when the account
      cell it spends is at the blessing's epoch and the session authorizes it, unless
      two named strings collide. */
  lemma BlessingAcceptedExact(
    c: Crypto, rtx: ResolvedTx, account: Script, at: nat, owner: Bytes20, b: Blessing,
    sessionSig: Bytes, guardianSig: Option<Bytes>, region: Bytes)
    requires Made(c, account, owner, b) && WellSized(b.params, sessionSig, guardianSig)
    requires SpendsWith(c, rtx, account, at,
      CarriedWitness(SessionParamsBlock(b.params), b.ownerAuth, sessionSig, guardianSig, region))
    ensures
      || EpochsCollide(c, account, b, RevocationEpoch(rtx.spent[at].data))
      || (LockVerdict(c, rtx, account).Ok? <==>
            && RevocationEpoch(rtx.spent[at].data) == b.epoch
            && SessionAuthorizes(c, rtx, account, rtx.spent[at], b.params, sessionSig, guardianSig, region))
  {
    CarriedWitnessMeans(c, rtx, account, at, owner, b.ownerAuth, b.params, sessionSig, guardianSig, region);
    VerifiesAtExact(c, account, owner, b, RevocationEpoch(rtx.spent[at].data));
  }

  /** The same with nothing left open: where the signature is good for the blessing's
      message and no other, and the messages of two epochs differ. */
  lemma BlessingMeans(
    c: Crypto, rtx: ResolvedTx, account: Script, at: nat, owner: Bytes20, b: Blessing,
    sessionSig: Bytes, guardianSig: Option<Bytes>, region: Bytes)
    requires account.args == OwnerOnlyArgs(owner) && |b.ownerAuth| == 65
    requires forall m: Bytes32 ::
      c.sigOk(b.ownerAuth, m, owner) <==> m == BlessingMessage(c, account, b.params, b.epoch)
    requires WellSized(b.params, sessionSig, guardianSig)
    requires SpendsWith(c, rtx, account, at,
      CarriedWitness(SessionParamsBlock(b.params), b.ownerAuth, sessionSig, guardianSig, region))
    requires var epoch := RevocationEpoch(rtx.spent[at].data);
      epoch == b.epoch
      || BlessingMessage(c, account, b.params, epoch) != BlessingMessage(c, account, b.params, b.epoch)
    ensures LockVerdict(c, rtx, account).Ok? <==>
      && RevocationEpoch(rtx.spent[at].data) == b.epoch
      && SessionAuthorizes(c, rtx, account, rtx.spent[at], b.params, sessionSig, guardianSig, region)
  {
    BlessingAcceptedExact(c, rtx, account, at, owner, b, sessionSig, guardianSig, region);
  }

  // ---- Epochs on the ledger -------------------------------------------------

  predicate AtEpoch(account: Script, cell: Cell, epoch: u64) {
    cell.output.lock == account && RevocationEpoch(cell.data) == epoch
  }

  /** Some live account cell carries the epoch. */
  ghost predicate EpochLive(account: Script, l: Ledger, epoch: u64) {
    exists k :: k in l && AtEpoch(account, l[k], epoch)
  }

  /** The blessing passes the lock's check on some live account cell. */
  ghost predicate Usable(c: Crypto, account: Script, owner: Bytes20, b: Blessing, l: Ledger) {
    exists k :: k in l && UsableOn(c, account, owner, b, l[k])
  }

  predicate UsableOn(c: Crypto, account: Script, owner: Bytes20, b: Blessing, cell: Cell) {
    cell.output.lock == account && VerifiesAt(c, account, owner, b, RevocationEpoch(cell.data))
  }

  /** A blessing is usable exactly while some live account cell carries its epoch,
      unless the blessing's strings collide for the epoch of a live account cell. */
  lemma UsableExact(c: Crypto, account: Script, owner: Bytes20, b: Blessing, l: Ledger)
    requires Made(c, account, owner, b)
    ensures
      || (Usable(c, account, owner, b, l) <==> EpochLive(account, l, b.epoch))
      || exists k :: k in l && l[k].output.lock == account && EpochsCollide(c, account, b, RevocationEpoch(l[k].data))
  {
    if EpochLive(account, l, b.epoch) {
      var k :| k in l && AtEpoch(account, l[k], b.epoch);
      assert UsableOn(c, account, owner, b, l[k]);
    }
    if Usable(c, account, owner, b, l) {
      var k :| k in l && UsableOn(c, account, owner, b, l[k]);
      VerifiesAtExact(c, account, owner, b, RevocationEpoch(l[k].data));
      assert AtEpoch(account, l[k], b.epoch) || EpochsCollide(c, account, b, RevocationEpoch(l[k].data));
    }
  }

  /** And where the messages of the live epochs differ, exactly while one is its own. */
  lemma UsableMeans(c: Crypto, account: Script, owner: Bytes20, b: Blessing, l: Ledger)
    requires account.args == OwnerOnlyArgs(owner) && |b.ownerAuth| == 65
    requires forall m: Bytes32 ::
      c.sigOk(b.ownerAuth, m, owner) <==> m == BlessingMessage(c, account, b.params, b.epoch)
    requires forall k :: k in l && l[k].output.lock == account && RevocationEpoch(l[k].data) != b.epoch ==>
      BlessingMessage(c, account, b.params, RevocationEpoch(l[k].data))
        != BlessingMessage(c, account, b.params, b.epoch)
    ensures Usable(c, account, owner, b, l) <==>
      exists k :: k in l && l[k].output.lock == account && RevocationEpoch(l[k].data) == b.epoch
  {
    UsableExact(c, account, owner, b, l);
    if k :| k in l && l[k].output.lock == account && RevocationEpoch(l[k].data) == b.epoch {
      assert AtEpoch(account, l[k], b.epoch);
    }
  }

  // ---- Steps ----------------------------------------------------------------

  /** The transaction creates an account cell at the epoch. */
  ghost predicate Creates(account: Script, rtx: ResolvedTx, epoch: u64) {
    exists cell :: cell in rtx.tx.raw.outputs && AtEpoch(account, cell, epoch)
  }

  /** A live account cell at the epoch is left unspent. */
  ghost predicate Survives(account: Script, l: Ledger, rtx: ResolvedTx, epoch: u64) {
    exists k :: k in l && k !in rtx.tx.raw.inputs && AtEpoch(account, l[k], epoch)
  }

  /** What any committed transaction does to an epoch, exactly. */
  lemma EpochAfterExact(c: Crypto, account: Script, l: Ledger, rtx: ResolvedTx, epoch: u64)
    requires Committable(c, l, rtx)
    ensures EpochLive(account, Committed(c, l, rtx.tx), epoch) <==>
      Survives(account, l, rtx, epoch) || Creates(account, rtx, epoch)
  {
    var after, outputs := Committed(c, l, rtx.tx), rtx.tx.raw.outputs;
    if EpochLive(account, after, epoch) {
      var k :| k in after && AtEpoch(account, after[k], epoch);
      CommittedCells(c, l, rtx, k);
      if k.txHash == TxHash(c, rtx.tx) {
        assert OutPoint(k.txHash, k.index) == k;
        assert outputs[k.index] in outputs;
      }
    }
    if Survives(account, l, rtx, epoch) {
      var k :| k in l && k !in rtx.tx.raw.inputs && AtEpoch(account, l[k], epoch);
      CommittedCells(c, l, rtx, k);
      assert OutPoint(k.txHash, k.index) == k;
      assert after[k] == l[k];
    }
    if Creates(account, rtx, epoch) {
      var cell :| cell in outputs && AtEpoch(account, cell, epoch);
      var i :| 0 <= i < |outputs| && outputs[i] == cell;
      CommittedCells(c, l, rtx, OutPoint(TxHash(c, rtx.tx), i));
      assert after[OutPoint(TxHash(c, rtx.tx), i)] == cell;
    }
  }

  /** A session step creates account cells only at the epoch it spends. */
  lemma SessionCreatesOldEpoch(c: Crypto, account: Script, l: Ledger, rtx: ResolvedTx, epoch: u64)
    requires Committable(c, l, rtx) && InSession(c, account, rtx)
    requires Creates(account, rtx, epoch)
    ensures EpochLive(account, l, epoch)
  {
    SessionLimits(c, account, rtx);
    var cell :| cell in rtx.tx.raw.outputs && AtEpoch(account, cell, epoch);
    assert Continues(account, AccountCell(c, rtx, account).data, cell);
    var group := LockGroup(c, rtx, account);
    assert group[0] in group;
    var k := rtx.tx.raw.inputs[group[0]];
    assert l[k] == AccountCell(c, rtx, account);
    assert AtEpoch(account, l[k], epoch);
  }

  /** The lock admits one account cell per transaction. */
  lemma SpendsOneAccountCell(c: Crypto, account: Script, l: Ledger, rtx: ResolvedTx, k: OutPoint, k': OutPoint)
    requires Spends(l, rtx.tx.raw.inputs, rtx.spent) && LockVerdict(c, rtx, account).Ok?
    requires k in rtx.tx.raw.inputs && l[k].output.lock == account
    requires k' in rtx.tx.raw.inputs && l[k'].output.lock == account
    ensures k == k'
  {
    var inputs, group := rtx.tx.raw.inputs, LockGroup(c, rtx, account);
    var i :| 0 <= i < |inputs| && inputs[i] == k;
    var j :| 0 <= j < |inputs| && inputs[j] == k';
    assert i in group && j in group;
    assert |group| == 1;
    assert group == [group[0]];
  }

  // ---- Runs of the chain ----------------------------------------------------

  /** Any transaction the chain commits: the account lock has its say whenever an
      account cell is spent, in owner or session mode; deposits spend none. */
  ghost predicate ChainStep(c: Crypto, account: Script, before: Ledger, rtx: ResolvedTx, after: Ledger) {
    && Committable(c, before, rtx)
    && after == Committed(c, before, rtx.tx)
    && (LockGroup(c, rtx, account) == [] || LockVerdict(c, rtx, account).Ok?)
  }

  ghost predicate ChainRun(c: Crypto, account: Script, ledgers: seq<Ledger>, steps: seq<ResolvedTx>) {
    && |ledgers| == |steps| + 1
    && forall i :: 0 <= i < |steps| ==> ChainStepAt(c, account, ledgers, steps, i)
  }

  ghost predicate ChainStepAt(c: Crypto, account: Script, ledgers: seq<Ledger>, steps: seq<ResolvedTx>, i: nat) {
    i < |steps| && i + 1 < |ledgers| && ChainStep(c, account, ledgers[i], steps[i], ledgers[i + 1])
  }

  /** Runs start at any ledger and go on with any transaction the chain can commit
      that spends no account cell or that the lock lets through. */
  lemma ChainRunGrows(c: Crypto, account: Script, ledgers: seq<Ledger>, steps: seq<ResolvedTx>, rtx: ResolvedTx)
    ensures |ledgers| == 1 && steps == [] ==> ChainRun(c, account, ledgers, steps)
    ensures
      && ChainRun(c, account, ledgers, steps)
      && Committable(c, ledgers[|steps|], rtx)
      && (LockGroup(c, rtx, account) == [] || LockVerdict(c, rtx, account).Ok?)
      ==> ChainRun(c, account, ledgers + [Committed(c, ledgers[|steps|], rtx.tx)], steps + [rtx])
  {
    hide Committable, Committed, LockGroup, LockVerdict;
    if ChainRun(c, account, ledgers, steps) {
      forall i | 0 <= i < |steps| ensures ChainStep(c, account, ledgers[i], steps[i], ledgers[i + 1]) {
        assert ChainStepAt(c, account, ledgers, steps, i);
      }
    }
  }

  /** An owner transaction or a deposit creates an account cell at the epoch. */
  ghost predicate RevivesAt(c: Crypto, account: Script, steps: seq<ResolvedTx>, i: nat, epoch: u64) {
    i < |steps| && !InSession(c, account, steps[i]) && Creates(account, steps[i], epoch)
  }

  /** Along any run of owner, session and foreign transactions, an epoch that no live
      account cell carries comes back only when an owner transaction or a deposit
      creates an account cell at it. */
  lemma {:induction false} RunRevivesOnlyByCreation(
    c: Crypto, account: Script, ledgers: seq<Ledger>, steps: seq<ResolvedTx>, epoch: u64, at: nat)
    requires ChainRun(c, account, ledgers, steps) && at <= |steps|
    requires !EpochLive(account, ledgers[0], epoch)
    requires forall i :: 0 <= i < at ==> !RevivesAt(c, account, steps, i, epoch)
    ensures !EpochLive(account, ledgers[at], epoch)
  {
    if at > 0 {
      RunRevivesOnlyByCreation(c, account, ledgers, steps, epoch, at - 1);
      assert ChainStepAt(c, account, ledgers, steps, at - 1) && !RevivesAt(c, account, steps, at - 1, epoch);
      StepRevivesNothing(c, account, ledgers[at - 1], steps[at - 1], epoch);
    }
  }

  lemma StepRevivesNothing(c: Crypto, account: Script, l: Ledger, rtx: ResolvedTx, epoch: u64)
    requires Committable(c, l, rtx) && !EpochLive(account, l, epoch)
    requires InSession(c, account, rtx) || !Creates(account, rtx, epoch)
    ensures !EpochLive(account, Committed(c, l, rtx.tx), epoch)
  {
    EpochAfterExact(c, account, l, rtx, epoch);
    if Creates(account, rtx, epoch) {
      SessionCreatesOldEpoch(c, account, l, rtx, epoch);
    }
  }

  /** So an epoch that has come back was brought back by an owner transaction or a
      deposit that created an account cell at it. */
  lemma RevivalHasCreator(
    c: Crypto, account: Script, ledgers: seq<Ledger>, steps: seq<ResolvedTx>, epoch: u64, at: nat)
    requires ChainRun(c, account, ledgers, steps) && at <= |steps|
    requires !EpochLive(account, ledgers[0], epoch) && EpochLive(account, ledgers[at], epoch)
    ensures exists i :: 0 <= i < at && !InSession(c, account, steps[i]) && Creates(account, steps[i], epoch)
  {
    if forall i :: 0 <= i < at ==> !RevivesAt(c, account, steps, i, epoch) {
      RunRevivesOnlyByCreation(c, account, ledgers, steps, epoch, at);
    }
  }

  /** A revoked blessing stays revoked: once no live account cell carries its epoch,
      and until someone other than a session creates one that does, the lock refuses
      it on every live account cell, unless two named strings collide. */
  lemma RevokedStaysRevoked(
    c: Crypto, account: Script, ledgers: seq<Ledger>, steps: seq<ResolvedTx>, at: nat,
    rtx: ResolvedTx, j: nat, owner: Bytes20, b: Blessing,
    sessionSig: Bytes, guardianSig: Option<Bytes>, region: Bytes)
    requires ChainRun(c, account, ledgers, steps) && at <= |steps|
    requires !EpochLive(account, ledgers[0], b.epoch)
    requires forall i :: 0 <= i < at ==> !RevivesAt(c, account, steps, i, b.epoch)
    requires Made(c, account, owner, b) && WellSized(b.params, sessionSig, guardianSig)
    requires Spends(ledgers[at], rtx.tx.raw.inputs, rtx.spent)
    requires SpendsWith(c, rtx, account, j,
      CarriedWitness(SessionParamsBlock(b.params), b.ownerAuth, sessionSig, guardianSig, region))
    requires rtx.spent[j].output.lock == account
    ensures LockVerdict(c, rtx, account).Err? || EpochsCollide(c, account, b, RevocationEpoch(rtx.spent[j].data))
  {
    RunRevivesOnlyByCreation(c, account, ledgers, steps, b.epoch, at);
    assert rtx.spent[j] == ledgers[at][rtx.tx.raw.inputs[j]];
    assert !AtEpoch(account, rtx.spent[j], b.epoch);
    BlessingAcceptedExact(c, rtx, account, j, owner, b, sessionSig, guardianSig, region);
  }

  // ---- Where one bump is not enough -----------------------------------------

  /** While two live account cells carry an epoch, no single transaction the chain
      commits retires it: the lock lets only one of them be spent at a time. */
  lemma OneBumpLeavesSecondCell(
    c: Crypto, account: Script, before: Ledger, rtx: ResolvedTx, after: Ledger, epoch: u64, k: OutPoint, k': OutPoint)
    requires ChainStep(c, account, before, rtx, after)
    requires k != k' && k in before && k' in before
    requires AtEpoch(account, before[k], epoch) && AtEpoch(account, before[k'], epoch)
    ensures EpochLive(account, after, epoch)
  {
    if k in rtx.tx.raw.inputs && k' in rtx.tx.raw.inputs {
      var i :| 0 <= i < |rtx.tx.raw.inputs| && rtx.tx.raw.inputs[i] == k;
      assert i in LockGroup(c, rtx, account);
      SpendsOneAccountCell(c, account, before, rtx, k, k');
    }
    EpochAfterExact(c, account, before, rtx, epoch);
  }

  /** The reviving input: the owner has moved the one account cell to epoch 1, so a
      blessing for epoch 0 is not usable; the settle transaction of a channel then
      pays back into an account cell with empty data, which reads as epoch 0, and the
      blessing is usable again. */
  lemma SettleRevives(
    c: Crypto, cfg: ChannelConfig, owner: Bytes20, b: Blessing, k: OutPoint, capacity: u64,
    funding: OutPoint, budget: u64, settlement: Settlement)
    requires Made(c, cfg.accountLock, owner, b) && b.epoch == 0 && k != funding
    requires c.scriptHash(cfg.fundingLock) != c.scriptHash(cfg.accountLock)
    requires !EpochsCollide(c, cfg.accountLock, b, 1)
    requires TxHash(c, SettleTx(cfg, funding, settlement).tx) !in {k.txHash, funding.txHash}
    ensures
      var before := map[
        k := Cell(CellOutput(capacity, cfg.accountLock, None), EpochData(1)),
        funding := PlainCell(cfg.fundingLock, budget)];
      var rtx := ResolvedTx(SettleTx(cfg, funding, settlement).tx, [PlainCell(cfg.fundingLock, budget)], []);
      var after := Committed(c, before, rtx.tx);
      && ChainStep(c, cfg.accountLock, before, rtx, after)
      && !Usable(c, cfg.accountLock, owner, b, before)
      && Usable(c, cfg.accountLock, owner, b, after)
  {
    var account := cfg.accountLock;
    var bumped, fund := Cell(CellOutput(capacity, account, None), EpochData(1)), PlainCell(cfg.fundingLock, budget);
    var before := map[k := bumped, funding := fund];
    var tx := SettleTx(cfg, funding, settlement).tx;
    var rtx := ResolvedTx(tx, [fund], []);
    EpochReadBack(1);
    assert Committable(c, before, rtx);
    MatchingNone(HasLockHash(c, c.scriptHash(account)), rtx.spent);
    VerifiesAtExact(c, account, owner, b, 1);
    assert !UsableOn(c, account, owner, b, bumped) && !UsableOn(c, account, owner, b, fund);
    var settled := OutPoint(TxHash(c, tx), 0);
    CommittedCells(c, before, rtx, settled);
    assert RevocationEpoch(tx.raw.outputs[0].data) == 0;
    assert UsableOn(c, account, owner, b, Committed(c, before, tx)[settled]);
  }
}
