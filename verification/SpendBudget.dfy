/**
 What a channel budget bounds. The spend cap is per transaction, so a session scoped to
 one channel can fund it again and again: the exposure is the budget times the number
 of transactions, and every amount that bound allows is reached.
 */
module SpendBudget {
  import opened Prelude
  import opened Chain
  import opened CellLedger
  import opened SessionLock
  import opened SessionWitness
  import opened SessionLedger
  import opened PaymentChannel

  /** The account after `n` fundings: the change of each is the account of the next. */
  function After(c: Crypto, cfg: ChannelConfig, budget: u64, n: nat): ChannelConfig {
    if n == 0 then cfg
    else
      var last := After(c, cfg, budget, n - 1);
      last.(accountInput := OutPoint(TxHash(c, FundingTx(last, budget).tx), 0),
            accountCapacity := SaturatingSub(last.accountCapacity, budget))
  }

  /** The hash of funding number `n`. */
  function FundingHash(c: Crypto, cfg: ChannelConfig, budget: u64, n: nat): Bytes32 {
    TxHash(c, FundingTx(After(c, cfg, budget, n), budget).tx)
  }

  lemma {:induction false} AfterKeeps(c: Crypto, cfg: ChannelConfig, budget: u64, n: nat)
    requires n * budget <= cfg.accountCapacity
    ensures var last := After(c, cfg, budget, n);
      && last.headerDep == cfg.headerDep
      && last.accountLock == cfg.accountLock && last.fundingLock == cfg.fundingLock
      && last.accountCapacity + n * budget == cfg.accountCapacity
  {
    if n > 0 {
      OneMoreTime(budget, n - 1);
      AfterKeeps(c, cfg, budget, n - 1);
    }
  }

  /** A funding as the session key signs it. */
  function SignedFunding(c: Crypto, cfg: ChannelConfig, budget: u64, key: SessionKey, headers: Headers)
    : ResolvedTx
    requires cfg.headerDep in headers
  {
    var tx := FundingTx(cfg, budget).tx;
    var message := TxMessage(c, tx);
    ResolvedTx(
      tx.(witnesses := [RegisteredWitness(key.sign(message), GuardSignature(key, message), ChannelProofRegion())]),
      [PlainCell(cfg.accountLock, cfg.accountCapacity)], [headers[cfg.headerDep]])
  }

  /** The account is live, with empty data and this capacity. */
  ghost predicate AccountLive(l: Ledger, cfg: ChannelConfig) {
    cfg.accountInput in l && l[cfg.accountInput] == PlainCell(cfg.accountLock, cfg.accountCapacity)
  }

  /** The session is registered for this channel, unexpired and signed by `key`. */
  ghost predicate ChannelSessionOpen(
    c: Crypto, cfg: ChannelConfig, owner: Bytes20, p: SessionParams, budget: u64, key: SessionKey, headers: Headers)
  {
    && p == ChannelParams(c, p.sessionHash, p.expiresAt, cfg.fundingLock, budget, p.guardianHash)
    && cfg.accountLock.args == RegisteredArgs(owner, SessionParamsBlock(p))
    && !SameCode(cfg.accountLock, cfg.fundingLock)
    && cfg.headerDep in headers && NotExpired(p, [headers[cfg.headerDep]]) && SignsFor(c, key, p)
  }

  /** What that asks of the account, the header and the key. */
  lemma OpensSession(
    c: Crypto, cfg: ChannelConfig, owner: Bytes20, sessionHash: Bytes20, expiresAt: u64, budget: u64,
    guardianHash: Bytes20, key: SessionKey, headers: Headers, l: Ledger)
    requires var p := ChannelParams(c, sessionHash, expiresAt, cfg.fundingLock, budget, guardianHash);
      cfg.accountLock.args == RegisteredArgs(owner, SessionParamsBlock(p)) && SignsFor(c, key, p)
    requires !SameCode(cfg.accountLock, cfg.fundingLock)
    requires cfg.headerDep in headers && (expiresAt == NO_EXPIRY || headers[cfg.headerDep] < 1000 * expiresAt)
    requires cfg.accountInput in l
    requires l[cfg.accountInput] == Cell(CellOutput(cfg.accountCapacity, cfg.accountLock, None), [])
    ensures ChannelSessionOpen(c, cfg, owner,
      ChannelParams(c, sessionHash, expiresAt, cfg.fundingLock, budget, guardianHash), budget, key, headers)
    ensures AccountLive(l, cfg)
  {
  }

  /** One funding takes exactly the budget, and leaves the account ready for another. */
  lemma FundingStep(
    c: Crypto, cfg: ChannelConfig, owner: Bytes20, p: SessionParams, budget: u64, key: SessionKey,
    headers: Headers, l: Ledger)
    requires ChannelSessionOpen(c, cfg, owner, p, budget, key, headers)
    requires AccountLive(l, cfg) && budget <= cfg.accountCapacity
    requires Fresh(l, TxHash(c, FundingTx(cfg, budget).tx))
    ensures var rtx := SignedFunding(c, cfg, budget, key, headers);
      var after := Committed(c, l, rtx.tx);
      && SessionStep(c, cfg.accountLock, l, rtx, after)
      && Holdings(cfg.accountLock, after) + budget == Holdings(cfg.accountLock, l)
      && AccountLive(after, After(c, cfg, budget, 1))
  {
    var rtx := SignedFunding(c, cfg, budget, key, headers);
    SpendsOne(l, cfg.accountInput);
    FundingInSession(c, cfg, owner, p, budget, key, headers);
    SumOverCommitted(Worth(cfg.accountLock), c, l, rtx);
    FundingWorth(cfg, budget);
    CommittedCells(c, l, rtx, OutPoint(TxHash(c, rtx.tx), 0));
    assert After(c, cfg, budget, 0) == cfg;
  }

  lemma FundingInSession(
    c: Crypto, cfg: ChannelConfig, owner: Bytes20, p: SessionParams, budget: u64, key: SessionKey, headers: Headers)
    requires ChannelSessionOpen(c, cfg, owner, p, budget, key, headers)
    ensures InSession(c, cfg.accountLock, SignedFunding(c, cfg, budget, key, headers))
  {
    hide SessionAccepts, RegisteredWitness, ChannelParams;
    var message := TxMessage(c, FundingTx(cfg, budget).tx);
    assert SignsMessage(c, key, p, message);
    var spent := PlainCell(cfg.accountLock, cfg.accountCapacity);
    FundingTxAccepted(c, cfg, owner, p.sessionHash, p.expiresAt, budget, p.guardianHash, spent, headers,
      key.sign(message), GuardSignature(key, message));
    assert Times(headers, FundingTx(cfg, budget).tx.raw.headerDeps) == [headers[cfg.headerDep]];
    SingleLockGroup(c, SignedFunding(c, cfg, budget, key, headers), cfg.accountLock);
  }

  lemma FundingWorth(cfg: ChannelConfig, budget: u64)
    requires cfg.fundingLock != cfg.accountLock && budget <= cfg.accountCapacity
    ensures SumOf(Worth(cfg.accountLock), [PlainCell(cfg.accountLock, cfg.accountCapacity)]) == cfg.accountCapacity
    ensures SumOf(Worth(cfg.accountLock), FundingTx(cfg, budget).tx.raw.outputs) == cfg.accountCapacity - budget
  {
    var account, outputs := PlainCell(cfg.accountLock, cfg.accountCapacity), FundingTx(cfg, budget).tx.raw.outputs;
    assert [account][1..] == [] && outputs[1..] == [outputs[1]] && [outputs[1]][1..] == [];
    assert SumOf(Worth(cfg.accountLock), [outputs[1]]) == 0;
  }

  /** The fundings have hashes of their own. */
  ghost predicate FundingsDiffer(c: Crypto, cfg: ChannelConfig, budget: u64, k: nat, known: set<Bytes32>) {
    && (forall i: nat :: i < k ==> FundingHash(c, cfg, budget, i) !in known)
    && (forall i: nat, j: nat :: i < j < k ==> FundingHash(c, cfg, budget, i) != FundingHash(c, cfg, budget, j))
  }

  ghost function HashesUpTo(c: Crypto, cfg: ChannelConfig, budget: u64, k: nat): set<Bytes32> {
    set i: nat | i < k :: FundingHash(c, cfg, budget, i)
  }

  /** An accepted session-only run of k steps from `l` after which the account holds
      exactly k times the budget less, and is ready for another funding. */
  ghost predicate TakenTimes(
    c: Crypto, cfg: ChannelConfig, budget: u64, l: Ledger, known: set<Bytes32>, k: nat,
    ledgers: seq<Ledger>, steps: seq<ResolvedTx>)
  {
    && SessionRun(c, cfg.accountLock, ledgers, steps)
    && |steps| == k && |ledgers| == k + 1 && ledgers[0] == l
    && Holdings(cfg.accountLock, ledgers[k]) + k * budget == Holdings(cfg.accountLock, l)
    && AccountLive(ledgers[k], After(c, cfg, budget, k))
    && KnownHashes(ledgers[k], known + HashesUpTo(c, cfg, budget, k))
  }

  /** However many budgets fit the account, the key of a one-channel session takes out
      that many. */
  lemma {:induction false} BudgetTakenTimes(
    c: Crypto, cfg: ChannelConfig, owner: Bytes20, p: SessionParams, budget: u64, key: SessionKey,
    headers: Headers, l: Ledger, known: set<Bytes32>, k: nat)
    returns (ledgers: seq<Ledger>, steps: seq<ResolvedTx>)
    requires ChannelSessionOpen(c, cfg, owner, p, budget, key, headers)
    requires AccountLive(l, cfg) && k * budget <= cfg.accountCapacity
    requires KnownHashes(l, known) && FundingsDiffer(c, cfg, budget, k, known)
    ensures TakenTimes(c, cfg, budget, l, known, k, ledgers, steps)
  {
    hide ChannelSessionOpen, AccountLive, KnownHashes, FundingsDiffer, TakenTimes;
    if k == 0 {
      ledgers, steps := [l], [];
      NoneTaken(c, cfg, budget, l, known);
    } else {
      OneMoreTime(budget, k - 1);
      HashIsNew(c, cfg, budget, k, known);
      var shorter, done := BudgetTakenTimes(c, cfg, owner, p, budget, key, headers, l, known, k - 1);
      ledgers, steps := TakeOneMore(c, cfg, owner, p, budget, key, headers, l, known, k, shorter, done);
    }
  }

  lemma NoneTaken(c: Crypto, cfg: ChannelConfig, budget: u64, l: Ledger, known: set<Bytes32>)
    requires AccountLive(l, cfg) && KnownHashes(l, known)
    ensures TakenTimes(c, cfg, budget, l, known, 0, [l], [])
  {
    assert After(c, cfg, budget, 0) == cfg;
  }

  lemma TakeOneMore(
    c: Crypto, cfg: ChannelConfig, owner: Bytes20, p: SessionParams, budget: u64, key: SessionKey,
    headers: Headers, l: Ledger, known: set<Bytes32>, k: nat, shorter: seq<Ledger>, done: seq<ResolvedTx>)
    returns (ledgers: seq<Ledger>, steps: seq<ResolvedTx>)
    requires k > 0 && k * budget <= cfg.accountCapacity
    requires ChannelSessionOpen(c, cfg, owner, p, budget, key, headers)
    requires TakenTimes(c, cfg, budget, l, known, k - 1, shorter, done)
    requires FundingHash(c, cfg, budget, k - 1) !in known + HashesUpTo(c, cfg, budget, k - 1)
    ensures TakenTimes(c, cfg, budget, l, known, k, ledgers, steps)
  {
    hide SessionStep, SessionRun, Holdings, Committed, FundingTx, ChannelParams, RegisteredArgs;
    OneMoreTime(budget, k - 1);
    var last, before := After(c, cfg, budget, k - 1), shorter[k - 1];
    AfterKeeps(c, cfg, budget, k - 1);
    var rtx := SignedFunding(c, last, budget, key, headers);
    FundingStep(c, last, owner, p, budget, key, headers, before);
    var after := Committed(c, before, rtx.tx);
    StepCommits(c, cfg.accountLock, before, rtx, after);
    KnownAfter(c, before, rtx, known + HashesUpTo(c, cfg, budget, k - 1));
    ledgers, steps := shorter + [after], done + [rtx];
    SessionRunSnoc(c, cfg.accountLock, shorter, done, rtx, after);
    assert HashesUpTo(c, cfg, budget, k) == HashesUpTo(c, cfg, budget, k - 1) + {FundingHash(c, cfg, budget, k - 1)};
    AfterOneMore(c, cfg, budget, k);
  }

  lemma StepCommits(c: Crypto, account: Script, before: Ledger, rtx: ResolvedTx, after: Ledger)
    requires SessionStep(c, account, before, rtx, after)
    ensures Committable(c, before, rtx)
  {
  }

  lemma AfterOneMore(c: Crypto, cfg: ChannelConfig, budget: u64, k: nat)
    requires k > 0
    ensures After(c, After(c, cfg, budget, k - 1), budget, 1) == After(c, cfg, budget, k)
  {
    var last := After(c, cfg, budget, k - 1);
    assert After(c, last, budget, 0) == last;
  }

  lemma HashIsNew(c: Crypto, cfg: ChannelConfig, budget: u64, k: nat, known: set<Bytes32>)
    requires k > 0 && FundingsDiffer(c, cfg, budget, k, known)
    ensures FundingsDiffer(c, cfg, budget, k - 1, known)
    ensures FundingHash(c, cfg, budget, k - 1) !in known + HashesUpTo(c, cfg, budget, k - 1)
  {
  }

  lemma SessionRunSnoc(
    c: Crypto, account: Script, ledgers: seq<Ledger>, steps: seq<ResolvedTx>, rtx: ResolvedTx, after: Ledger)
    requires SessionRun(c, account, ledgers, steps)
    requires SessionStep(c, account, ledgers[|steps|], rtx, after)
    ensures SessionRun(c, account, ledgers + [after], steps + [rtx])
  {
    forall i | 0 <= i < |steps + [rtx]|
      ensures StepAt(c, account, ledgers + [after], steps + [rtx], i)
    {
      assert i < |steps| ==> StepAt(c, account, ledgers, steps, i);
    }
  }
}
