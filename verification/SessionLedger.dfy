/**
 Session keys over whole runs of the ledger. However a session key spends, each
 step takes at most the spend cap out of the account, and the data that carries
 the revocation epoch stays as it was.
 */
module SessionLedger {
  import opened Prelude
  import opened Chain
  import opened CellLedger
  import opened SessionLock

  // ---- Sums of cells ---------------------------------------------------------

  lemma {:induction false} SumOfMonotone(f: Cell -> nat, g: Cell -> nat, s: seq<Cell>)
    requires forall cell :: cell in s ==> f(cell) <= g(cell)
    ensures SumOf(f, s) <= SumOf(g, s)
  {
    if s != [] {
      assert s[0] in s && forall cell :: cell in s[1..] ==> cell in s;
      SumOfMonotone(f, g, s[1..]);
    }
  }

  /** A sum with at most one nonzero term. */
  lemma {:induction false} SumOfSingle(f: Cell -> nat, s: seq<Cell>, at: nat)
    requires at < |s|
    requires forall i :: 0 <= i < |s| && i != at ==> f(s[i]) == 0
    ensures SumOf(f, s) == f(s[at])
  {
    SumOfRemove(f, s, at);
    SumOfZero(f, s[..at] + s[at + 1..]);
  }

  lemma {:induction false} SumOfZero(f: Cell -> nat, s: seq<Cell>)
    requires forall i :: 0 <= i < |s| ==> f(s[i]) == 0
    ensures SumOf(f, s) == 0
  {
    if s != [] {
      SumOfZero(f, s[1..]);
    }
  }

  // ---- Session steps --------------------------------------------------------

  /** A cell's capacity if it is under the account lock. */
  function Worth(account: Script): Cell -> nat {
    (cell: Cell) => if cell.output.lock == account then cell.output.capacity else 0
  }

  /** Total capacity of the live cells under the account lock. */
  ghost function Holdings(account: Script, l: Ledger): nat {
    SumOver(Worth(account), l)
  }

  /** Every live cell under the account lock carries `data`. */
  ghost predicate AllCarry(account: Script, l: Ledger, data: Bytes) {
    forall k :: k in l && l[k].output.lock == account ==> l[k].data == data
  }

  /** A transaction spending live cells, its outputs under fresh outpoints, which
      the account lock of the cell it spends let through in session mode. */
  ghost predicate SessionStep(c: Crypto, account: Script, before: Ledger, rtx: ResolvedTx, after: Ledger) {
    && Committable(c, before, rtx)
    && after == Committed(c, before, rtx.tx)
    && InSession(c, account, rtx)
  }

  /** The account lock of the cell it spends let the transaction through in
      session mode. */
  ghost predicate InSession(c: Crypto, account: Script, rtx: ResolvedTx) {
    SessionAccepts(c, rtx, account) && AccountCell(c, rtx, account).output.lock == account
  }

  /** Group membership by hash covers every spent cell with the account's lock. */
  lemma SpentWorth(c: Crypto, account: Script, rtx: ResolvedTx)
    requires SessionAccepts(c, rtx, account)
    requires AccountCell(c, rtx, account).output.lock == account
    ensures SumOf(Worth(account), rtx.spent) == AccountCell(c, rtx, account).output.capacity
  {
    hide OpenSession, LimitsVerdict, LockVerdict;
    SessionAcceptsMeans(c, rtx, account);
    var group := LockGroup(c, rtx, account);
    assert group[0] in group;
    forall i | 0 <= i < |rtx.spent| && i != group[0]
      ensures Worth(account)(rtx.spent[i]) == 0
    {
      assert i !in group;
    }
    SumOfSingle(Worth(account), rtx.spent, group[0]);
  }

  lemma ReturnedWorth(account: Script, data: Bytes, outputs: seq<Cell>)
    requires AllContinue(account, data, outputs)
    ensures SumOf(CapacityUnder(account), outputs) <= SumOf(Worth(account), outputs)
  {
    SumOfMonotone(CapacityUnder(account), Worth(account), outputs);
  }

  /** What an accepted session transaction promises about capacity and data. */
  lemma SessionLimits(c: Crypto, account: Script, rtx: ResolvedTx)
    requires SessionAccepts(c, rtx, account)
    ensures |LockGroup(c, rtx, account)| == 1
    ensures var cell := AccountCell(c, rtx, account);
      && AllContinue(account, cell.data, rtx.tx.raw.outputs)
      && var cap := Session(c, rtx, account).0.spendCap;
         cap != SPEND_CAP_UNLIMITED ==>
           cell.output.capacity <= cap + SumOf(CapacityUnder(account), rtx.tx.raw.outputs)
  {
    SessionAcceptsMeans(c, rtx, account);
    var (p, region) := Session(c, rtx, account);
    LimitsBound(c, rtx, account, AccountCell(c, rtx, account), p, region);
  }

  lemma LimitsBound(c: Crypto, rtx: ResolvedTx, account: Script, cell: Cell, p: SessionParams, region: Bytes)
    requires GroupCells(c, rtx, account) == [cell]
    requires LimitsVerdict(c, rtx, account, cell.data, p, region).Ok?
    ensures AllContinue(account, cell.data, rtx.tx.raw.outputs)
    ensures p.spendCap != SPEND_CAP_UNLIMITED ==>
      cell.output.capacity <= p.spendCap + SumOf(CapacityUnder(account), rtx.tx.raw.outputs)
  {
    SumOfOne(cell);
  }

  /** One session step takes at most its cap out of the account. */
  lemma StepLosesAtMostCap(c: Crypto, account: Script, before: Ledger, rtx: ResolvedTx, after: Ledger)
    requires SessionStep(c, account, before, rtx, after)
    requires Session(c, rtx, account).0.spendCap != SPEND_CAP_UNLIMITED
    ensures Holdings(account, before) <= Holdings(account, after) + Session(c, rtx, account).0.spendCap
  {
    var raw, f := rtx.tx.raw, Worth(account);
    SumOverCommitted(f, c, before, rtx);
    SpentWorth(c, account, rtx);
    SessionLimits(c, account, rtx);
    ReturnedWorth(account, AccountCell(c, rtx, account).data, raw.outputs);
  }

  /** One session step leaves the data of every account cell as it was. */
  lemma StepKeepsData(c: Crypto, account: Script, before: Ledger, rtx: ResolvedTx, after: Ledger, data: Bytes)
    requires SessionStep(c, account, before, rtx, after)
    requires AllCarry(account, before, data)
    ensures AllCarry(account, after, data)
  {
    var raw := rtx.tx.raw;
    SessionLimits(c, account, rtx);
    ConsumeKeeps(before, raw.inputs);
    ProduceKeys(Consume(before, raw.inputs), TxHash(c, rtx.tx), raw.outputs);
    var group := LockGroup(c, rtx, account);
    assert group[0] in group;
    assert AccountCell(c, rtx, account) == before[raw.inputs[group[0]]];
    forall k | k in after && after[k].output.lock == account
      ensures after[k].data == data
    {
      if k.txHash == TxHash(c, rtx.tx) && k.index < |raw.outputs| {
        assert raw.outputs[k.index] in raw.outputs;
      }
    }
  }

  // ---- Runs -----------------------------------------------------------------

  /** `ledgers[i]` becomes `ledgers[i + 1]` by the session transaction `steps[i]`. */
  ghost predicate SessionRun(c: Crypto, account: Script, ledgers: seq<Ledger>, steps: seq<ResolvedTx>) {
    && |ledgers| == |steps| + 1
    && forall i :: 0 <= i < |steps| ==> StepAt(c, account, ledgers, steps, i)
  }

  ghost predicate StepAt(c: Crypto, account: Script, ledgers: seq<Ledger>, steps: seq<ResolvedTx>, i: nat) {
    i < |steps| && i + 1 < |ledgers| && SessionStep(c, account, ledgers[i], steps[i], ledgers[i + 1])
  }

  ghost predicate CappedAt(c: Crypto, account: Script, rtx: ResolvedTx, cap: nat) {
    SessionAccepts(c, rtx, account) ==> Session(c, rtx, account).0.spendCap <= cap
  }

  /** Over any session-only run whose sessions all have a cap of at most `cap`,
      the account keeps all but `cap` per step. */
  lemma {:induction false} RunLosesAtMostCaps(
    c: Crypto, account: Script, ledgers: seq<Ledger>, steps: seq<ResolvedTx>, cap: nat, at: nat)
    requires SessionRun(c, account, ledgers, steps)
    requires cap < SPEND_CAP_UNLIMITED && at <= |steps|
    requires forall i :: 0 <= i < |steps| ==> CappedAt(c, account, steps[i], cap)
    ensures Holdings(account, ledgers[0]) <= Holdings(account, ledgers[at]) + at * cap
  {
    if at > 0 {
      var i := at - 1;
      RunLosesAtMostCaps(c, account, ledgers, steps, cap, i);
      assert CappedAt(c, account, steps[i], cap) && StepAt(c, account, ledgers, steps, i);
      StepLosesAtMostCap(c, account, ledgers[i], steps[i], ledgers[i + 1]);
      OneMoreTime(cap, i);
    }
  }

  /** In the registered model the cap sits in the account's own args, so no
      witness can choose another. */
  lemma RegisteredRunLosesAtMostCap(c: Crypto, account: Script, ledgers: seq<Ledger>, steps: seq<ResolvedTx>)
    requires SessionRun(c, account, ledgers, steps)
    requires |account.args| == ARGS_LEN
    requires ParseSessionParams(Slice(account.args, 20, 96)).spendCap != SPEND_CAP_UNLIMITED
    ensures Holdings(account, ledgers[0])
      <= Holdings(account, ledgers[|steps|]) + |steps| * ParseSessionParams(Slice(account.args, 20, 96)).spendCap
  {
    var p := ParseSessionParams(Slice(account.args, 20, 96));
    forall i | 0 <= i < |steps|
      ensures CappedAt(c, account, steps[i], p.spendCap)
    {
      assert StepAt(c, account, ledgers, steps, i);
      SessionAcceptsMeans(c, steps[i], account);
    }
    RunLosesAtMostCaps(c, account, ledgers, steps, p.spendCap, |steps|);
  }

  /** Over any session-only run every account cell keeps the data it started with,
      in every ledger along the way. */
  lemma RunKeepsData(
    c: Crypto, account: Script, ledgers: seq<Ledger>, steps: seq<ResolvedTx>, data: Bytes, at: nat)
    requires SessionRun(c, account, ledgers, steps)
    requires forall k :: k in ledgers[0] && ledgers[0][k].output.lock == account ==> ledgers[0][k].data == data
    requires at <= |steps|
    ensures forall k :: k in ledgers[at] && ledgers[at][k].output.lock == account ==> ledgers[at][k].data == data
  {
    hide SessionRun;
    RunCarries(c, account, ledgers, steps, data, at);
  }

  lemma {:induction false} RunCarries(
    c: Crypto, account: Script, ledgers: seq<Ledger>, steps: seq<ResolvedTx>, data: Bytes, at: nat)
    requires SessionRun(c, account, ledgers, steps)
    requires AllCarry(account, ledgers[0], data)
    requires at <= |steps|
    ensures AllCarry(account, ledgers[at], data)
  {
    hide AllCarry, SessionStep;
    if at > 0 {
      RunCarries(c, account, ledgers, steps, data, at - 1);
      var i := at - 1;
      assert StepAt(c, account, ledgers, steps, i);
      StepKeepsData(c, account, ledgers[i], steps[i], ledgers[i + 1], data);
    }
  }

  /** Hence a session cannot revive a revoked authorization nor revoke a live one:
      at any point of a session-only run, a carried authorization checks against
      any account cell exactly as it did at the start. */
  lemma RunKeepsAuthorizations(
    c: Crypto, account: Script, ledgers: seq<Ledger>, steps: seq<ResolvedTx>, data: Bytes, at: nat,
    k: OutPoint, ownerAuth: Bytes, params: Bytes, sigRegion: Bytes)
    requires SessionRun(c, account, ledgers, steps)
    requires AllCarry(account, ledgers[0], data)
    requires at <= |steps|
    requires k in ledgers[at] && ledgers[at][k].output.lock == account
    ensures RevocationEpoch(ledgers[at][k].data) == RevocationEpoch(data)
    ensures ResolveSession(c, account, ledgers[at][k].data, params + ownerAuth + sigRegion)
      == ResolveSession(c, account, data, params + ownerAuth + sigRegion)
  {
    RunKeepsData(c, account, ledgers, steps, data, at);
  }

  /** The saturating total the lock computes is the true total for any number of
      outputs a machine can count. */
  lemma {:induction false} TotalsDoNotSaturate(account: Script, outputs: seq<Cell>)
    requires |outputs| <= MAX_U64
    ensures SumOf(CapacityUnder(account), outputs) <= |outputs| * MAX_U64
    ensures Clamp128(SumOf(CapacityUnder(account), outputs)) == SumOf(CapacityUnder(account), outputs)
  {
    TotalBound(account, outputs);
    assert |outputs| * MAX_U64 <= MAX_U64 * MAX_U64 <= MAX_U128;
  }

  lemma {:induction false} TotalBound(account: Script, outputs: seq<Cell>)
    ensures SumOf(CapacityUnder(account), outputs) <= |outputs| * MAX_U64
  {
    if outputs != [] {
      TotalBound(account, outputs[1..]);
    }
  }
}
