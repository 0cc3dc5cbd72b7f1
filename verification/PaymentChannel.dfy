/**
 Channel sessions: open, any number of payments, close. The rail's balances always
 account for the whole budget, and the funding transaction the session builds is
 one the lock lets through.
 */
module PaymentChannel {
  import opened Prelude
  import opened Chain
  import opened MerkleSoundness
  import opened SessionLock
  import opened PolicyCoverage
  import opened SessionWitness

  // ---- The in-memory rail ---------------------------------------------------

  datatype RailError = InsufficientBalance | UnknownChannel

  datatype Settlement = Settlement(local: u128, remote: u128)

  datatype RailChannel = RailChannel(local: u128, remote: u128)

  function RailPay(channels: seq<RailChannel>, id: nat, amount: u128): Result<seq<RailChannel>, RailError>
    requires forall ch :: ch in channels ==> ch.local + ch.remote <= MAX_U128
  {
    if id >= |channels| then Err(UnknownChannel)
    else
      var ch := channels[id];
      assert ch in channels;
      if ch.local < amount then Err(InsufficientBalance)
      else Ok(channels[id := RailChannel(ch.local - amount, ch.remote + amount)])
  }

  class MockRail {
    var channels: seq<RailChannel>

    /** No channel holds more than a u128, so moving value never overflows. */
    ghost predicate Valid()
      reads this
    {
      forall ch :: ch in channels ==> ch.local + ch.remote <= MAX_U128
    }

    constructor ()
      ensures Valid() && channels == []
    {
      channels := [];
    }

    method Open(budget: u128) returns (id: nat)
      requires Valid()
      modifies this
      ensures Valid()
      ensures id == |old(channels)| && channels == old(channels) + [RailChannel(budget, 0)]
    {
      id := |channels|;
      channels := channels + [RailChannel(budget, 0)];
    }

    method Pay(id: nat, amount: u128) returns (r: Result<(), RailError>)
      requires Valid()
      modifies this
      ensures Valid()
      ensures match RailPay(old(channels), id, amount)
        case Ok(after) => r.Ok? && channels == after
        case Err(e) => r == Err(e) && channels == old(channels)
    {
      if id >= |channels| {
        return Err(UnknownChannel);
      }
      var ch := channels[id];
      assert ch in channels;
      if ch.local < amount {
        return Err(InsufficientBalance);
      }
      channels := channels[id := RailChannel(ch.local - amount, ch.remote + amount)];
      r := Ok(());
    }

    method Close(id: nat) returns (r: Result<Settlement, RailError>)
      ensures r ==
        if id < |channels| then Ok(Settlement(channels[id].local, channels[id].remote))
        else Err(UnknownChannel)
    {
      if id >= |channels| {
        return Err(UnknownChannel);
      }
      r := Ok(Settlement(channels[id].local, channels[id].remote));
    }
  }

  // ---- Transactions on chain ------------------------------------------------

  datatype ChannelConfig = ChannelConfig(
    accountLock: Script, accountInput: OutPoint, accountCapacity: u64, fundingLock: Script,
    cellDeps: seq<CellDep>, headerDep: Bytes32)

  datatype ChannelTx = ChannelTx(tx: Tx, index: nat)

  function ChannelOutPoint(c: Crypto, t: ChannelTx): OutPoint {
    OutPoint(TxHash(c, t.tx), t.index)
  }

  function PlainCell(lock: Script, capacity: u64): Cell {
    Cell(CellOutput(capacity, lock, None), [])
  }

  function FundingTx(cfg: ChannelConfig, budget: u64): ChannelTx {
    var change := SaturatingSub(cfg.accountCapacity, budget);
    ChannelTx(
      Tx(RawTx(cfg.cellDeps, [cfg.headerDep], [cfg.accountInput],
               [PlainCell(cfg.accountLock, change), PlainCell(cfg.fundingLock, budget)]), []),
      1)
  }

  function SettleTx(cfg: ChannelConfig, funding: OutPoint, settlement: Settlement): ChannelTx {
    var local: u64 := if settlement.local <= MAX_U64 then settlement.local else MAX_U64;
    ChannelTx(Tx(RawTx(cfg.cellDeps, [cfg.headerDep], [funding], [PlainCell(cfg.accountLock, local)]), []), 0)
  }

  /** Params of a session that may only fund this channel, up to the budget. */
  function ChannelParams(
    c: Crypto, sessionHash: Bytes20, expiresAt: u64, fundingLock: Script, budget: u64, guardianHash: Bytes20)
    : SessionParams
  {
    SessionParams(sessionHash, expiresAt, PolicyLeaf(c, c.scriptHash(fundingLock)), budget, guardianHash)
  }

  /** One lock-kind frame with an empty proof. */
  function ChannelProofRegion(): Bytes {
    ProofRegion([Frame(POLICY_KIND_LOCK, [])])
  }

  // ---- Sessions as values ---------------------------------------------------

  datatype ChannelError = NotOpen | AlreadyOpen | OverBudget(remaining: u128, requested: u128) | Rail(error: RailError)

  /** A session together with the rail it drives. */
  datatype SessionState = SessionState(
    channel: Option<nat>, funding: Option<OutPoint>, budget: u128, spent: u128, channels: seq<RailChannel>)

  /** The rail holds exactly the session's unspent budget, and the counterparty
      exactly what was spent. */
  ghost predicate Balanced(s: SessionState) {
    && (forall ch :: ch in s.channels ==> ch.local + ch.remote <= MAX_U128)
    && s.spent <= s.budget
    && (s.channel.Some? ==>
          && s.funding.Some?
          && s.channel.value < |s.channels|
          && s.channels[s.channel.value] == RailChannel(s.budget - s.spent, s.spent))
  }

  function Open(c: Crypto, cfg: ChannelConfig, s: SessionState, budget: u64): Result<SessionState, ChannelError> {
    if s.channel.Some? then Err(AlreadyOpen)
    else Ok(SessionState(Some(|s.channels|), Some(ChannelOutPoint(c, FundingTx(cfg, budget))), budget, 0,
      s.channels + [RailChannel(budget, 0)]))
  }

  function Pay(s: SessionState, amount: u128): Result<SessionState, ChannelError>
    requires Balanced(s)
  {
    if s.channel.None? then Err(NotOpen)
    else if amount > s.budget - s.spent then Err(OverBudget(s.budget - s.spent, amount))
    else
      match RailPay(s.channels, s.channel.value, amount)
      case Err(e) => Err(Rail(e))
      case Ok(after) => Ok(s.(channels := after, spent := s.spent + amount))
  }

  /** Balance is kept, and a payment goes through exactly when it fits what is
      left; the rail never has cause to refuse. */
  lemma PayExact(s: SessionState, amount: u128)
    requires Balanced(s)
    ensures Pay(s, amount).Ok? <==> s.channel.Some? && amount <= s.budget - s.spent
    ensures Pay(s, amount).Ok? ==>
      var after := Pay(s, amount).value;
      && Balanced(after)
      && after.spent == s.spent + amount && after.budget == s.budget
      && after.channel == s.channel && after.funding == s.funding
      && |after.channels| == |s.channels|
      && forall j :: 0 <= j < |s.channels| && j != s.channel.value ==> after.channels[j] == s.channels[j]
  {
  }

  /** The state after a run of payments, failed ones skipped. */
  ghost function PayAll(s: SessionState, amounts: seq<u128>): SessionState
    requires Balanced(s)
    decreases |amounts|
  {
    if amounts == [] then s
    else
      var next := Pay(s, amounts[0]);
      PayExact(s, amounts[0]);
      PayAll(if next.Ok? then next.value else s, amounts[1..])
  }

  lemma {:induction false} PayAllBalanced(s: SessionState, amounts: seq<u128>)
    requires Balanced(s)
    ensures var after := PayAll(s, amounts);
      && Balanced(after)
      && after.budget == s.budget && after.channel == s.channel && after.funding == s.funding
      && s.spent <= after.spent
    decreases |amounts|
  {
    if amounts != [] {
      PayExact(s, amounts[0]);
      var next := Pay(s, amounts[0]);
      PayAllBalanced(if next.Ok? then next.value else s, amounts[1..]);
    }
  }

  /** Payments whose total fits the budget all go through. */
  lemma {:induction false} AffordablePaymentsSucceed(s: SessionState, amounts: seq<u128>)
    requires Balanced(s) && s.channel.Some?
    requires s.spent + SumOf(Amount(), amounts) <= s.budget
    ensures PayAll(s, amounts).spent == s.spent + SumOf(Amount(), amounts)
    decreases |amounts|
  {
    if amounts != [] {
      PayExact(s, amounts[0]);
      AffordablePaymentsSucceed(Pay(s, amounts[0]).value, amounts[1..]);
    }
  }

  function Amount(): u128 -> nat {
    (a: u128) => a
  }

  function Settle(s: SessionState): Settlement
    requires Balanced(s) && s.channel.Some?
  {
    Settlement(s.channels[s.channel.value].local, s.channels[s.channel.value].remote)
  }

  /** What the funding transaction gives back to the account. */
  function ChangeOf(cfg: ChannelConfig, budget: u64): nat {
    FundingTx(cfg, budget).tx.raw.outputs[0].output.capacity
  }

  /** Conservation over a whole session: whatever is paid, closing returns the
      unspent budget and leaves the counterparty what was spent; with the change
      of the funding transaction this is the account's capacity exactly when the
      budget was within it. */
  lemma SessionConserves(c: Crypto, cfg: ChannelConfig, s: SessionState, budget: u64, amounts: seq<u128>)
    requires Balanced(s) && s.channel.None?
    ensures Open(c, cfg, s, budget).Ok? && Balanced(Open(c, cfg, s, budget).value)
    ensures
      var end := PayAll(Open(c, cfg, s, budget).value, amounts);
      && Balanced(end) && end.channel.Some?
      && Settle(end).local + end.spent == budget && Settle(end).remote == end.spent
      && SettleTx(cfg, end.funding.value, Settle(end)).tx.raw.outputs[0].output.capacity == Settle(end).local
      && (budget <= cfg.accountCapacity <==>
            ChangeOf(cfg, budget) + Settle(end).local + Settle(end).remote == cfg.accountCapacity)
  {
    var start := Open(c, cfg, s, budget).value;
    assert start.channels[|s.channels|] == RailChannel(budget, 0);
    PayAllBalanced(start, amounts);
  }

  /** The session's settle transaction spends the funding cell it opened, which held
      the budget, and pays the account what closing returns and nobody else. */
  lemma SettleSpendsFunding(c: Crypto, cfg: ChannelConfig, s: SessionState, budget: u64, amounts: seq<u128>)
    requires Balanced(s) && s.channel.None? && Balanced(Open(c, cfg, s, budget).value)
    ensures var end := PayAll(Open(c, cfg, s, budget).value, amounts);
      && Balanced(end) && end.channel.Some? && end.funding.Some?
      && SettleTx(cfg, end.funding.value, Settle(end)).index == 0 && FundingTx(cfg, budget).index == 1
      && var settle := SettleTx(cfg, end.funding.value, Settle(end)).tx.raw;
         && settle.cellDeps == cfg.cellDeps && settle.headerDeps == [cfg.headerDep]
         && settle.inputs == [OutPoint(TxHash(c, FundingTx(cfg, budget).tx), 1)]
         && FundingTx(cfg, budget).tx.raw.outputs[1] == PlainCell(cfg.fundingLock, budget)
         && |settle.outputs| == 1 && settle.outputs[0].output.lock == cfg.accountLock
         && settle.outputs[0].output.capacity == Settle(end).local == budget - end.spent
  {
    SessionConserves(c, cfg, s, budget, amounts);
    PayAllBalanced(Open(c, cfg, s, budget).value, amounts);
  }

  // ---- The session object ---------------------------------------------------

  class ChannelSession {
    const cfg: ChannelConfig
    const rail: MockRail
    var channel: Option<nat>
    var funding: Option<OutPoint>
    var budget: u128
    var spent: u128

    function State(): SessionState
      reads this, rail
    {
      SessionState(channel, funding, budget, spent, rail.channels)
    }

    ghost predicate Valid()
      reads this, rail
    {
      rail.Valid() && Balanced(State())
    }

    constructor (cfg: ChannelConfig, rail: MockRail)
      requires rail.Valid()
      ensures this.cfg == cfg && this.rail == rail
      ensures Valid() && State() == SessionState(None, None, 0, 0, rail.channels)
    {
      this.cfg, this.rail := cfg, rail;
      channel, funding, budget, spent := None, None, 0, 0;
    }

    method OpenChannel(c: Crypto, amount: u64) returns (r: Result<ChannelTx, ChannelError>)
      requires Valid()
      modifies this, rail
      ensures Valid()
      ensures match Open(c, cfg, old(State()), amount)
        case Ok(after) => r == Ok(FundingTx(cfg, amount)) && State() == after
        case Err(e) => r == Err(e) && State() == old(State())
    {
      if channel.Some? {
        return Err(AlreadyOpen);
      }
      var fundingTx := FundingTx(cfg, amount);
      var outPoint := ChannelOutPoint(c, fundingTx);
      var id := rail.Open(amount);
      channel := Some(id);
      funding := Some(outPoint);
      budget := amount;
      spent := 0;
      r := Ok(fundingTx);
    }

    method PayPeer(amount: u128) returns (r: Result<(), ChannelError>)
      requires Valid()
      modifies this, rail
      ensures Valid()
      ensures match Pay(old(State()), amount)
        case Ok(after) => r.Ok? && State() == after
        case Err(e) => r == Err(e) && State() == old(State())
    {
      if channel.None? {
        return Err(NotOpen);
      }
      var remaining := budget - spent;
      if amount > remaining {
        return Err(OverBudget(remaining, amount));
      }
      var paid := rail.Pay(channel.value, amount);
      match paid {
        case Err(e) => r := Err(Rail(e));
        case Ok(_) =>
          spent := spent + amount;
          r := Ok(());
      }
    }

    method CloseChannel() returns (r: Result<(Settlement, ChannelTx), ChannelError>)
      requires Valid()
      modifies this
      ensures Valid()
      ensures State() == if old(channel).None? then old(State()) else old(State()).(channel := None, funding := None)
      ensures if old(channel).None? then r == Err(NotOpen)
        else r == Ok((Settle(old(State())), SettleTx(cfg, old(funding).value, Settle(old(State())))))
    {
      if channel.None? {
        return Err(NotOpen);
      }
      var id, cell := channel.value, funding.value;
      channel, funding := None, None;
      var closed := rail.Close(id);
      match closed {
        case Err(e) => r := Err(Rail(e));
        case Ok(settlement) => r := Ok((settlement, SettleTx(cfg, cell, settlement)));
      }
    }
  }

  // ---- The lock accepts the funding transaction -----------------------------

  lemma ChannelFrame(c: Crypto, fundingLock: Script)
    ensures PolicyRoot(c, [c.scriptHash(fundingLock)]) == PolicyLeaf(c, c.scriptHash(fundingLock))
    ensures ProofRegion(Entries(c, [c.scriptHash(fundingLock)], [Pick(POLICY_KIND_LOCK, 0)])) == ChannelProofRegion()
  {
    var allowed := [c.scriptHash(fundingLock)];
    assert PolicyLeaves(c, allowed) == [PolicyLeaf(c, allowed[0])];
    assert Entries(c, allowed, [Pick(POLICY_KIND_LOCK, 0)]) == [Frame(POLICY_KIND_LOCK, [])];
  }

  lemma FundingOutputs(cfg: ChannelConfig, budget: u64)
    requires !SameCode(cfg.accountLock, cfg.fundingLock)
    ensures var outputs := FundingTx(cfg, budget).tx.raw.outputs;
      && Foreign(cfg.accountLock, outputs) == [outputs[1].output]
      && AllContinue(cfg.accountLock, [], outputs)
      && SumOf(CapacityUnder(cfg.accountLock), outputs) == SaturatingSub(cfg.accountCapacity, budget)
  {
    var outputs := FundingTx(cfg, budget).tx.raw.outputs;
    assert outputs[1..] == [outputs[1]] && [outputs[1]][1..] == [];
    assert Foreign(cfg.accountLock, []) == [];
    assert Foreign(cfg.accountLock, [outputs[1]]) == [outputs[1].output];
    assert SumOf(CapacityUnder(cfg.accountLock), [outputs[1]]) == 0;
  }

  /** For a registered channel session on an account with empty data and a funding
      lock of other code, the funding transaction under an SDK witness with live
      signatures passes every check of the lock, for any budget, when the configured
      header is from before the expiry; and it carries the configured deps. */
  lemma FundingTxAccepted(
    c: Crypto, cfg: ChannelConfig, owner: Bytes20, sessionHash: Bytes20, expiresAt: u64, budget: u64,
    guardianHash: Bytes20, spent: Cell, headers: Headers, sessionSig: Bytes, guardianSig: Option<Bytes>)
    requires cfg.headerDep in headers && (expiresAt == NO_EXPIRY || headers[cfg.headerDep] < 1000 * expiresAt)
    requires var p := ChannelParams(c, sessionHash, expiresAt, cfg.fundingLock, budget, guardianHash);
      && cfg.accountLock.args == RegisteredArgs(owner, SessionParamsBlock(p))
      && WellSized(p, sessionSig, guardianSig)
    requires spent.output.lock == cfg.accountLock && spent.output.capacity == cfg.accountCapacity && spent.data == []
    requires !SameCode(cfg.accountLock, cfg.fundingLock)
    requires sessionHash != NO_KEY
    requires var message := TxMessage(c, FundingTx(cfg, budget).tx);
      && c.sigOk(sessionSig, message, sessionHash)
      && (guardianSig.Some? ==> c.sigOk(guardianSig.value, message, guardianHash))
    ensures
      var w := RegisteredWitness(sessionSig, guardianSig, ChannelProofRegion());
      var tx := FundingTx(cfg, budget).tx.(witnesses := [w]);
      && tx.raw.cellDeps == cfg.cellDeps && Named(headers, tx.raw.headerDeps)
      && SessionAccepts(c, ResolvedTx(tx, [spent], Times(headers, tx.raw.headerDeps)), cfg.accountLock)
  {
    var p := ChannelParams(c, sessionHash, expiresAt, cfg.fundingLock, budget, guardianHash);
    var w := RegisteredWitness(sessionSig, guardianSig, ChannelProofRegion());
    var tx := FundingTx(cfg, budget).tx.(witnesses := [w]);
    assert tx.raw.headerDeps == [cfg.headerDep] && Times(headers, [cfg.headerDep]) == [headers[cfg.headerDep]];
    var rtx := ResolvedTx(tx, [spent], Times(headers, tx.raw.headerDeps));
    var allowed, picks := [c.scriptHash(cfg.fundingLock)], [Pick(POLICY_KIND_LOCK, 0)];
    ChannelFrame(c, cfg.fundingLock);
    FundingOutputs(cfg, budget);
    SingleLockGroup(c, rtx, cfg.accountLock);
    SdkSessionAccepted(c, rtx, cfg.accountLock, 0, owner, p, allowed, picks, sessionSig, guardianSig);
  }

  lemma SingleLockGroup(c: Crypto, rtx: ResolvedTx, script: Script)
    requires |rtx.spent| == 1 && rtx.spent[0].output.lock == script
    ensures LockGroup(c, rtx, script) == [0]
  {
    var p := HasLockHash(c, c.scriptHash(script));
    assert p(rtx.spent[0]);
    assert Matching(p, rtx.spent[..0]) == [];
  }

  // ---- Refusals -------------------------------------------------------------

  /** How a session refuses to open or pay, and the rail to move value. */
  lemma ChannelRefusals(c: Crypto, cfg: ChannelConfig, s: SessionState, budget: u64, amount: u128, id: nat)
    requires Balanced(s)
    ensures Open(c, cfg, s, budget) == Err(AlreadyOpen) <==> s.channel.Some?
    ensures Open(c, cfg, s, budget).Err? ==> s.channel.Some?
    ensures Pay(s, amount) == Err(NotOpen) <==> s.channel.None?
    ensures s.channel.Some? && s.budget < s.spent + amount ==>
      Pay(s, amount) == Err(OverBudget(s.budget - s.spent, amount))
    ensures RailPay(s.channels, id, amount) == Err(UnknownChannel) <==> id >= |s.channels|
    ensures RailPay(s.channels, id, amount) == Err(InsufficientBalance) <==>
      id < |s.channels| && s.channels[id].local < amount
  {
  }
}
