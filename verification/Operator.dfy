/**
 The game operator: a tip and a mempool advanced by submit, flush and drop. Its
 transitions are exactly what the type script accepts, and whatever happens its
 tip is the live cell.
 */
module Operator {
  import opened Prelude
  import opened Chain
  import opened GameRules
  import opened GameCodec
  import opened GameCell
  import opened CellLedger
  import opened GameHistory
  import opened Sighash

  datatype OperatorError = Game(game: GameError) | Rpc(reason: string) | Finalize(reason: string) | Empty

  datatype GameTip = GameTip(outPoint: OutPoint, output: CellOutput, state: Board)

  datatype Config = Config(gameId: Bytes32, cellDeps: seq<CellDep>, fee: u64)

  datatype Queue = Queue(tip: GameTip, mempool: seq<Intent>)

  datatype Built = Built(tx: Tx, applied: nat, nextState: Board, nextOutput: CellOutput)

  /** Fee and lock signature added by the operator's key; a node's answer. */
  type Finalizer = Tx -> Result<Tx, string>
  type Node = Tx -> Result<Bytes32, string>

  function FromGame<T>(r: Result<T, GameError>): Result<T, OperatorError> {
    match r
    case Ok(v) => Ok(v)
    case Err(e) => Err(Game(e))
  }

  // ---- What each operation does ---------------------------------------------

  /** Admission: the queue applies as a batch, then the newcomer applies to it. */
  function Admission(q: Queue, m: Intent): Result<(), OperatorError> {
    var projected :- FromGame(Transition(q.tip.state, q.mempool));
    var _ :- FromGame(Move(projected.players, m));
    Ok(())
  }

  function AfterSubmit(q: Queue, m: Intent): Queue {
    if Admission(q, m).Ok? then q.(mempool := q.mempool + [m]) else q
  }

  function BatchWitness(ms: seq<Intent>): Witness {
    Structured(WitnessArgs(None, Some(EncodeBatch(ms)), None))
  }

  function BuildTransition(cfg: Config, q: Queue): Result<Built, OperatorError> {
    if q.mempool == [] then Err(Empty)
    else
      var next :- FromGame(Transition(q.tip.state, q.mempool));
      if q.tip.output.capacity < cfg.fee then Err(Finalize("game cell capacity cannot fund the fee"))
      else
        var output := q.tip.output.(capacity := q.tip.output.capacity - cfg.fee);
        var raw := RawTx(cfg.cellDeps, [], [q.tip.outPoint], [Cell(output, EncodeState(next))]);
        Ok(Built(Tx(raw, [BatchWitness(q.mempool)]), |q.mempool|, next, output))
  }

  /** The transaction a flush got the node to accept, with its hash. */
  function Broadcast(cfg: Config, q: Queue, finalize: Finalizer, node: Node): Result<(Tx, Bytes32), OperatorError> {
    var built :- BuildTransition(cfg, q);
    match finalize(built.tx)
    case Err(e) => Err(Finalize(e))
    case Ok(signed) =>
      match node(signed)
      case Err(e) => Err(Rpc(e))
      case Ok(hash) => Ok((signed, hash))
  }

  function AfterFlush(cfg: Config, q: Queue, finalize: Finalizer, node: Node): Queue {
    match Broadcast(cfg, q, finalize, node)
    case Err(_) => q
    case Ok((_, hash)) =>
      var built := BuildTransition(cfg, q).value;
      Queue(GameTip(OutPoint(hash, 0), built.nextOutput, built.nextState), [])
  }

  /** Flush, and on a node rejection shed the queue. */
  function AfterFlushOrShed(cfg: Config, q: Queue, finalize: Finalizer, node: Node): Queue {
    match Broadcast(cfg, q, finalize, node)
    case Err(Rpc(_)) => q.(mempool := [])
    case _ => AfterFlush(cfg, q, finalize, node)
  }

  /** The three ways a flush of a queue that builds can end, plain and shedding: a
      failed finalize keeps the queue for a retry, a node's rejection sheds it only in
      the shedding flush, and success moves the tip to output 0. */
  lemma FlushOutcomes(cfg: Config, q: Queue, finalize: Finalizer, node: Node)
    requires BuildTransition(cfg, q).Ok?
    ensures var built := BuildTransition(cfg, q).value;
      match finalize(built.tx)
      case Err(_) => AfterFlush(cfg, q, finalize, node) == q && AfterFlushOrShed(cfg, q, finalize, node) == q
      case Ok(signed) =>
        match node(signed)
        case Err(_) =>
          && AfterFlush(cfg, q, finalize, node) == q
          && AfterFlushOrShed(cfg, q, finalize, node) == Queue(q.tip, [])
        case Ok(hash) =>
          && AfterFlush(cfg, q, finalize, node)
               == Queue(GameTip(OutPoint(hash, 0), built.nextOutput, built.nextState), [])
          && AfterFlushOrShed(cfg, q, finalize, node) == AfterFlush(cfg, q, finalize, node)
  {
  }

  // ---- The operator ---------------------------------------------------------

  class GameOperator {
    const cfg: Config
    var tip: GameTip
    var mempool: seq<Intent>

    constructor (cfg: Config, tip: GameTip)
      ensures this.cfg == cfg && State() == Queue(tip, [])
    {
      this.cfg, this.tip, mempool := cfg, tip, [];
    }

    function State(): Queue
      reads this
    {
      Queue(tip, mempool)
    }

    method Submit(m: Intent) returns (r: Result<(), OperatorError>)
      modifies this`mempool
      ensures r == Admission(old(State()), m)
      ensures State() == AfterSubmit(old(State()), m)
    {
      var projected := new GameState(tip.state);
      var replayed := projected.ApplyBatch(mempool);
      if replayed.Err? {
        return Err(Game(replayed.error));
      }
      var applied := projected.ApplyIntent(m);
      if applied.Err? {
        return Err(Game(applied.error));
      }
      mempool := mempool + [m];
      r := Ok(());
    }

    /** Builds without touching the tip or the mempool. */
    method Build() returns (r: Result<Built, OperatorError>)
      ensures r == BuildTransition(cfg, State())
    {
      if mempool == [] {
        return Err(Empty);
      }
      var next := new GameState(tip.state);
      var applied := next.ApplyBatch(mempool);
      if applied.Err? {
        return Err(Game(applied.error));
      }
      if tip.output.capacity < cfg.fee {
        return Err(Finalize("game cell capacity cannot fund the fee"));
      }
      assert Transition(tip.state, mempool) == Ok(next.Value());
      var output := tip.output.(capacity := tip.output.capacity - cfg.fee);
      var data := WriteState(next.Value());
      var batch := WriteBatch(mempool);
      var raw := RawTx(cfg.cellDeps, [], [tip.outPoint], [Cell(output, data)]);
      var tx := Tx(raw, [Structured(WitnessArgs(None, Some(batch), None))]);
      r := Ok(Built(tx, |mempool|, next.Value(), output));
    }

    method Flush(finalize: Finalizer, node: Node) returns (r: Result<Bytes32, OperatorError>)
      modifies this
      ensures State() == AfterFlush(cfg, old(State()), finalize, node)
      ensures match Broadcast(cfg, old(State()), finalize, node)
        case Ok((_, hash)) => r == Ok(hash)
        case Err(e) => r == Err(e)
    {
      var built := Build();
      if built.Err? {
        return Err(built.error);
      }
      var signed := finalize(built.value.tx);
      if signed.Err? {
        return Err(Finalize(signed.error));
      }
      var sent := node(signed.value);
      if sent.Err? {
        return Err(Rpc(sent.error));
      }
      tip := GameTip(OutPoint(sent.value, 0), built.value.nextOutput, built.value.nextState);
      mempool := [];
      r := Ok(sent.value);
    }

    method DropPending()
      modifies this`mempool
      ensures State() == old(State()).(mempool := [])
    {
      mempool := [];
    }

    method FlushOrShed(finalize: Finalizer, node: Node) returns (r: Result<Bytes32, OperatorError>)
      modifies this
      ensures State() == AfterFlushOrShed(cfg, old(State()), finalize, node)
      ensures match Broadcast(cfg, old(State()), finalize, node)
        case Ok((_, hash)) => r == Ok(hash)
        case Err(e) => r == Err(e)
    {
      r := Flush(finalize, node);
      if r.Err? && r.error.Rpc? {
        DropPending();
      }
    }
  }

  // ---- Transitions the chain accepts ----------------------------------------

  lemma EqualsUnorderedReflexive(b: Board)
    ensures EqualsUnordered(b, b)
  {
  }

  /** The type script's view of a built and signed transition over the live cell. */
  lemma BuiltVerdict(c: Crypto, s: Signer, cfg: Config, q: Queue, script: Script, live: Cell, timestamps: seq<u64>)
    requires BuildTransition(cfg, q).Ok?
    requires script.args == cfg.gameId && q.tip.output.typ == Some(script)
    requires live.output == q.tip.output && DecodeState(live.data) == Ok(q.tip.state)
    ensures SignSighashAll(c, s, BuildTransition(cfg, q).value.tx).Ok?
    ensures var built := BuildTransition(cfg, q).value;
      var signed := SignSighashAll(c, s, built.tx).value;
      CellVerdict(c, ResolvedTx(signed, [live], timestamps), script)
        == TransitionVerdict(
             c, ResolvedTx(signed, [live], timestamps), cfg.gameId, 0, live.data, EncodeState(built.nextState))
    ensures var built := BuildTransition(cfg, q).value;
      var signed := SignSighashAll(c, s, built.tx).value;
      WitnessBatch(ResolvedTx(signed, [live], timestamps), 0) == FromRule(DecodeBatch(EncodeBatch(q.mempool)))
  {
    var built := BuildTransition(cfg, q).value;
    var signed := SignSighashAll(c, s, built.tx).value;
    SigningFillsOnlyTheLock(c, s, built.tx);
    SingleTypeGroups(c, ResolvedTx(signed, [live], timestamps), script);
  }

  /** A built and signed transition passes the type script exactly when the batch
      count fits its two bytes, the player count its four, and every intent is
      signed; the rule, the codecs and the comparison never stand in the way. */
  lemma TransitionAcceptedExact(
    c: Crypto, s: Signer, cfg: Config, q: Queue, script: Script, live: Cell, timestamps: seq<u64>)
    requires BuildTransition(cfg, q).Ok?
    requires script.args == cfg.gameId && q.tip.output.typ == Some(script)
    requires live.output == q.tip.output && DecodeState(live.data) == Ok(q.tip.state)
    ensures SignSighashAll(c, s, BuildTransition(cfg, q).value.tx).Ok?
    ensures var built := BuildTransition(cfg, q).value;
      CellVerdict(c, ResolvedTx(SignSighashAll(c, s, built.tx).value, [live], timestamps), script).Ok? <==>
        (&& |q.mempool| <= MAX_U16 && |built.nextState.players| <= MAX_U32
         && (forall m :: m in q.mempool ==>
               c.sigOk(m.sig, c.blake2b(INTENT_DOMAIN + cfg.gameId + m.hash + LE64(m.points) + LE64(m.nonce)), m.hash)))
    ensures var raw := BuildTransition(cfg, q).value.tx.raw; raw.cellDeps == cfg.cellDeps && raw.headerDeps == []
  {
    hide CellVerdict, SignSighashAll, EncodeState, DecodeState, EncodeBatch, DecodeBatch;
    var next := BuildTransition(cfg, q).value.nextState;
    BuiltVerdict(c, s, cfg, q, script, live, timestamps);
    StateRoundTripExact(next);
    BatchRoundTripExact(q.mempool);
    assert Transition(q.tip.state, q.mempool) == Ok(next);
    EqualsUnorderedReflexive(next);
  }

  // ---- Admission and jams ---------------------------------------------------

  /** An intent is admitted exactly when every move of the queue and then it apply,
      and the sequence number has room for the queue without it. */
  lemma AdmissionExact(q: Queue, m: Intent)
    ensures Admission(q, m).Ok? <==>
      (Replay(q.tip.state.players, q.mempool + [m]).error.None? && q.tip.state.sequence + |q.mempool| <= MAX_U64)
  {
    ReplayConcat(q.tip.state.players, q.mempool, [m]);
    if Replay(q.tip.state.players, q.mempool).error.None? {
      ReplaySnoc(q.tip.state.players, q.mempool, m);
    }
  }

  /** An admitted intent can later be flushed exactly when the sequence number also
      has room for it; admission does not ask. */
  lemma AdmittedFlushableExact(q: Queue, m: Intent)
    requires Admission(q, m).Ok?
    ensures Transition(q.tip.state, AfterSubmit(q, m).mempool).Ok? <==>
      q.tip.state.sequence + |q.mempool| + 1 <= MAX_U64
  {
    AdmissionExact(q, m);
  }

  /** Such an input on a board that satisfies every invariant of a reachable one:
      one player has made every move there is, and another player's first move is
      admitted though no flush can ever apply it. */
  lemma AdmissionCanJam(tip: GameTip, m: Intent, h: Bytes20)
    requires tip.state == Board(MAX_U64, [PlayerEntry(h, 0, MAX_U64)])
    requires m.hash != h && m.nonce == 1 && m.points <= MAX_POINTS_PER_MOVE
    ensures Sound(tip.state)
    ensures Admission(Queue(tip, []), m).Ok?
    ensures Transition(tip.state, AfterSubmit(Queue(tip, []), m).mempool) == Err(Overflow)
  {
    var players := tip.state.players;
    assert players[1..] == [];
    assert SumOf(Nonces(), []) == 0;
    assert Find(players, m.hash) == 1;
    ReplaySnoc(players, [], m);
    assert [] + [m] == [m];
  }

  /** A queue no flush can apply. */
  ghost predicate Jammed(q: Queue) {
    q.mempool != [] && Transition(q.tip.state, q.mempool).Err?
  }

  lemma JamStep(cfg: Config, q: Queue)
    requires Jammed(q)
    ensures forall m: Intent :: Admission(q, m).Err? && AfterSubmit(q, m) == q
    ensures BuildTransition(cfg, q).Err? && !BuildTransition(cfg, q).error.Rpc?
    ensures forall finalize: Finalizer, node: Node :: Broadcast(cfg, q, finalize, node).Err?
    ensures forall finalize: Finalizer, node: Node ::
      AfterFlush(cfg, q, finalize, node) == q && AfterFlushOrShed(cfg, q, finalize, node) == q
  {
  }

  // ---- Operator and chain together ------------------------------------------

  /** The operator, the live cells, how many flushes were committed, and the hash of
      every transaction that ever was. */
  datatype World = World(queue: Queue, ledger: Ledger, flushes: nat, committed: set<Bytes32>)

  /** `shed` tells the service's flush, which sheds the queue on a rejection, from
      the plain one; `Elsewhere` is anyone else's transaction. */
  datatype Event =
    | Submitted(m: Intent)
    | Flushed(finalize: Finalizer, node: Node, shed: bool)
    | Dropped
    | Elsewhere(rtx: ResolvedTx)

  /** The finalizer adds fee inputs and signatures but leaves input 0 and output 0
      where they are. */
  ghost predicate KeepsGameCell(finalize: Finalizer) {
    forall tx :: finalize(tx).Ok? && tx.raw.inputs != [] && tx.raw.outputs != [] ==>
      KeepsFirst(tx.raw, finalize(tx).value.raw)
  }

  ghost predicate KeepsFirst(before: RawTx, after: RawTx) {
    && before.inputs != [] && after.inputs != [] && after.inputs[0] == before.inputs[0]
    && before.outputs != [] && after.outputs != [] && after.outputs[0] == before.outputs[0]
  }

  /** The chain can commit the transaction: it is new, it spends live cells and the
      type script lets it through. */
  ghost predicate Valid(c: Crypto, script: Script, w: World, tx: Tx) {
    && TxHash(c, tx) !in w.committed
    && exists rtx: ResolvedTx :: rtx.tx == tx && Committable(c, w.ledger, rtx) && CellVerdict(c, rtx, script).Ok?
  }

  /** The node accepts only transactions the chain can commit, and answers with
      their hash. */
  ghost predicate Honest(c: Crypto, script: Script, w: World, node: Node) {
    forall tx :: node(tx).Ok? ==> node(tx).value == TxHash(c, tx) && Valid(c, script, w, tx)
  }

  /** The chain after committing a transaction. */
  function Commits(c: Crypto, w: World, tx: Tx): World {
    w.(ledger := Committed(c, w.ledger, tx), committed := w.committed + {TxHash(c, tx)})
  }

  /** One event. The chain moves by what it commits: the transaction a flush got
      accepted, or someone else's, which may spend the game cell too. */
  ghost predicate Happens(c: Crypto, cfg: Config, script: Script, w: World, e: Event, w': World) {
    match e
    case Submitted(m) => w' == w.(queue := AfterSubmit(w.queue, m))
    case Dropped => w' == w.(queue := w.queue.(mempool := []))
    case Elsewhere(rtx) =>
      && Committable(c, w.ledger, rtx) && TxHash(c, rtx.tx) !in w.committed
      && w' == Commits(c, w, rtx.tx)
    case Flushed(finalize, node, shed) =>
      && KeepsGameCell(finalize) && Honest(c, script, w, node)
      && w' == FlushedWorld(c, cfg, w, finalize, node, shed)
  }

  /** The world after a flush. */
  function FlushedWorld(c: Crypto, cfg: Config, w: World, finalize: Finalizer, node: Node, shed: bool): World {
    var queue := FlushedQueue(cfg, w.queue, finalize, node, shed);
    match Broadcast(cfg, w.queue, finalize, node)
    case Err(_) => w.(queue := queue)
    case Ok((signed, _)) => Commits(c, w, signed).(queue := queue, flushes := w.flushes + 1)
  }

  function FlushedQueue(cfg: Config, q: Queue, finalize: Finalizer, node: Node, shed: bool): Queue {
    if shed then AfterFlushOrShed(cfg, q, finalize, node) else AfterFlush(cfg, q, finalize, node)
  }

  /** The tip is a live cell: it is on the ledger with that output and data that
      decodes to the tip's state. */
  ghost predicate TipLive(l: Ledger, script: Script, tip: GameTip) {
    && tip.outPoint in l
    && l[tip.outPoint].output == tip.output
    && tip.output.typ == Some(script)
    && DecodeState(l[tip.outPoint].data) == Ok(tip.state)
  }

  /** The mempool applies to the tip, the sequence number at most one short. */
  ghost predicate MempoolApplies(q: Queue) {
    && Replay(q.tip.state.players, q.mempool).error.None?
    && q.tip.state.sequence + |q.mempool| <= MAX_U64 + 1
  }

  /** What holds whoever spends the cell: the fees paid are accounted for, the mempool
      applies, and the tip is as remembered if its outpoint is live at all. */
  ghost predicate Consistent(cfg: Config, script: Script, capacity: nat, w: World) {
    && w.queue.tip.output.typ == Some(script)
    && w.queue.tip.output.capacity + cfg.fee * w.flushes == capacity
    && MempoolApplies(w.queue)
    && w.queue.tip.outPoint.txHash in w.committed
    && (w.queue.tip.outPoint in w.ledger ==> TipLive(w.ledger, script, w.queue.tip))
  }

  /** The tip is live. */
  ghost predicate InStep(cfg: Config, script: Script, capacity: nat, w: World) {
    Consistent(cfg, script, capacity, w) && w.queue.tip.outPoint in w.ledger
  }

  /** Someone other than the operator spends the tip. */
  ghost predicate Usurps(w: World, e: Event) {
    e.Elsewhere? && w.queue.tip.outPoint in e.rtx.tx.raw.inputs
  }

  /** What a signed transaction the script accepts has in its first output, when
      that output carries the script. */
  lemma AcceptedOutputDecodes(c: Crypto, script: Script, rtx: ResolvedTx)
    requires CellVerdict(c, rtx, script).Ok?
    requires rtx.tx.raw.outputs != [] && rtx.tx.raw.outputs[0].output.typ == Some(script)
    ensures DecodeState(rtx.tx.raw.outputs[0].data).Ok?
  {
    var outs := TypeGroupOut(c, rtx, script);
    assert HasTypeHash(c, c.scriptHash(script))(rtx.tx.raw.outputs[0]);
    assert 0 in outs;
    assert |outs| == 1 && outs[0] == 0;
  }

  /** An accepted flush: it spends the tip, its output 0 is the cell that was
      built, and its data can be read back. */
  lemma FlushOutput(c: Crypto, cfg: Config, script: Script, w: World, finalize: Finalizer, node: Node)
    requires Broadcast(cfg, w.queue, finalize, node).Ok?
    requires KeepsGameCell(finalize) && Honest(c, script, w, node)
    ensures BuildTransition(cfg, w.queue).Ok?
    ensures var built, signed := BuildTransition(cfg, w.queue).value, Broadcast(cfg, w.queue, finalize, node).value.0;
      && Broadcast(cfg, w.queue, finalize, node).value.1 == TxHash(c, signed)
      && Valid(c, script, w, signed)
      && signed.raw.inputs != [] && signed.raw.inputs[0] == w.queue.tip.outPoint
      && signed.raw.outputs != []
      && signed.raw.outputs[0] == Cell(built.nextOutput, EncodeState(built.nextState))
      && built.nextOutput == w.queue.tip.output.(capacity := built.nextOutput.capacity)
      && built.nextOutput.capacity + cfg.fee == w.queue.tip.output.capacity
  {
    var built, signed := BuildTransition(cfg, w.queue).value, Broadcast(cfg, w.queue, finalize, node).value.0;
    assert finalize(built.tx) == Ok(signed);
    assert KeepsFirst(built.tx.raw, signed.raw);
    assert node(signed).Ok?;
  }

  /** A cell of this type that the chain lets a transaction create can be read
      back, so its encoder did not truncate. */
  lemma CreatedStateReadsBack(c: Crypto, script: Script, w: World, tx: Tx, b: Board)
    requires Valid(c, script, w, tx)
    requires tx.raw.outputs != [] && tx.raw.outputs[0].output.typ == Some(script)
    requires tx.raw.outputs[0].data == EncodeState(b)
    ensures DecodeState(EncodeState(b)) == Ok(b)
  {
    var rtx: ResolvedTx :| rtx.tx == tx && Committable(c, w.ledger, rtx) && CellVerdict(c, rtx, script).Ok?;
    AcceptedOutputDecodes(c, script, rtx);
    StateRoundTripExact(b);
  }

  /** On the ledger, output 0 of a committed transaction replaces its input 0. */
  lemma FirstCellReplaced(c: Crypto, script: Script, w: World, tx: Tx)
    requires Valid(c, script, w, tx)
    requires tx.raw.inputs != [] && tx.raw.outputs != []
    ensures var after := Committed(c, w.ledger, tx);
      && tx.raw.inputs[0] in w.ledger && tx.raw.inputs[0] !in after
      && OutPoint(TxHash(c, tx), 0) !in w.ledger && OutPoint(TxHash(c, tx), 0) in after
      && after[OutPoint(TxHash(c, tx), 0)] == tx.raw.outputs[0]
  {
    var rtx: ResolvedTx :| rtx.tx == tx && Committable(c, w.ledger, rtx) && CellVerdict(c, rtx, script).Ok?;
    CommittedCells(c, w.ledger, rtx, OutPoint(TxHash(c, tx), 0));
    CommittedCells(c, w.ledger, rtx, tx.raw.inputs[0]);
    var first := tx.raw.inputs[0];
    assert first in w.ledger && OutPoint(first.txHash, first.index) == first;
  }

  /** The old tip is gone from the ledger; the new one is live, holds the board the
      queue leads to and the same output less the fee; the queue is empty. */
  ghost predicate Advances(cfg: Config, script: Script, w: World, w': World) {
    && w.queue.tip.outPoint !in w'.ledger
    && TipLive(w'.ledger, script, w'.queue.tip)
    && w'.queue.tip.outPoint.txHash in w'.committed
    && Transition(w.queue.tip.state, w.queue.mempool) == Ok(w'.queue.tip.state)
    && w'.queue.tip.output == w.queue.tip.output.(capacity := w'.queue.tip.output.capacity)
    && w'.queue.tip.output.capacity + cfg.fee == w.queue.tip.output.capacity
    && w'.queue.mempool == []
    && w'.flushes == w.flushes + 1
  }

  lemma AdvanceKeepsInStep(cfg: Config, script: Script, capacity: nat, w: World, w': World)
    requires Consistent(cfg, script, capacity, w) && Advances(cfg, script, w, w')
    ensures InStep(cfg, script, capacity, w')
  {
    OneMoreTime(cfg.fee, w.flushes);
  }

  /** A committed flush replaces the old tip, which is gone from the ledger, by the
      new one, which is live. */
  lemma FlushReplacesTip(
    c: Crypto, cfg: Config, script: Script, w: World, finalize: Finalizer, node: Node, shed: bool)
    requires KeepsGameCell(finalize) && Honest(c, script, w, node)
    requires Broadcast(cfg, w.queue, finalize, node).Ok?
    requires w.queue.tip.output.typ == Some(script)
    ensures w.queue.tip.outPoint in w.ledger
    ensures Advances(cfg, script, w, FlushedWorld(c, cfg, w, finalize, node, shed))
    ensures var w' := FlushedWorld(c, cfg, w, finalize, node, shed);
      var tip := w'.queue.tip;
      && w.queue.tip.outPoint !in w'.ledger && tip.outPoint in w'.ledger
      && w'.ledger[tip.outPoint].output == tip.output
      && DecodeState(w'.ledger[tip.outPoint].data) == Ok(tip.state)
      && Transition(w.queue.tip.state, w.queue.mempool) == Ok(tip.state)
      && tip.output == w.queue.tip.output.(capacity := w.queue.tip.output.capacity - cfg.fee)
      && w'.queue.mempool == []
  {
    hide DecodeState, EncodeState, CellVerdict, Committed;
    FlushOutput(c, cfg, script, w, finalize, node);
    var built, signed := BuildTransition(cfg, w.queue).value, Broadcast(cfg, w.queue, finalize, node).value.0;
    FirstCellReplaced(c, script, w, signed);
    CreatedStateReadsBack(c, script, w, signed, built.nextState);
  }

  /** Once its tip is not live, an operator gets no flush past an honest node. */
  lemma OrphanFlushRefused(c: Crypto, cfg: Config, script: Script, w: World, finalize: Finalizer, node: Node)
    requires w.queue.tip.outPoint !in w.ledger && w.queue.tip.output.typ == Some(script)
    requires KeepsGameCell(finalize) && Honest(c, script, w, node)
    ensures Broadcast(cfg, w.queue, finalize, node).Err?
  {
    if Broadcast(cfg, w.queue, finalize, node).Ok? {
      FlushReplacesTip(c, cfg, script, w, finalize, node, false);
      assert false;
    }
  }

  lemma SubmitKeepsConsistent(cfg: Config, script: Script, capacity: nat, w: World, m: Intent)
    requires Consistent(cfg, script, capacity, w)
    ensures Consistent(cfg, script, capacity, w.(queue := AfterSubmit(w.queue, m)))
  {
    if Admission(w.queue, m).Ok? {
      AdmissionExact(w.queue, m);
    }
  }

  /** A new transaction never brings back an outpoint of an old one. */
  lemma ElsewhereMovesTip(c: Crypto, l: Ledger, k: OutPoint, rtx: ResolvedTx)
    requires Committable(c, l, rtx) && TxHash(c, rtx.tx) != k.txHash
    ensures k in Committed(c, l, rtx.tx) <==> k in l && k !in rtx.tx.raw.inputs
    ensures k in Committed(c, l, rtx.tx) ==> Committed(c, l, rtx.tx)[k] == l[k]
  {
    CommittedCells(c, l, rtx, k);
  }

  lemma FlushKeepsConsistent(
    c: Crypto, cfg: Config, script: Script, capacity: nat, w: World, finalize: Finalizer, node: Node, shed: bool)
    requires Consistent(cfg, script, capacity, w)
    requires KeepsGameCell(finalize) && Honest(c, script, w, node)
    ensures Consistent(cfg, script, capacity, FlushedWorld(c, cfg, w, finalize, node, shed))
    ensures InStep(cfg, script, capacity, FlushedWorld(c, cfg, w, finalize, node, shed))
      <==> InStep(cfg, script, capacity, w)
  {
    if Broadcast(cfg, w.queue, finalize, node).Ok? {
      FlushReplacesTip(c, cfg, script, w, finalize, node, shed);
      AdvanceKeepsInStep(cfg, script, capacity, w, FlushedWorld(c, cfg, w, finalize, node, shed));
    }
  }

  /** Every event keeps the operator consistent, and its tip live exactly when it was
      and nobody else spends it. */
  lemma EventKeepsInStep(c: Crypto, cfg: Config, script: Script, capacity: nat, w: World, e: Event, w': World)
    requires Consistent(cfg, script, capacity, w)
    requires Happens(c, cfg, script, w, e, w')
    ensures Consistent(cfg, script, capacity, w')
    ensures InStep(cfg, script, capacity, w') <==> InStep(cfg, script, capacity, w) && !Usurps(w, e)
  {
    match e {
      case Submitted(m) => SubmitKeepsConsistent(cfg, script, capacity, w, m);
      case Dropped =>
      case Elsewhere(rtx) => ElsewhereMovesTip(c, w.ledger, w.queue.tip.outPoint, rtx);
      case Flushed(finalize, node, shed) => FlushKeepsConsistent(c, cfg, script, capacity, w, finalize, node, shed);
    }
  }

  /** An operator just started on a live game cell is in step. */
  lemma StartsInStep(cfg: Config, script: Script, w: World)
    requires var tip := w.queue.tip;
      && tip.outPoint in w.ledger && w.ledger[tip.outPoint].output == tip.output
      && tip.output.typ == Some(script) && DecodeState(w.ledger[tip.outPoint].data) == Ok(tip.state)
      && tip.outPoint.txHash in w.committed
    requires w.queue.mempool == [] && w.flushes == 0
    ensures InStep(cfg, script, w.queue.tip.output.capacity, w)
  {
  }

  ghost predicate WorldRun(c: Crypto, cfg: Config, script: Script, ws: seq<World>, es: seq<Event>) {
    && |ws| == |es| + 1
    && forall i :: 0 <= i < |es| ==> HappensAt(c, cfg, script, ws, es, i)
  }

  ghost predicate HappensAt(c: Crypto, cfg: Config, script: Script, ws: seq<World>, es: seq<Event>, i: nat) {
    i < |es| && i + 1 < |ws| && Happens(c, cfg, script, ws[i], es[i], ws[i + 1])
  }

  /** Runs start at any world and go on with any event that can happen. */
  lemma WorldRunGrows(c: Crypto, cfg: Config, script: Script, ws: seq<World>, es: seq<Event>, e: Event, w': World)
    ensures |ws| == 1 && es == [] ==> WorldRun(c, cfg, script, ws, es)
    ensures WorldRun(c, cfg, script, ws, es) && Happens(c, cfg, script, ws[|es|], e, w') ==>
      WorldRun(c, cfg, script, ws + [w'], es + [e])
  {
    hide Happens;
    if WorldRun(c, cfg, script, ws, es) && Happens(c, cfg, script, ws[|es|], e, w') {
      forall i | 0 <= i < |es + [e]| ensures HappensAt(c, cfg, script, ws + [w'], es + [e], i) {
        assert i < |es| ==> HappensAt(c, cfg, script, ws, es, i);
      }
    }
  }

  ghost predicate UsurpedAt(ws: seq<World>, es: seq<Event>, i: nat) {
    i < |es| && i < |ws| && Usurps(ws[i], es[i])
  }

  /** Refinement: after any interleaving of submissions, flushes that succeed, fail
      to finalize, are rejected and kept or shed, drops, and other people's
      transactions, the capacity of the operator's tip is the initial one minus a fee
      per flush and its mempool applies; and the tip is a live cell of the ledger with
      the operator's board if and only if nobody else has spent it. */
  lemma {:induction false} OperatorTracksChain(
    c: Crypto, cfg: Config, script: Script, capacity: nat, ws: seq<World>, es: seq<Event>, at: nat)
    requires WorldRun(c, cfg, script, ws, es) && at <= |es|
    requires InStep(cfg, script, capacity, ws[0])
    ensures Consistent(cfg, script, capacity, ws[at])
    ensures ws[at].queue.tip.output.capacity + cfg.fee * ws[at].flushes == capacity
    ensures InStep(cfg, script, capacity, ws[at]) <==> forall i :: 0 <= i < at ==> !UsurpedAt(ws, es, i)
  {
    hide Happens, Consistent, InStep;
    assert Consistent(cfg, script, capacity, ws[at]) ==>
        ws[at].queue.tip.output.capacity + cfg.fee * ws[at].flushes == capacity by {
      ConsistentFees(cfg, script, capacity, ws[at]);
    }
    if at > 0 {
      OperatorTracksChain(c, cfg, script, capacity, ws, es, at - 1);
      assert HappensAt(c, cfg, script, ws, es, at - 1);
      EventKeepsInStep(c, cfg, script, capacity, ws[at - 1], es[at - 1], ws[at]);
      assert UsurpedAt(ws, es, at - 1) <==> Usurps(ws[at - 1], es[at - 1]);
    } else {
      assert InStep(cfg, script, capacity, ws[0]) ==> Consistent(cfg, script, capacity, ws[0]) by {
        InStepIsConsistent(cfg, script, capacity, ws[0]);
      }
    }
  }

  lemma ConsistentFees(cfg: Config, script: Script, capacity: nat, w: World)
    ensures Consistent(cfg, script, capacity, w) ==>
      w.queue.tip.output.capacity + cfg.fee * w.flushes == capacity
  {
  }

  lemma InStepIsConsistent(cfg: Config, script: Script, capacity: nat, w: World)
    ensures InStep(cfg, script, capacity, w) ==> Consistent(cfg, script, capacity, w)
  {
  }

  /** No honest node takes a flush. */
  ghost predicate Refused(c: Crypto, cfg: Config, script: Script, w: World) {
    forall finalize: Finalizer, node: Node :: KeepsGameCell(finalize) && Honest(c, script, w, node) ==>
      Broadcast(cfg, w.queue, finalize, node).Err?
  }

  lemma OrphanRefused(c: Crypto, cfg: Config, script: Script, capacity: nat, w: World)
    requires Consistent(cfg, script, capacity, w) && !InStep(cfg, script, capacity, w)
    ensures w.queue.tip.outPoint !in w.ledger && Refused(c, cfg, script, w)
  {
    forall finalize: Finalizer, node: Node | KeepsGameCell(finalize) && Honest(c, script, w, node)
      ensures Broadcast(cfg, w.queue, finalize, node).Err?
    {
      OrphanFlushRefused(c, cfg, script, w, finalize, node);
    }
  }

  /** An event that is not an accepted flush leaves the tip as remembered. */
  lemma EventKeepsTip(c: Crypto, cfg: Config, script: Script, w: World, e: Event, w': World)
    requires Happens(c, cfg, script, w, e, w') && (e.Elsewhere? || Refused(c, cfg, script, w))
    ensures w'.queue.tip == w.queue.tip && w'.flushes == w.flushes
  {
  }

  /** Once someone else has spent the tip, the operator is orphaned: its tip stays the
      spent one and no honest node takes a flush of it, whatever happens. */
  lemma {:induction false} OrphanedForGood(
    c: Crypto, cfg: Config, script: Script, capacity: nat, ws: seq<World>, es: seq<Event>, i: nat, at: nat)
    requires WorldRun(c, cfg, script, ws, es) && i < at <= |es|
    requires InStep(cfg, script, capacity, ws[0]) && UsurpedAt(ws, es, i)
    ensures ws[at].queue.tip == ws[i].queue.tip && ws[at].flushes == ws[i].flushes
    ensures ws[at].queue.tip.outPoint !in ws[at].ledger && Refused(c, cfg, script, ws[at])
    decreases at
  {
    hide Happens, Consistent, InStep, Refused;
    OperatorTracksChain(c, cfg, script, capacity, ws, es, at);
    OrphanRefused(c, cfg, script, capacity, ws[at]);
    assert HappensAt(c, cfg, script, ws, es, at - 1);
    if at > i + 1 {
      OrphanedForGood(c, cfg, script, capacity, ws, es, i, at - 1);
    }
    EventKeepsTip(c, cfg, script, ws[at - 1], es[at - 1], ws[at]);
  }

  /** Hence at any point of a run a non-empty mempool can be built into a transition
      as soon as the fee is funded and the sequence number has room. */
  lemma RunningMempoolBuilds(
    c: Crypto, cfg: Config, script: Script, capacity: nat, ws: seq<World>, es: seq<Event>, at: nat)
    requires WorldRun(c, cfg, script, ws, es) && at <= |es|
    requires InStep(cfg, script, capacity, ws[0])
    requires ws[at].queue.mempool != []
    ensures BuildTransition(cfg, ws[at].queue).Ok? <==>
      (&& ws[at].queue.tip.state.sequence + |ws[at].queue.mempool| <= MAX_U64
       && cfg.fee <= ws[at].queue.tip.output.capacity)
  {
    OperatorTracksChain(c, cfg, script, capacity, ws, es, at);
  }

  /** And while the tip is live a transition built then, once signed, spends it and is
      accepted over it. */
  lemma RunningTransitionAccepted(
    c: Crypto, s: Signer, cfg: Config, script: Script, capacity: nat, ws: seq<World>, es: seq<Event>, at: nat)
    requires WorldRun(c, cfg, script, ws, es) && at <= |es|
    requires InStep(cfg, script, capacity, ws[0]) && script.args == cfg.gameId
    requires ws[at].queue.tip.outPoint in ws[at].ledger
    requires BuildTransition(cfg, ws[at].queue).Ok?
    requires |ws[at].queue.mempool| <= MAX_U16 && AllSigned(c, cfg.gameId, ws[at].queue.mempool)
    requires |BuildTransition(cfg, ws[at].queue).value.nextState.players| <= MAX_U32
    ensures AcceptedOver(c, s, cfg, script, ws[at])
  {
    OperatorTracksChain(c, cfg, script, capacity, ws, es, at);
    BuildAccepted(c, s, cfg, script, ws[at]);
  }

  /** What the operator builds now, once signed, spends the live tip and passes the
      type script over it. */
  ghost predicate AcceptedOver(c: Crypto, s: Signer, cfg: Config, script: Script, w: World) {
    var built, at := BuildTransition(cfg, w.queue), w.queue.tip.outPoint;
    && built.Ok?
    && at in w.ledger
    && SignSighashAll(c, s, built.value.tx).Ok?
    && AcceptsSpending(c, script, SignSighashAll(c, s, built.value.tx).value, w.ledger, at)
  }

  /** The type script accepts the transaction, which spends the one live cell. */
  ghost predicate AcceptsSpending(c: Crypto, script: Script, tx: Tx, l: Ledger, at: OutPoint)
    requires at in l
  {
    tx.raw.inputs == [at] && Spends(l, [at], [l[at]]) && CellVerdict(c, ResolvedTx(tx, [l[at]], []), script).Ok?
  }

  lemma BuiltSpendsTip(c: Crypto, s: Signer, cfg: Config, q: Queue)
    requires BuildTransition(cfg, q).Ok?
    ensures BuildTransition(cfg, q).value.tx.raw.inputs == [q.tip.outPoint]
    ensures SignSighashAll(c, s, BuildTransition(cfg, q).value.tx).Ok?
    ensures SignSighashAll(c, s, BuildTransition(cfg, q).value.tx).value.raw.inputs == [q.tip.outPoint]
  {
  }

  lemma BuildAccepted(c: Crypto, s: Signer, cfg: Config, script: Script, w: World)
    requires TipLive(w.ledger, script, w.queue.tip) && script.args == cfg.gameId
    requires BuildTransition(cfg, w.queue).Ok?
    requires |w.queue.mempool| <= MAX_U16 && AllSigned(c, cfg.gameId, w.queue.mempool)
    requires |BuildTransition(cfg, w.queue).value.nextState.players| <= MAX_U32
    ensures AcceptedOver(c, s, cfg, script, w)
  {
    TransitionAcceptedExact(c, s, cfg, w.queue, script, w.ledger[w.queue.tip.outPoint], []);
    BuiltSpendsTip(c, s, cfg, w.queue);
    SpendsOne(w.ledger, w.queue.tip.outPoint);
  }

  /** In a run the queue is jammed exactly when one move too many for the sequence
      number was admitted. */
  lemma RunningJamExact(
    c: Crypto, cfg: Config, script: Script, capacity: nat, ws: seq<World>, es: seq<Event>, at: nat)
    requires WorldRun(c, cfg, script, ws, es) && at <= |es|
    requires InStep(cfg, script, capacity, ws[0])
    ensures Jammed(ws[at].queue) <==>
      ws[at].queue.mempool != [] && ws[at].queue.tip.state.sequence + |ws[at].queue.mempool| == MAX_U64 + 1
  {
    OperatorTracksChain(c, cfg, script, capacity, ws, es, at);
  }

  /** A jammed operator stays as it is, refusing every move and every flush, until
      the queue is dropped: shedding does not help, for the node is never asked. */
  lemma {:induction false} JamLastsUntilDrop(
    c: Crypto, cfg: Config, script: Script, ws: seq<World>, es: seq<Event>, at: nat)
    requires WorldRun(c, cfg, script, ws, es) && at <= |es|
    requires Jammed(ws[0].queue)
    requires forall i :: 0 <= i < at ==> !es[i].Dropped?
    ensures ws[at].queue == ws[0].queue && ws[at].flushes == ws[0].flushes
    ensures forall m: Intent :: Admission(ws[at].queue, m).Err?
    ensures forall finalize: Finalizer, node: Node :: Broadcast(cfg, ws[at].queue, finalize, node).Err?
  {
    JamStep(cfg, ws[0].queue);
    if at > 0 {
      JamLastsUntilDrop(c, cfg, script, ws, es, at - 1);
      assert HappensAt(c, cfg, script, ws, es, at - 1);
    }
  }

  /** The sighash-all finalizer leaves the game cell alone. */
  lemma SighashKeepsGameCell(c: Crypto, s: Signer)
    ensures KeepsGameCell((tx: Tx) => SignSighashAll(c, s, tx))
  {
  }

  /** Flushes do happen: with the tip live, a queue that builds, signed intents, counts
      that fit and a hash that is new, an honest node takes the operator's own signed
      transition, and the flush advances the tip. */
  lemma HonestFlushHappens(
    c: Crypto, s: Signer, cfg: Config, script: Script, capacity: nat, w: World, shed: bool)
    returns (finalize: Finalizer, node: Node, w': World)
    requires InStep(cfg, script, capacity, w) && script.args == cfg.gameId
    requires BuildTransition(cfg, w.queue).Ok?
    requires |w.queue.mempool| <= MAX_U16 && AllSigned(c, cfg.gameId, w.queue.mempool)
    requires |BuildTransition(cfg, w.queue).value.nextState.players| <= MAX_U32
    requires var hash := TxHash(c, BuildTransition(cfg, w.queue).value.tx);
      hash !in w.committed && Fresh(w.ledger, hash)
    ensures Happens(c, cfg, script, w, Flushed(finalize, node, shed), w')
    ensures Broadcast(cfg, w.queue, finalize, node).Ok? && Advances(cfg, script, w, w')
    ensures InStep(cfg, script, capacity, w')
  {
    hide CellVerdict, Committed, EncodeState, DecodeState, SignSighashAll, Advances;
    finalize := (tx: Tx) => SignSighashAll(c, s, tx);
    node := (tx: Tx) => if Valid(c, script, w, tx) then Ok(TxHash(c, tx)) else Err("rejected");
    SighashKeepsGameCell(c, s);
    SignedIsValid(c, s, cfg, script, w);
    w' := FlushedWorld(c, cfg, w, finalize, node, shed);
    FlushReplacesTip(c, cfg, script, w, finalize, node, shed);
    AdvanceKeepsInStep(cfg, script, capacity, w, w');
  }

  lemma SignedIsValid(c: Crypto, s: Signer, cfg: Config, script: Script, w: World)
    requires TipLive(w.ledger, script, w.queue.tip) && script.args == cfg.gameId
    requires BuildTransition(cfg, w.queue).Ok?
    requires |w.queue.mempool| <= MAX_U16 && AllSigned(c, cfg.gameId, w.queue.mempool)
    requires |BuildTransition(cfg, w.queue).value.nextState.players| <= MAX_U32
    requires var hash := TxHash(c, BuildTransition(cfg, w.queue).value.tx);
      hash !in w.committed && Fresh(w.ledger, hash)
    ensures SignSighashAll(c, s, BuildTransition(cfg, w.queue).value.tx).Ok?
    ensures Valid(c, script, w, SignSighashAll(c, s, BuildTransition(cfg, w.queue).value.tx).value)
  {
    hide CellVerdict, EncodeState, DecodeState;
    BuildAccepted(c, s, cfg, script, w);
    var signed := SignSighashAll(c, s, BuildTransition(cfg, w.queue).value.tx).value;
    var rtx := ResolvedTx(signed, [w.ledger[w.queue.tip.outPoint]], []);
    assert rtx.tx == signed && Committable(c, w.ledger, rtx) && CellVerdict(c, rtx, script).Ok?;
  }

  // ---- Refusals -------------------------------------------------------------

  /** How building and submitting refuse. */
  lemma OperatorRefusals(cfg: Config, q: Queue, m: Intent)
    ensures
      var next := Transition(q.tip.state, q.mempool);
      if q.mempool == [] then BuildTransition(cfg, q) == Err(Empty)
      else if next.Err? then BuildTransition(cfg, q) == Err(Game(next.error))
      else if q.tip.output.capacity < cfg.fee
      then BuildTransition(cfg, q).Err? && BuildTransition(cfg, q).error.Finalize?
      else BuildTransition(cfg, q).Ok?
    ensures
      var next := Transition(q.tip.state, q.mempool);
      if next.Err? then Admission(q, m) == Err(Game(next.error))
      else if Move(next.value.players, m).Err? then Admission(q, m) == Err(Game(Move(next.value.players, m).error))
      else Admission(q, m) == Ok(())
  {
  }

  /** What a rejected flush leaves in a run: the queue, unless it is the shedding one. */
  lemma RejectionInRuns(c: Crypto, cfg: Config, w: World, finalize: Finalizer, node: Node, shed: bool)
    requires BuildTransition(cfg, w.queue).Ok?
    requires finalize(BuildTransition(cfg, w.queue).value.tx).Ok?
    requires node(finalize(BuildTransition(cfg, w.queue).value.tx).value).Err?
    ensures FlushedWorld(c, cfg, w, finalize, node, shed)
      == if shed then w.(queue := Queue(w.queue.tip, [])) else w
  {
  }

  /** What a flush reports: the step that failed, or the hash. */
  lemma FlushReports(cfg: Config, q: Queue, finalize: Finalizer, node: Node)
    ensures
      var built, sent := BuildTransition(cfg, q), Broadcast(cfg, q, finalize, node);
      if built.Err? then sent == Err(built.error)
      else if finalize(built.value.tx).Err? then sent == Err(Finalize(finalize(built.value.tx).error))
      else
        var signed := finalize(built.value.tx).value;
        if node(signed).Err? then sent == Err(Rpc(node(signed).error)) else sent == Ok((signed, node(signed).value))
  {
  }
}
