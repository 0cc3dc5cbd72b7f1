/**
 Games on the ledger. The type script checks a game cell against the cell it replaces
 and a new one against nothing, so how many cells of a game are live is how many
 geneses were committed, and what "no replay" covers is one genesis.
 */
module GameScope {
  import opened Prelude
  import opened Chain
  import opened CellLedger
  import opened GameRules
  import opened GameCodec
  import opened GameCell
  import opened GameHistory

  /** When no input carries the type, one output with empty state, written either way,
      is all the script asks for. */
  lemma GenesisAcceptedExact(c: Crypto, script: Script, rtx: ResolvedTx)
    requires |script.args| == 32 && TypeGroupIn(c, rtx, script) == []
    ensures CellVerdict(c, rtx, script).Ok? <==>
      (&& CellOut(c, script, rtx).Some?
       && (CellOut(c, script, rtx).value.data == [] || CellOut(c, script, rtx).value.data == EncodeState(EMPTY_BOARD)))
  {
    if CellOut(c, script, rtx).Some? {
      EmptyStateExact(CellOut(c, script, rtx).value.data);
      assert CellVerdict(c, rtx, script) == GenesisVerdict(CellOut(c, script, rtx).value.data);
    }
  }

  // ---- Live cells of a game -------------------------------------------------

  predicate IsGame(c: Crypto, script: Script, cell: Cell) {
    HasTypeHash(c, c.scriptHash(script))(cell)
  }

  function GameUnit(c: Crypto, script: Script): Cell -> nat {
    (cell: Cell) => if IsGame(c, script, cell) then 1 else 0
  }

  /** How many cells of the game are live. */
  ghost function LiveGames(c: Crypto, script: Script, l: Ledger): nat {
    SumOver(GameUnit(c, script), l)
  }

  ghost predicate GameAt(c: Crypto, script: Script, l: Ledger, k: OutPoint) {
    k in l && IsGame(c, script, l[k])
  }

  ghost predicate AtMostOneGame(c: Crypto, script: Script, l: Ledger) {
    forall k, k' :: GameAt(c, script, l, k) && GameAt(c, script, l, k') ==> k == k'
  }

  lemma {:induction false} NoGames(c: Crypto, script: Script, l: Ledger)
    requires forall k :: !GameAt(c, script, l, k)
    ensures LiveGames(c, script, l) == 0
    decreases |l|
  {
    if l != map[] {
      var k :| k in l;
      SumOverRemove(GameUnit(c, script), l, k);
      assert !GameAt(c, script, l, k);
      forall j
        ensures !GameAt(c, script, l - {k}, j)
      {
        assert !GameAt(c, script, l, j);
      }
      NoGames(c, script, l - {k});
    }
  }

  lemma LiveGameCounts(c: Crypto, script: Script, l: Ledger, k: OutPoint)
    requires GameAt(c, script, l, k)
    ensures LiveGames(c, script, l) == 1 + LiveGames(c, script, l - {k})
  {
    SumOverRemove(GameUnit(c, script), l, k);
  }

  /** Counting to at most one is being at most one. */
  lemma AtMostOneExact(c: Crypto, script: Script, l: Ledger)
    ensures AtMostOneGame(c, script, l) <==> LiveGames(c, script, l) <= 1
  {
    if k, k' :| GameAt(c, script, l, k) && GameAt(c, script, l, k') && k != k' {
      LiveGameCounts(c, script, l, k);
      LiveGameCounts(c, script, l - {k}, k');
    } else if k :| GameAt(c, script, l, k) {
      LiveGameCounts(c, script, l, k);
      forall j
        ensures !GameAt(c, script, l - {k}, j)
      {
        assert GameAt(c, script, l - {k}, j) ==> GameAt(c, script, l, j);
      }
      NoGames(c, script, l - {k});
    } else {
      NoGames(c, script, l);
    }
  }

  // ---- Steps ----------------------------------------------------------------

  /** Any transaction the chain commits: the type script has its say whenever a cell
      of the game is spent or created. */
  ghost predicate GameLedgerStep(c: Crypto, script: Script, before: Ledger, rtx: ResolvedTx, after: Ledger) {
    && Committable(c, before, rtx)
    && after == Committed(c, before, rtx.tx)
    && ((TypeGroupIn(c, rtx, script) == [] && TypeGroupOut(c, rtx, script) == []) || CellVerdict(c, rtx, script).Ok?)
  }

  lemma {:induction false} MatchingCount(c: Crypto, script: Script, s: seq<Cell>)
    ensures |Matching(HasTypeHash(c, c.scriptHash(script)), s)| == SumOf(GameUnit(c, script), s)
  {
    if s != [] {
      var n := |s| - 1;
      MatchingCount(c, script, s[..n]);
      SumOfSnoc(GameUnit(c, script), s, n);
      assert s[..n + 1] == s;
    }
  }

  ghost function GenesisCount(c: Crypto, script: Script, rtx: ResolvedTx): nat {
    if AcceptedGenesis(c, script, rtx) then 1 else 0
  }

  /** A step adds a live cell of the game exactly when it is a genesis, and never
      takes one away. */
  lemma StepCount(c: Crypto, script: Script, before: Ledger, rtx: ResolvedTx, after: Ledger)
    requires GameLedgerStep(c, script, before, rtx, after)
    ensures LiveGames(c, script, after) == LiveGames(c, script, before) + GenesisCount(c, script, rtx)
  {
    SumOverCommitted(GameUnit(c, script), c, before, rtx);
    MatchingCount(c, script, rtx.spent);
    MatchingCount(c, script, rtx.tx.raw.outputs);
    GroupSizes(c, script, rtx);
  }

  lemma GroupSizes(c: Crypto, script: Script, rtx: ResolvedTx)
    requires (TypeGroupIn(c, rtx, script) == [] && TypeGroupOut(c, rtx, script) == [])
      || CellVerdict(c, rtx, script).Ok?
    ensures |TypeGroupOut(c, rtx, script)| == |TypeGroupIn(c, rtx, script)| + GenesisCount(c, script, rtx)
  {
  }

  lemma SpentGameIsInput(c: Crypto, script: Script, l: Ledger, rtx: ResolvedTx, i: nat)
    requires Spends(l, rtx.tx.raw.inputs, rtx.spent) && i < |rtx.tx.raw.inputs|
    ensures i in TypeGroupIn(c, rtx, script) <==> GameAt(c, script, l, rtx.tx.raw.inputs[i])
  {
    assert rtx.spent[i] == l[rtx.tx.raw.inputs[i]];
  }

  /** The outpoint of the game cell a step creates. */
  function GameOutPoint(c: Crypto, script: Script, rtx: ResolvedTx): OutPoint
    requires CellOut(c, script, rtx).Some?
  {
    OutPoint(TxHash(c, rtx.tx), TypeGroupOut(c, rtx, script)[0])
  }

  /** The one game cell a step spends, on the ledger. */
  lemma SpentGame(c: Crypto, script: Script, l: Ledger, rtx: ResolvedTx) returns (k: OutPoint)
    requires Committable(c, l, rtx) && AcceptedStep(c, script, rtx)
    ensures k in rtx.tx.raw.inputs && GameAt(c, script, l, k)
    ensures CellIn(c, script, rtx) == Some(l[k])
    ensures forall j :: j in rtx.tx.raw.inputs && GameAt(c, script, l, j) ==> j == k
  {
    var ins := TypeGroupIn(c, rtx, script);
    assert ins[0] in ins && ins == [ins[0]];
    k := rtx.tx.raw.inputs[ins[0]];
    SpentGameIsInput(c, script, l, rtx, ins[0]);
    forall j | j in rtx.tx.raw.inputs && GameAt(c, script, l, j)
      ensures j == k
    {
      var i :| 0 <= i < |rtx.tx.raw.inputs| && rtx.tx.raw.inputs[i] == j;
      SpentGameIsInput(c, script, l, rtx, i);
    }
  }

  /** The live cells of the game after a step: those it left alone, and the one it
      created, if the script had its say. */
  lemma GamesAfter(c: Crypto, script: Script, before: Ledger, rtx: ResolvedTx, after: Ledger, k: OutPoint)
    requires GameLedgerStep(c, script, before, rtx, after)
    ensures GameAt(c, script, after, k) <==>
      || (GameAt(c, script, before, k) && k !in rtx.tx.raw.inputs)
      || (CellVerdict(c, rtx, script).Ok? && CellOut(c, script, rtx).Some? && k == GameOutPoint(c, script, rtx))
    ensures GameAt(c, script, after, k) ==>
      after[k] == if k.txHash == TxHash(c, rtx.tx) then CellOut(c, script, rtx).value else before[k]
  {
    var outs := TypeGroupOut(c, rtx, script);
    CommittedCells(c, before, rtx, k);
    assert OutPoint(k.txHash, k.index) == k;
    if GameAt(c, script, after, k) && k.txHash == TxHash(c, rtx.tx) {
      assert k.index in outs;
      assert outs == [outs[0]];
    }
    if CellOut(c, script, rtx).Some? {
      assert outs[0] in outs;
    }
  }

  /** No game cell is destroyed or split: a live one either stays as it is or is
      replaced by exactly one, by a step of the rule. */
  lemma GameContinues(c: Crypto, script: Script, before: Ledger, rtx: ResolvedTx, after: Ledger, k: OutPoint)
    requires GameLedgerStep(c, script, before, rtx, after) && GameAt(c, script, before, k)
    ensures if k !in rtx.tx.raw.inputs then GameAt(c, script, after, k) && after[k] == before[k]
      else
        && AcceptedStep(c, script, rtx) && CellIn(c, script, rtx) == Some(before[k])
        && CellOut(c, script, rtx).Some?
        && GameAt(c, script, after, GameOutPoint(c, script, rtx))
        && after[GameOutPoint(c, script, rtx)] == CellOut(c, script, rtx).value
        && k !in after
  {
    GamesAfter(c, script, before, rtx, after, k);
    if k in rtx.tx.raw.inputs {
      var i :| 0 <= i < |rtx.tx.raw.inputs| && rtx.tx.raw.inputs[i] == k;
      SpentGameIsInput(c, script, before, rtx, i);
      assert AcceptedStep(c, script, rtx);
      var spent := SpentGame(c, script, before, rtx);
      StepFollows(c, script, rtx);
      GamesAfter(c, script, before, rtx, after, GameOutPoint(c, script, rtx));
      CommittedCells(c, before, rtx, k);
      assert OutPoint(k.txHash, k.index) == k;
    } else {
      assert OutPoint(k.txHash, k.index) == k;
    }
  }

  // ---- Runs of the ledger ---------------------------------------------------

  ghost predicate LedgerRun(c: Crypto, script: Script, ledgers: seq<Ledger>, steps: seq<ResolvedTx>) {
    && |ledgers| == |steps| + 1
    && forall i :: 0 <= i < |steps| ==> LedgerStepAt(c, script, ledgers, steps, i)
  }

  ghost predicate LedgerStepAt(c: Crypto, script: Script, ledgers: seq<Ledger>, steps: seq<ResolvedTx>, i: nat) {
    i < |steps| && i + 1 < |ledgers| && GameLedgerStep(c, script, ledgers[i], steps[i], ledgers[i + 1])
  }

  /** How many geneses of the game were committed. */
  ghost function Geneses(c: Crypto, script: Script, steps: seq<ResolvedTx>): nat
    decreases |steps|
  {
    if steps == [] then 0
    else Geneses(c, script, steps[..|steps| - 1]) + GenesisCount(c, script, steps[|steps| - 1])
  }

  lemma GenesesSnoc(c: Crypto, script: Script, steps: seq<ResolvedTx>, at: nat)
    requires at < |steps|
    ensures Geneses(c, script, steps[..at + 1]) == Geneses(c, script, steps[..at]) + GenesisCount(c, script, steps[at])
  {
    assert steps[..at + 1][..at] == steps[..at];
  }

  lemma {:induction false} GenesesPrefix(c: Crypto, script: Script, steps: seq<ResolvedTx>, at: nat)
    requires at <= |steps|
    ensures Geneses(c, script, steps[..at]) <= Geneses(c, script, steps)
    decreases |steps| - at
  {
    if at == |steps| {
      assert steps[..at] == steps;
    } else {
      GenesesSnoc(c, script, steps, at);
      GenesesPrefix(c, script, steps, at + 1);
    }
  }

  /** Along any run of the ledger the live cells of a game are those there were and
      one for every genesis since. */
  lemma {:induction false} RunCount(c: Crypto, script: Script, ledgers: seq<Ledger>, steps: seq<ResolvedTx>, at: nat)
    requires LedgerRun(c, script, ledgers, steps) && at <= |steps|
    ensures LiveGames(c, script, ledgers[at]) == LiveGames(c, script, ledgers[0]) + Geneses(c, script, steps[..at])
  {
    if at > 0 {
      RunCount(c, script, ledgers, steps, at - 1);
      GenesesSnoc(c, script, steps, at - 1);
      assert LedgerStepAt(c, script, ledgers, steps, at - 1);
      StepCount(c, script, ledgers[at - 1], steps[at - 1], ledgers[at]);
    }
  }

  /** A game id is a singleton throughout a run that starts without it if and only if
      at most one genesis of it was committed. */
  lemma SingletonExact(c: Crypto, script: Script, ledgers: seq<Ledger>, steps: seq<ResolvedTx>)
    requires LedgerRun(c, script, ledgers, steps)
    requires LiveGames(c, script, ledgers[0]) == 0
    ensures (forall at :: 0 <= at <= |steps| ==> AtMostOneGame(c, script, ledgers[at]))
      <==> Geneses(c, script, steps) <= 1
  {
    forall at | 0 <= at <= |steps|
      ensures AtMostOneGame(c, script, ledgers[at]) <==> Geneses(c, script, steps[..at]) <= 1
      ensures Geneses(c, script, steps[..at]) <= Geneses(c, script, steps)
    {
      RunCount(c, script, ledgers, steps, at);
      AtMostOneExact(c, script, ledgers[at]);
      GenesesPrefix(c, script, steps, at);
    }
    assert steps[..|steps|] == steps;
  }

  /** Every live cell of a game is the last cell of an accepted run of committed
      transactions, from its own genesis. */
  lemma {:induction false} LiveCellHasRun(
    c: Crypto, script: Script, ledgers: seq<Ledger>, steps: seq<ResolvedTx>, at: nat, k: OutPoint)
    returns (txs: seq<ResolvedTx>)
    requires LedgerRun(c, script, ledgers, steps) && at <= |steps|
    requires LiveGames(c, script, ledgers[0]) == 0
    requires GameAt(c, script, ledgers[at], k)
    ensures GameRun(c, script, txs)
    ensures CellOut(c, script, txs[|txs| - 1]) == Some(ledgers[at][k])
    ensures forall tx :: tx in txs ==> tx in steps[..at]
  {
    if at == 0 {
      LiveGameCounts(c, script, ledgers[0], k);
      assert false;
    } else {
      var before, rtx := ledgers[at - 1], steps[at - 1];
      assert LedgerStepAt(c, script, ledgers, steps, at - 1);
      GamesAfter(c, script, before, rtx, ledgers[at], k);
      assert steps[..at] == steps[..at - 1] + [rtx];
      if GameAt(c, script, before, k) && k !in rtx.tx.raw.inputs {
        txs := LiveCellHasRun(c, script, ledgers, steps, at - 1, k);
        assert k.txHash != TxHash(c, rtx.tx) by {
          assert OutPoint(k.txHash, k.index) == k;
        }
      } else if AcceptedStep(c, script, rtx) {
        var spent := SpentGame(c, script, before, rtx);
        var shorter := LiveCellHasRun(c, script, ledgers, steps, at - 1, spent);
        GameRunSnoc(c, script, shorter, rtx);
        txs := shorter + [rtx];
      } else {
        txs := [rtx];
        assert GameRun(c, script, txs);
      }
    }
  }

  lemma GameRunSnoc(c: Crypto, script: Script, txs: seq<ResolvedTx>, rtx: ResolvedTx)
    requires GameRun(c, script, txs) && Linked(c, script, txs[|txs| - 1], rtx)
    ensures GameRun(c, script, txs + [rtx])
  {
    hide Linked, AcceptedGenesis;
    var longer := txs + [rtx];
    forall i | 0 < i < |longer|
      ensures LinkedAt(c, script, longer, i)
    {
      assert i < |txs| ==> LinkedAt(c, script, txs, i);
    }
  }

  /** So every live cell of a game holds a sound board. */
  lemma LiveGamesSound(c: Crypto, script: Script, ledgers: seq<Ledger>, steps: seq<ResolvedTx>, at: nat, k: OutPoint)
    requires LedgerRun(c, script, ledgers, steps) && at <= |steps|
    requires LiveGames(c, script, ledgers[0]) == 0
    requires GameAt(c, script, ledgers[at], k)
    ensures DecodeState(ledgers[at][k].data).Ok? && Sound(BoardOf(ledgers[at][k]))
  {
    var txs := LiveCellHasRun(c, script, ledgers, steps, at, k);
    var last := |txs| - 1;
    RunBoardSound(c, script, txs, last);
    RunDecodes(c, script, txs, last);
  }

  lemma RunDecodes(c: Crypto, script: Script, txs: seq<ResolvedTx>, at: nat)
    requires GameRun(c, script, txs) && at < |txs|
    ensures CellOut(c, script, txs[at]).Some? && DecodeState(CellOut(c, script, txs[at]).value.data).Ok?
  {
    assert at > 0 ==> LinkedAt(c, script, txs, at);
  }

  // ---- One genesis ----------------------------------------------------------

  /** The transactions the script had its say on, in order. */
  ghost function GameTxs(c: Crypto, script: Script, steps: seq<ResolvedTx>): seq<ResolvedTx>
    decreases |steps|
  {
    if steps == [] then []
    else
      var last := steps[|steps| - 1];
      GameTxs(c, script, steps[..|steps| - 1]) + if CellVerdict(c, last, script).Ok? then [last] else []
  }

  /** Every intent committed under the game id, in order, whichever cell it moved. */
  ghost function MovesCommitted(c: Crypto, script: Script, steps: seq<ResolvedTx>): seq<Intent>
    decreases |steps|
  {
    if steps == [] then []
    else MovesCommitted(c, script, steps[..|steps| - 1]) + BatchOf(c, script, steps[|steps| - 1])
  }

  /** What the run has come to: no game yet, or one run whose last cell is the only
      live one and whose moves are all the moves there were. */
  ghost predicate OneRun(c: Crypto, script: Script, l: Ledger, txs: seq<ResolvedTx>, moves: seq<Intent>) {
    if txs == [] then moves == [] && LiveGames(c, script, l) == 0
    else
      && GameRun(c, script, txs)
      && LiveGames(c, script, l) == 1
      && (forall k :: GameAt(c, script, l, k) ==> CellOut(c, script, txs[|txs| - 1]) == Some(l[k]))
      && moves == Accepted(c, script, txs, |txs| - 1)
  }

  lemma AcceptedSnoc(c: Crypto, script: Script, txs: seq<ResolvedTx>, rtx: ResolvedTx)
    requires txs != []
    ensures Accepted(c, script, txs + [rtx], |txs|) == Accepted(c, script, txs, |txs| - 1) + BatchOf(c, script, rtx)
  {
    var shorter, longer := PlayOf(c, script, txs), PlayOf(c, script, txs + [rtx]);
    assert longer == shorter + [StepOf(c, script, rtx)];
    assert longer[..|txs|] == longer && shorter[..|txs| - 1] == shorter;
    assert longer[..|longer| - 1] == shorter;
  }

  /** The script had no say. */
  lemma QuietStepKeepsOneRun(
    c: Crypto, script: Script, before: Ledger, rtx: ResolvedTx, after: Ledger, txs: seq<ResolvedTx>, moves: seq<Intent>)
    requires GameLedgerStep(c, script, before, rtx, after) && !CellVerdict(c, rtx, script).Ok?
    requires OneRun(c, script, before, txs, moves)
    ensures OneRun(c, script, after, txs, moves) && BatchOf(c, script, rtx) == []
  {
    StepCount(c, script, before, rtx, after);
    forall k | GameAt(c, script, after, k)
      ensures GameAt(c, script, before, k) && after[k] == before[k]
    {
      GamesAfter(c, script, before, rtx, after, k);
      assert OutPoint(k.txHash, k.index) == k;
    }
  }

  /** The step created the only live cell of the game. */
  lemma OnlyGameIsNew(c: Crypto, script: Script, before: Ledger, rtx: ResolvedTx, after: Ledger)
    requires GameLedgerStep(c, script, before, rtx, after) && CellVerdict(c, rtx, script).Ok?
    requires LiveGames(c, script, after) <= 1
    ensures CellOut(c, script, rtx).Some?
    ensures forall k :: GameAt(c, script, after, k) ==> CellOut(c, script, rtx) == Some(after[k])
  {
    var created := GameOutPoint(c, script, rtx);
    GamesAfter(c, script, before, rtx, after, created);
    AtMostOneExact(c, script, after);
  }

  lemma GenesisStartsOneRun(
    c: Crypto, script: Script, before: Ledger, rtx: ResolvedTx, after: Ledger)
    requires GameLedgerStep(c, script, before, rtx, after) && AcceptedGenesis(c, script, rtx)
    requires LiveGames(c, script, before) == 0
    ensures OneRun(c, script, after, [rtx], BatchOf(c, script, rtx))
  {
    StepCount(c, script, before, rtx, after);
    OnlyGameIsNew(c, script, before, rtx, after);
    assert GameRun(c, script, [rtx]);
  }

  lemma AdvanceKeepsOneRun(
    c: Crypto, script: Script, before: Ledger, rtx: ResolvedTx, after: Ledger, txs: seq<ResolvedTx>, moves: seq<Intent>)
    requires GameLedgerStep(c, script, before, rtx, after) && AcceptedStep(c, script, rtx)
    requires OneRun(c, script, before, txs, moves)
    ensures OneRun(c, script, after, txs + [rtx], moves + BatchOf(c, script, rtx))
  {
    var spent := SpentGame(c, script, before, rtx);
    LiveGameCounts(c, script, before, spent);
    StepCount(c, script, before, rtx, after);
    OnlyGameIsNew(c, script, before, rtx, after);
    GameRunSnoc(c, script, txs, rtx);
    AcceptedSnoc(c, script, txs, rtx);
  }

  lemma StepKeepsOneRun(
    c: Crypto, script: Script, before: Ledger, rtx: ResolvedTx, after: Ledger, txs: seq<ResolvedTx>, moves: seq<Intent>)
    requires GameLedgerStep(c, script, before, rtx, after)
    requires OneRun(c, script, before, txs, moves)
    requires LiveGames(c, script, after) <= 1
    ensures OneRun(c, script, after,
      txs + if CellVerdict(c, rtx, script).Ok? then [rtx] else [], moves + BatchOf(c, script, rtx))
  {
    if !CellVerdict(c, rtx, script).Ok? {
      QuietStepKeepsOneRun(c, script, before, rtx, after, txs, moves);
      assert txs + [] == txs && moves + [] == moves;
    } else if AcceptedStep(c, script, rtx) {
      AdvanceKeepsOneRun(c, script, before, rtx, after, txs, moves);
    } else {
      StepCount(c, script, before, rtx, after);
      GenesisStartsOneRun(c, script, before, rtx, after);
      assert [] + [rtx] == [rtx] && [] + BatchOf(c, script, rtx) == BatchOf(c, script, rtx);
    }
  }

  /** With at most one genesis so far, the transactions the script had its say on form
      one run of the game, and the one live cell, if any, is the last of it. */
  lemma {:induction false} OneGenesisIsOneRun(
    c: Crypto, script: Script, ledgers: seq<Ledger>, steps: seq<ResolvedTx>, at: nat)
    requires LedgerRun(c, script, ledgers, steps) && at <= |steps|
    requires LiveGames(c, script, ledgers[0]) == 0
    requires Geneses(c, script, steps[..at]) <= 1
    ensures OneRun(c, script, ledgers[at], GameTxs(c, script, steps[..at]), MovesCommitted(c, script, steps[..at]))
  {
    hide OneRun, GameLedgerStep, GenesisCount, BatchOf, CellVerdict;
    if at == 0 {
      NothingYet(c, script, ledgers[0]);
    } else {
      GenesesSnoc(c, script, steps, at - 1);
      OneGenesisIsOneRun(c, script, ledgers, steps, at - 1);
      RunCount(c, script, ledgers, steps, at);
      assert LedgerStepAt(c, script, ledgers, steps, at - 1);
      StepKeepsOneRun(c, script, ledgers[at - 1], steps[at - 1], ledgers[at],
        GameTxs(c, script, steps[..at - 1]), MovesCommitted(c, script, steps[..at - 1]));
      HistorySnoc(c, script, steps, at - 1);
    }
  }

  lemma NothingYet(c: Crypto, script: Script, l: Ledger)
    requires LiveGames(c, script, l) == 0
    ensures OneRun(c, script, l, [], [])
  {
  }

  lemma HistorySnoc(c: Crypto, script: Script, steps: seq<ResolvedTx>, at: nat)
    requires at < |steps|
    ensures GameTxs(c, script, steps[..at + 1])
      == GameTxs(c, script, steps[..at]) + if CellVerdict(c, steps[at], script).Ok? then [steps[at]] else []
    ensures MovesCommitted(c, script, steps[..at + 1])
      == MovesCommitted(c, script, steps[..at]) + BatchOf(c, script, steps[at])
  {
    assert steps[..at + 1][..at] == steps[..at];
  }

  /** And then no move is ever accepted twice on the ledger. */
  lemma OneGenesisNothingTwice(
    c: Crypto, script: Script, ledgers: seq<Ledger>, steps: seq<ResolvedTx>, i: nat, j: nat)
    requires LedgerRun(c, script, ledgers, steps)
    requires LiveGames(c, script, ledgers[0]) == 0 && Geneses(c, script, steps) <= 1
    requires i < j < |MovesCommitted(c, script, steps)|
    requires MovesCommitted(c, script, steps)[i].hash == MovesCommitted(c, script, steps)[j].hash
    ensures MovesCommitted(c, script, steps)[i].nonce < MovesCommitted(c, script, steps)[j].nonce
  {
    assert steps[..|steps|] == steps;
    OneGenesisIsOneRun(c, script, ledgers, steps, |steps|);
    var txs := GameTxs(c, script, steps);
    RunAcceptsNothingTwice(c, script, txs, |txs| - 1, i, j);
  }

  // ---- Two geneses ----------------------------------------------------------

  lemma GroupInputMissing(c: Crypto, script: Script, l: Ledger, rtx: ResolvedTx, k: OutPoint)
    requires Spends(l, rtx.tx.raw.inputs, rtx.spent) && TypeGroupIn(c, rtx, script) == []
    requires k in l && l[k].output.typ == Some(script)
    ensures k !in rtx.tx.raw.inputs
  {
    forall i | 0 <= i < |rtx.spent|
      ensures rtx.tx.raw.inputs[i] != k
    {
      assert i !in TypeGroupIn(c, rtx, script);
      assert !HasTypeHash(c, c.scriptHash(script))(rtx.spent[i]);
    }
  }

  /** A genesis is accepted while a cell of the same game is live, and both live on. */
  lemma SecondGenesis(c: Crypto, script: Script, l: Ledger, rtx: ResolvedTx, k: OutPoint, i: nat)
    requires Committable(c, l, rtx) && AcceptedGenesis(c, script, rtx)
    requires k in l && l[k].output.typ == Some(script)
    requires i < |rtx.tx.raw.outputs| && rtx.tx.raw.outputs[i].output.typ == Some(script)
    ensures var after, second := Committed(c, l, rtx.tx), OutPoint(TxHash(c, rtx.tx), i);
      && k in after && after[k] == l[k]
      && second in after && second != k && after[second] == rtx.tx.raw.outputs[i]
  {
    GroupInputMissing(c, script, l, rtx, k);
    CommittedCells(c, l, rtx, k);
    CommittedCells(c, l, rtx, OutPoint(TxHash(c, rtx.tx), i));
    assert OutPoint(k.txHash, k.index) == k;
  }

  /** A game cell and the two transactions of its life so far: its genesis, paid by
      `fund`, and one batch. `auth` is whatever its lock asks for. */
  function GameCellOf(output: CellOutput, b: Board): Cell {
    Cell(output, EncodeState(b))
  }

  function GenesisTx(fund: OutPoint, output: CellOutput): Tx {
    Tx(RawTx([], [], [fund], [GameCellOf(output, EMPTY_BOARD)]), [])
  }

  function BatchTx(previous: OutPoint, output: CellOutput, next: Board, ms: seq<Intent>, auth: Option<Bytes>): Tx {
    Tx(RawTx([], [], [previous], [GameCellOf(output, next)]),
       [Structured(WitnessArgs(auth, Some(EncodeBatch(ms)), None))])
  }

  lemma GenesisStep(
    c: Crypto, script: Script, l: Ledger, fund: OutPoint, output: CellOutput, known: set<Bytes32>)
    returns (rtx: ResolvedTx)
    requires |script.args| == 32 && output.typ == Some(script)
    requires fund in l && !IsGame(c, script, l[fund])
    requires KnownHashes(l, known) && TxHash(c, GenesisTx(fund, output)) !in known
    ensures rtx == ResolvedTx(GenesisTx(fund, output), [l[fund]], [])
    ensures GameLedgerStep(c, script, l, rtx, Committed(c, l, rtx.tx)) && GenesisCount(c, script, rtx) == 1
    ensures BatchOf(c, script, rtx) == []
  {
    hide EncodeState, DecodeState, CellVerdict, Committed;
    rtx := ResolvedTx(GenesisTx(fund, output), [l[fund]], []);
    var p := HasTypeHash(c, c.scriptHash(script));
    MatchingNone(p, rtx.spent);
    assert Matching(p, rtx.tx.raw.outputs[..0]) == [] && p(rtx.tx.raw.outputs[0]);
    assert TypeGroupOut(c, rtx, script) == [0];
    GenesisAcceptedExact(c, script, rtx);
  }

  lemma {:induction false} ReplayAddsPlayers(players: seq<PlayerEntry>, ms: seq<Intent>)
    ensures |Replay(players, ms).players| <= |players| + |ms|
    decreases |ms|
  {
    if ms != [] && Move(players, ms[0]).Ok? {
      ReplayAddsPlayers(Move(players, ms[0]).value, ms[1..]);
    }
  }

  lemma EmptyReplayFits(ms: seq<Intent>)
    requires |ms| <= MAX_U16 && Transition(EMPTY_BOARD, ms).Ok?
    ensures |Transition(EMPTY_BOARD, ms).value.players| <= MAX_U32
  {
    ReplayAddsPlayers([], ms);
  }

  lemma BatchStep(
    c: Crypto, script: Script, l: Ledger, previous: OutPoint, output: CellOutput, ms: seq<Intent>, auth: Option<Bytes>,
    known: set<Bytes32>) returns (rtx: ResolvedTx)
    requires |script.args| == 32 && output.typ == Some(script)
    requires previous in l && l[previous] == GameCellOf(output, EMPTY_BOARD)
    requires AllSigned(c, script.args, ms) && |ms| <= MAX_U16 && Transition(EMPTY_BOARD, ms).Ok?
    requires KnownHashes(l, known)
    requires TxHash(c, BatchTx(previous, output, Transition(EMPTY_BOARD, ms).value, ms, auth)) !in known
    ensures rtx == ResolvedTx(BatchTx(previous, output, Transition(EMPTY_BOARD, ms).value, ms, auth), [l[previous]], [])
    ensures GameLedgerStep(c, script, l, rtx, Committed(c, l, rtx.tx)) && GenesisCount(c, script, rtx) == 0
    ensures BatchOf(c, script, rtx) == ms
  {
    hide EncodeState, DecodeState, EncodeBatch, DecodeBatch, CellVerdict, Committed, BatchOf, Replay;
    var next := Transition(EMPTY_BOARD, ms).value;
    rtx := ResolvedTx(BatchTx(previous, output, next, ms, auth), [l[previous]], []);
    SingleTypeGroups(c, rtx, script);
    EmptyReplayFits(ms);
    StateRoundTripExact(EMPTY_BOARD);
    StateRoundTripExact(next);
    BatchRoundTripExact(ms);
    assert EqualsUnordered(next, next);
    BatchVerdict(c, script, rtx, ms, next);
  }

  lemma BatchVerdict(c: Crypto, script: Script, rtx: ResolvedTx, ms: seq<Intent>, next: Board)
    requires |script.args| == 32 && TypeGroupIn(c, rtx, script) == [0] && TypeGroupOut(c, rtx, script) == [0]
    requires rtx.spent != [] && DecodeState(rtx.spent[0].data) == Ok(EMPTY_BOARD)
    requires rtx.tx.raw.outputs != [] && DecodeState(rtx.tx.raw.outputs[0].data) == Ok(next)
    requires WitnessBatch(rtx, 0) == Ok(ms) && AllSigned(c, script.args, ms)
    requires Transition(EMPTY_BOARD, ms) == Ok(next) && EqualsUnordered(next, next)
    ensures AcceptedStep(c, script, rtx) && BatchOf(c, script, rtx) == ms
  {
  }

  /** The batch on an empty game's cell. */
  function BatchOn(previous: OutPoint, output: CellOutput, ms: seq<Intent>, auth: Option<Bytes>): Tx
    requires Transition(EMPTY_BOARD, ms).Ok?
  {
    BatchTx(previous, output, Transition(EMPTY_BOARD, ms).value, ms, auth)
  }

  /** The four transactions, and the hashes that must differ for them to be four. */
  function TwoGenesesTxs(
    c: Crypto, fund: OutPoint, fund': OutPoint, output: CellOutput, ms: seq<Intent>, auth: Option<Bytes>): seq<Tx>
    requires Transition(EMPTY_BOARD, ms).Ok?
  {
    var g, g' := GenesisTx(fund, output), GenesisTx(fund', output);
    [g, g', BatchOn(OutPoint(TxHash(c, g), 0), output, ms, auth), BatchOn(OutPoint(TxHash(c, g'), 0), output, ms, auth)]
  }

  ghost predicate HashesDiffer(c: Crypto, txs: seq<Tx>, known: set<Bytes32>) {
    && (forall i :: 0 <= i < |txs| ==> TxHash(c, txs[i]) !in known)
    && (forall i, j :: 0 <= i < j < |txs| ==> TxHash(c, txs[i]) != TxHash(c, txs[j]))
  }

  lemma BothGeneses(
    c: Crypto, script: Script, fund: OutPoint, fund': OutPoint, output: CellOutput, l: Ledger, known: set<Bytes32>)
    returns (g: ResolvedTx, l1: Ledger, g': ResolvedTx, l2: Ledger)
    requires |script.args| == 32 && output.typ == Some(script)
    requires fund != fund' && fund in l && fund' in l && !IsGame(c, script, l[fund]) && !IsGame(c, script, l[fund'])
    requires KnownHashes(l, known)
    requires HashesDiffer(c, [GenesisTx(fund, output), GenesisTx(fund', output)], known)
    ensures g.tx == GenesisTx(fund, output) && g'.tx == GenesisTx(fund', output)
    ensures GameLedgerStep(c, script, l, g, l1) && GenesisCount(c, script, g) == 1 && BatchOf(c, script, g) == []
    ensures GameLedgerStep(c, script, l1, g', l2) && GenesisCount(c, script, g') == 1 && BatchOf(c, script, g') == []
    ensures HoldsGame(l2, OutPoint(TxHash(c, g.tx), 0), output) && HoldsGame(l2, OutPoint(TxHash(c, g'.tx), 0), output)
    ensures KnownHashes(l2, known + {TxHash(c, g.tx)} + {TxHash(c, g'.tx)})
  {
    hide EncodeState, CellVerdict, GenesisCount, BatchOf, Committed, GameLedgerStep;
    assert TxHash(c, [GenesisTx(fund, output), GenesisTx(fund', output)][0]) !in known;
    assert TxHash(c, [GenesisTx(fund, output), GenesisTx(fund', output)][1]) !in known;
    g := GenesisStep(c, script, l, fund, output, known);
    l1 := Committed(c, l, g.tx);
    var first, known' := OutPoint(TxHash(c, g.tx), 0), known + {TxHash(c, g.tx)};
    KnownAfter(c, l, g, known);
    CommittedCells(c, l, g, fund');
    CommittedCells(c, l, g, first);
    g' := GenesisStep(c, script, l1, fund', output, known');
    l2 := Committed(c, l1, g'.tx);
    KnownAfter(c, l1, g', known');
    CommittedCells(c, l1, g', first);
    CommittedCells(c, l1, g', OutPoint(TxHash(c, g'.tx), 0));
  }

  /** The outpoint is live and holds the empty game. */
  ghost predicate HoldsGame(l: Ledger, k: OutPoint, output: CellOutput) {
    k in l && l[k] == GameCellOf(output, EMPTY_BOARD)
  }

  lemma BothBatches(
    c: Crypto, script: Script, first: OutPoint, second: OutPoint, output: CellOutput, ms: seq<Intent>,
    auth: Option<Bytes>, l: Ledger, known: set<Bytes32>)
    returns (t: ResolvedTx, l1: Ledger, t': ResolvedTx, l2: Ledger)
    requires |script.args| == 32 && output.typ == Some(script)
    requires AllSigned(c, script.args, ms) && |ms| <= MAX_U16 && Transition(EMPTY_BOARD, ms).Ok?
    requires first != second && HoldsGame(l, first, output) && HoldsGame(l, second, output)
    requires KnownHashes(l, known)
    requires HashesDiffer(c, [BatchOn(first, output, ms, auth), BatchOn(second, output, ms, auth)], known)
    ensures t.tx == BatchOn(first, output, ms, auth) && t'.tx == BatchOn(second, output, ms, auth)
    ensures GameLedgerStep(c, script, l, t, l1) && GenesisCount(c, script, t) == 0 && BatchOf(c, script, t) == ms
    ensures GameLedgerStep(c, script, l1, t', l2) && GenesisCount(c, script, t') == 0 && BatchOf(c, script, t') == ms
  {
    hide EncodeState, CellVerdict, GenesisCount, BatchOf, Committed, GameLedgerStep, AllSigned, Transition;
    var txs := [BatchOn(first, output, ms, auth), BatchOn(second, output, ms, auth)];
    assert TxHash(c, txs[0]) !in known && TxHash(c, txs[1]) !in known;
    t := BatchStep(c, script, l, first, output, ms, auth, known);
    l1 := Committed(c, l, t.tx);
    KnownAfter(c, l, t, known);
    CommittedCells(c, l, t, second);
    t' := BatchStep(c, script, l1, second, output, ms, auth, known + {TxHash(c, t.tx)});
    l2 := Committed(c, l1, t'.tx);
  }

  /** The input on which a signed move counts twice: two geneses of one game id, paid
      from two plain cells, then the same signed batch on the cell of each. The ledger
      commits all four, every move of the batch is accepted twice, and both cells are
      live. */
  lemma TwoGenesesReplay(
    c: Crypto, script: Script, fund: OutPoint, fund': OutPoint, plain: Cell, output: CellOutput,
    ms: seq<Intent>, auth: Option<Bytes>)
    returns (ledgers: seq<Ledger>, steps: seq<ResolvedTx>)
    requires |script.args| == 32 && output.typ == Some(script)
    requires fund != fund' && !IsGame(c, script, plain)
    requires AllSigned(c, script.args, ms) && |ms| <= MAX_U16 && Transition(EMPTY_BOARD, ms).Ok?
    requires var txs := TwoGenesesTxs(c, fund, fund', output, ms, auth);
      && (forall i :: 0 <= i < 4 ==> TxHash(c, txs[i]) != fund.txHash && TxHash(c, txs[i]) != fund'.txHash)
      && (forall i, j :: 0 <= i < j < 4 ==> TxHash(c, txs[i]) != TxHash(c, txs[j]))
    ensures LedgerRun(c, script, ledgers, steps) && |steps| == 4
    ensures forall i :: 0 <= i < 4 ==> steps[i].tx == TwoGenesesTxs(c, fund, fund', output, ms, auth)[i]
    ensures LiveGames(c, script, ledgers[0]) == 0 && LiveGames(c, script, ledgers[4]) == 2
    ensures MovesCommitted(c, script, steps) == ms + ms
  {
    hide EncodeState, CellVerdict, GenesisCount, BatchOf, Committed, GameLedgerStep, AllSigned, Transition, GenesisTx;
    hide BatchOn;
    var txs := TwoGenesesTxs(c, fund, fund', output, ms, auth);
    var l, known := map[fund := plain, fund' := plain], {fund.txHash, fund'.txHash};
    assert HashesDiffer(c, [txs[0], txs[1]], known);
    var g, l1, g', l2 := BothGeneses(c, script, fund, fund', output, l, known);
    known := known + {TxHash(c, g.tx)} + {TxHash(c, g'.tx)};
    assert TxHash(c, txs[0]) != TxHash(c, txs[1]) && HashesDiffer(c, [txs[2], txs[3]], known);
    var t, l3, t', l4 := BothBatches(
      c, script, OutPoint(TxHash(c, g.tx), 0), OutPoint(TxHash(c, g'.tx), 0), output, ms, auth, l2, known);
    ledgers, steps := [l, l1, l2, l3, l4], [g, g', t, t'];
    FourSteps(c, script, ledgers, steps, ms);
    NoGames(c, script, l);
  }

  lemma FourSteps(c: Crypto, script: Script, ledgers: seq<Ledger>, steps: seq<ResolvedTx>, ms: seq<Intent>)
    requires |ledgers| == 5 && |steps| == 4
    requires forall i :: 0 <= i < 4 ==> LedgerStepAt(c, script, ledgers, steps, i)
    requires GenesisCount(c, script, steps[0]) == GenesisCount(c, script, steps[1]) == 1
    requires GenesisCount(c, script, steps[2]) == GenesisCount(c, script, steps[3]) == 0
    requires BatchOf(c, script, steps[0]) == [] && BatchOf(c, script, steps[1]) == []
    requires BatchOf(c, script, steps[2]) == ms && BatchOf(c, script, steps[3]) == ms
    ensures LedgerRun(c, script, ledgers, steps)
    ensures LiveGames(c, script, ledgers[4]) == LiveGames(c, script, ledgers[0]) + 2
    ensures MovesCommitted(c, script, steps) == ms + ms
  {
    hide GenesisCount, BatchOf;
    RunCount(c, script, ledgers, steps, 4);
    for i := 0 to 4
      invariant Geneses(c, script, steps[..i]) == if i < 2 then i else 2
      invariant MovesCommitted(c, script, steps[..i]) == if i < 3 then [] else if i == 3 then ms else ms + ms
    {
      assert steps[..i + 1][..i] == steps[..i];
      GenesesSnoc(c, script, steps, i);
    }
    assert steps[..4] == steps;
  }
}
