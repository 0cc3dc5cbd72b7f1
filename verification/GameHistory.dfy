/**
 The game over whole runs from genesis: what every reachable board satisfies, why
 the one-directional comparison is exact on it, that the board is the replay of
 every intent ever accepted, and that none of them was accepted twice.
 */
module GameHistory {
  import opened Prelude
  import opened Chain
  import opened GameRules
  import opened GameOrder
  import opened GameCodec
  import opened GameCell

  // ---- Board invariant ------------------------------------------------------

  function Nonces(): PlayerEntry -> nat {
    (p: PlayerEntry) => p.nonce
  }

  function NonceSum(players: seq<PlayerEntry>): nat {
    SumOf(Nonces(), players)
  }

  ghost predicate ScoresBounded(players: seq<PlayerEntry>) {
    forall p :: p in players ==> p.score <= MAX_POINTS_PER_MOVE * p.nonce
  }

  /** Distinct players, a sequence number equal to the number of moves the nonces
      account for, and no more points than those moves can carry. */
  ghost predicate Sound(b: Board) {
    && DistinctPlayers(b.players)
    && b.sequence == NonceSum(b.players)
    && ScoresBounded(b.players)
  }

  lemma NonceWithinSum(players: seq<PlayerEntry>, k: nat)
    requires k < |players|
    ensures players[k].nonce <= NonceSum(players)
  {
    SumOfRemove(Nonces(), players, k);
  }

  lemma UpdateNonceSum(players: seq<PlayerEntry>, k: nat, entry: PlayerEntry)
    requires k < |players|
    ensures NonceSum(players[k := entry]) == NonceSum(players) - players[k].nonce + entry.nonce
  {
    var after := players[k := entry];
    SumOfRemove(Nonces(), players, k);
    SumOfRemove(Nonces(), after, k);
    assert after[..k] == players[..k] && after[k + 1..] == players[k + 1..];
  }

  lemma AppendNonceSum(players: seq<PlayerEntry>, entry: PlayerEntry)
    ensures NonceSum(players + [entry]) == NonceSum(players) + entry.nonce
  {
    SumOfConcat(Nonces(), players, [entry]);
    assert [entry][1..] == [];
    assert SumOf(Nonces(), [entry]) == entry.nonce;
  }

  /** A move adds one to the nonce total and keeps scores within their nonces. */
  lemma MoveKeepsSound(players: seq<PlayerEntry>, m: Intent)
    requires ScoresBounded(players) && Move(players, m).Ok?
    ensures ScoresBounded(Move(players, m).value)
    ensures NonceSum(Move(players, m).value) == NonceSum(players) + 1
  {
    var entry := PlayerMove(Lookup(players, m.hash), m).value;
    var k := Find(players, m.hash);
    MoveKeepsHash(Lookup(players, m.hash), m);
    if k < |players| {
      assert players[k] in players;
      assert entry.score <= MAX_POINTS_PER_MOVE * entry.nonce;
      UpdateNonceSum(players, k, entry);
      forall p | p in players[k := entry]
        ensures p.score <= MAX_POINTS_PER_MOVE * p.nonce
      {
        assert p == entry || p in players;
      }
    } else {
      AppendNonceSum(players, entry);
    }
  }

  lemma {:induction false} ReplayKeepsSound(players: seq<PlayerEntry>, ms: seq<Intent>)
    requires ScoresBounded(players) && Replay(players, ms).error.None?
    ensures ScoresBounded(Replay(players, ms).players)
    ensures NonceSum(Replay(players, ms).players) == NonceSum(players) + |ms|
    decreases |ms|
  {
    if ms != [] {
      MoveKeepsSound(players, ms[0]);
      ReplayKeepsSound(Move(players, ms[0]).value, ms[1..]);
    }
  }

  lemma TransitionKeepsSound(b: Board, ms: seq<Intent>)
    requires Sound(b) && Transition(b, ms).Ok?
    ensures Sound(Transition(b, ms).value)
  {
    ReplayKeepsSound(b.players, ms);
    ReplayKeepsDistinct(b.players, ms);
  }

  /** A sound board cannot overflow on a move while 1000 points for every move so
      far and this one still fit. */
  lemma SoundMoveNeverOverflows(players: seq<PlayerEntry>, m: Intent)
    requires ScoresBounded(players)
    requires MAX_POINTS_PER_MOVE * (NonceSum(players) + 1) <= MAX_U64
    ensures Move(players, m) != Err(Overflow)
  {
    var k := Find(players, m.hash);
    if k < |players| {
      NonceWithinSum(players, k);
      assert players[k] in players;
    }
  }

  lemma {:induction false} SoundReplayNeverOverflows(players: seq<PlayerEntry>, ms: seq<Intent>)
    requires ScoresBounded(players)
    requires MAX_POINTS_PER_MOVE * (NonceSum(players) + |ms|) <= MAX_U64
    ensures Replay(players, ms).error != Some(Overflow)
    decreases |ms|
  {
    if ms != [] {
      SoundMoveNeverOverflows(players, ms[0]);
      if Move(players, ms[0]).Ok? {
        MoveKeepsSound(players, ms[0]);
        SoundReplayNeverOverflows(Move(players, ms[0]).value, ms[1..]);
      }
    }
  }

  /** From a sound board, no batch of n moves reports an overflow while
      1000 (sequence + n) fits in 64 bits. */
  lemma SoundBatchNeverOverflows(b: Board, ms: seq<Intent>)
    requires Sound(b)
    requires MAX_POINTS_PER_MOVE * (b.sequence + |ms|) <= MAX_U64
    ensures Transition(b, ms) != Err(Overflow)
  {
    SoundReplayNeverOverflows(b.players, ms);
  }

  // ---- Boards up to player order --------------------------------------------

  lemma SameBoardDistinct(a: Board, b: Board)
    requires DistinctPlayers(a.players) && SameBoard(a, b)
    ensures DistinctPlayers(b.players)
    ensures forall h: Bytes20 :: Lookup(a.players, h) == Lookup(b.players, h)
  {
    PermutationPasses(a, b);
    DistinctNoDuplicates(a.players);
    Pigeonhole(a.players, b.players);
    forall i, j | 0 <= i < j < |b.players|
      ensures b.players[i].hash != b.players[j].hash
    {
      InSameBoard(a, b, b.players[i]);
      InSameBoard(a, b, b.players[j]);
    }
    forall h: Bytes20
      ensures Lookup(a.players, h) == Lookup(b.players, h)
    {
      var la, lb := Lookup(a.players, h), Lookup(b.players, h);
      if la.Some? {
        InSameBoard(a, b, la.value);
        LookupDistinct(b.players, la.value);
      }
      if lb.Some? {
        InSameBoard(a, b, lb.value);
        LookupDistinct(a.players, lb.value);
      }
    }
  }

  lemma InSameBoard(a: Board, b: Board, p: PlayerEntry)
    requires SameBoard(a, b)
    ensures p in a.players <==> p in b.players
  {
    assert p in multiset(a.players) <==> p in multiset(b.players);
  }

  lemma SameBoardSound(a: Board, b: Board)
    requires Sound(a) && SameBoard(a, b)
    ensures Sound(b)
  {
    SameBoardDistinct(a, b);
    SumOfPermutation(Nonces(), a.players, b.players);
    forall p | p in b.players
      ensures p.score <= MAX_POINTS_PER_MOVE * p.nonce
    {
      InSameBoard(a, b, p);
    }
  }

  /** A batch cannot tell two permutations of a board apart. */
  lemma SameBoardTransition(a: Board, b: Board, ms: seq<Intent>)
    requires DistinctPlayers(a.players) && SameBoard(a, b)
    ensures Transition(a, ms).Ok? <==> Transition(b, ms).Ok?
    ensures Transition(a, ms).Ok? ==> SameBoard(Transition(a, ms).value, Transition(b, ms).value)
  {
    SameBoardDistinct(a, b);
    BatchAcceptedExact(a, ms);
    BatchAcceptedExact(b, ms);
    if Transition(a, ms).Ok? {
      forall h: Bytes20
        ensures Lookup(Transition(a, ms).value.players, h) == Lookup(Transition(b, ms).value.players, h)
      {
        ReplayPerPlayer(a.players, ms, h);
        ReplayPerPlayer(b.players, ms, h);
      }
      ReplayKeepsDistinct(a.players, ms);
      ReplayKeepsDistinct(b.players, ms);
      SameEntries(Transition(a, ms).value.players, Transition(b, ms).value.players);
    }
  }

  // ---- Plays: boards and batches --------------------------------------------

  /** A step as the board sees it: the moves played and the board they left. */
  datatype Played = Played(moves: seq<Intent>, board: Board)

  ghost function BoardAfter(play: seq<Played>): Board {
    if play == [] then EMPTY_BOARD else play[|play| - 1].board
  }

  ghost function MovesPlayed(play: seq<Played>): seq<Intent>
    decreases |play|
  {
    if play == [] then [] else MovesPlayed(play[..|play| - 1]) + play[|play| - 1].moves
  }

  /** The rule applies, and the comparison passes against the board left. */
  ghost predicate Follows(before: Board, step: Played) {
    Transition(before, step.moves).Ok? && EqualsUnordered(Transition(before, step.moves).value, step.board)
  }

  /** A play from the empty board. */
  ghost predicate Legal(play: seq<Played>)
    decreases |play|
  {
    var n := |play| - 1;
    n < 0 || (Legal(play[..n]) && Follows(BoardAfter(play[..n]), play[n]))
  }

  ghost predicate LegalAt(play: seq<Played>, i: nat) {
    i < |play| && Follows(BoardAfter(play[..i]), play[i])
  }

  ghost predicate SignedAt(c: Crypto, gameId: Bytes32, play: seq<Played>, i: nat) {
    i < |play| && AllSigned(c, gameId, play[i].moves)
  }

  lemma {:induction false} LegalPrefix(play: seq<Played>, at: nat)
    requires at <= |play| && forall i :: 0 <= i < |play| ==> LegalAt(play, i)
    ensures Legal(play[..at])
  {
    if at > 0 {
      LegalPrefix(play, at - 1);
      assert play[..at][..at - 1] == play[..at - 1];
      assert LegalAt(play, at - 1);
    }
  }

  lemma {:induction false} SignedPrefix(c: Crypto, gameId: Bytes32, play: seq<Played>, at: nat)
    requires at <= |play| && forall i :: 0 <= i < |play| ==> SignedAt(c, gameId, play, i)
    ensures AllSigned(c, gameId, MovesPlayed(play[..at]))
  {
    if at > 0 {
      SignedPrefix(c, gameId, play, at - 1);
      assert play[..at][..at - 1] == play[..at - 1];
      assert SignedAt(c, gameId, play, at - 1);
    }
  }

  lemma FollowsKeepsSound(before: Board, step: Played)
    requires Sound(before) && Follows(before, step)
    ensures SameBoard(Transition(before, step.moves).value, step.board)
    ensures Sound(step.board)
  {
    var derived := Transition(before, step.moves).value;
    TransitionKeepsSound(before, step.moves);
    ComparisonExactWhenDistinct(derived, step.board);
    SameBoardSound(derived, step.board);
  }

  /** Every board reached in play is sound. */
  lemma {:induction false} PlaySound(play: seq<Played>)
    requires Legal(play)
    ensures Sound(BoardAfter(play))
    decreases |play|
  {
    if play != [] {
      PlaySound(play[..|play| - 1]);
      FollowsKeepsSound(BoardAfter(play[..|play| - 1]), play[|play| - 1]);
    }
  }

  /** The board reached is, up to player order, the rule applied to the empty board
      and every move played. */
  lemma {:induction false} PlayIsReplay(play: seq<Played>)
    requires Legal(play)
    ensures Transition(EMPTY_BOARD, MovesPlayed(play)).Ok?
    ensures SameBoard(Transition(EMPTY_BOARD, MovesPlayed(play)).value, BoardAfter(play))
    decreases |play|
  {
    if play != [] {
      var shorter, last := play[..|play| - 1], play[|play| - 1];
      PlayIsReplay(shorter);
      PlaySound(shorter);
      FollowsKeepsSound(BoardAfter(shorter), last);
      ExtendReplay(MovesPlayed(shorter), last.moves, BoardAfter(shorter), last.board);
    }
  }

  /** One more batch on a board that is a replay of `history`. */
  lemma ExtendReplay(history: seq<Intent>, ms: seq<Intent>, before: Board, after: Board)
    requires Transition(EMPTY_BOARD, history).Ok?
    requires SameBoard(Transition(EMPTY_BOARD, history).value, before)
    requires Transition(before, ms).Ok? && SameBoard(Transition(before, ms).value, after)
    ensures Transition(EMPTY_BOARD, history + ms).Ok?
    ensures SameBoard(Transition(EMPTY_BOARD, history + ms).value, after)
  {
    ReplayKeepsDistinct([], history);
    SameBoardTransition(Transition(EMPTY_BOARD, history).value, before, ms);
    BatchingTransparent(EMPTY_BOARD, history, ms);
  }

  /** Nonces 1, 2, 3, … in order. */
  ghost predicate NoncesFromOne(ms: seq<Intent>) {
    forall i :: 0 <= i < |ms| ==> ms[i].nonce == i + 1
  }

  /** What a board that replays `history` from empty says about one player. */
  lemma ReplayFromEmpty(history: seq<Intent>, final: Board, h: Bytes20)
    requires Transition(EMPTY_BOARD, history).Ok?
    requires SameBoard(Transition(EMPTY_BOARD, history).value, final)
    ensures NoncesFromOne(MovesOf(history, h))
    ensures Advanced(None, MovesOf(history, h), h, Lookup(final.players, h))
    ensures final.sequence == |history|
  {
    ReplayKeepsDistinct([], history);
    SameBoardDistinct(Transition(EMPTY_BOARD, history).value, final);
    EntryAfterBatch(EMPTY_BOARD, history, h);
  }

  /** An accepted intent's nonce is its place among its player's intents. */
  lemma NonceIsPlace(history: seq<Intent>, j: nat)
    requires j < |history|
    requires NoncesFromOne(MovesOf(history, history[j].hash))
    ensures history[j].nonce == |MovesOf(history[..j], history[j].hash)| + 1
  {
    var h := history[j].hash;
    var before, rest := history[..j], history[j + 1..];
    assert history == before + ([history[j]] + rest);
    MovesOfConcat(before, [history[j]] + rest, h);
    assert ([history[j]] + rest)[1..] == rest;
    assert MovesOf([history[j]] + rest, h) == [history[j]] + MovesOf(rest, h);
    assert MovesOf(history, h)[|MovesOf(before, h)|] == history[j];
  }

  lemma SamePlayerDistinctNonces(history: seq<Intent>, i: nat, j: nat)
    requires i < j < |history| && history[i].hash == history[j].hash
    requires NoncesFromOne(MovesOf(history, history[j].hash))
    ensures history[i].nonce < history[j].nonce
  {
    var h := history[j].hash;
    NonceIsPlace(history, i);
    NonceIsPlace(history, j);
    assert history[..j] == history[..i] + history[i..j];
    MovesOfConcat(history[..i], history[i..j], h);
    assert history[i..j][0] == history[i];
    assert |MovesOf(history[i..j], h)| >= 1;
  }

  /** A step leaves the entry of every player who does not move in it. */
  lemma FollowsTouchesOnlyMovers(before: Board, step: Played, h: Bytes20)
    requires Sound(before) && Follows(before, step)
    requires forall m :: m in step.moves ==> m.hash != h
    ensures Lookup(step.board.players, h) == Lookup(before.players, h)
  {
    FollowsKeepsSound(before, step);
    TransitionKeepsSound(before, step.moves);
    EntryAfterBatch(before, step.moves, h);
    NoMovesOf(step.moves, h);
    SameBoardDistinct(Transition(before, step.moves).value, step.board);
  }

  /** The board step `i` of a play starts from. */
  ghost function BoardBefore(play: seq<Played>, i: nat): Board
    requires i <= |play|
  {
    if i == 0 then EMPTY_BOARD else play[i - 1].board
  }

  lemma PlayTouchesOnlyMovers(play: seq<Played>, at: nat, h: Bytes20)
    requires 0 < at <= |play| && Legal(play[..at])
    requires forall m :: m in play[at - 1].moves ==> m.hash != h
    ensures Lookup(BoardBefore(play, at).players, h) == Lookup(BoardBefore(play, at - 1).players, h)
  {
    assert play[..at][..at - 1] == play[..at - 1];
    PlaySound(play[..at - 1]);
    FollowsTouchesOnlyMovers(BoardAfter(play[..at - 1]), play[at - 1], h);
  }

  lemma {:induction false} NoMovesOf(ms: seq<Intent>, h: Bytes20)
    requires forall m :: m in ms ==> m.hash != h
    ensures MovesOf(ms, h) == []
  {
    if ms != [] {
      assert ms[0] in ms;
      NoMovesOf(ms[1..], h);
    }
  }

  // ---- Accepted transactions ------------------------------------------------

  /** The board a cell's data holds. */
  function BoardOf(cell: Cell): Board {
    var b := DecodeState(cell.data);
    if b.Ok? then b.value else EMPTY_BOARD
  }

  /** The game cell a transaction spends, if it spends exactly one. */
  function CellIn(c: Crypto, script: Script, rtx: ResolvedTx): Option<Cell> {
    var ins := TypeGroupIn(c, rtx, script);
    if |ins| == 1 then
      assert ins[0] in ins;
      Some(rtx.spent[ins[0]])
    else None
  }

  /** The game cell a transaction creates, if it creates exactly one. */
  function CellOut(c: Crypto, script: Script, rtx: ResolvedTx): Option<Cell> {
    var outs := TypeGroupOut(c, rtx, script);
    if |outs| == 1 then
      assert outs[0] in outs;
      Some(rtx.tx.raw.outputs[outs[0]])
    else None
  }

  function BoardIn(c: Crypto, script: Script, rtx: ResolvedTx): Board {
    var cell := CellIn(c, script, rtx);
    if cell.Some? then BoardOf(cell.value) else EMPTY_BOARD
  }

  function BoardOut(c: Crypto, script: Script, rtx: ResolvedTx): Board {
    var cell := CellOut(c, script, rtx);
    if cell.Some? then BoardOf(cell.value) else EMPTY_BOARD
  }

  /** The intents a step carried. */
  function BatchOf(c: Crypto, script: Script, rtx: ResolvedTx): seq<Intent> {
    var ins := TypeGroupIn(c, rtx, script);
    if ins == [] then []
    else
      var b := WitnessBatch(rtx, ins[0]);
      if b.Ok? then b.value else []
  }

  /** The type script let through a transaction that creates the game cell. */
  ghost predicate AcceptedGenesis(c: Crypto, script: Script, rtx: ResolvedTx) {
    CellVerdict(c, rtx, script).Ok? && CellIn(c, script, rtx).None?
  }

  /** The type script let through a transaction that advances the game cell. */
  ghost predicate AcceptedStep(c: Crypto, script: Script, rtx: ResolvedTx) {
    CellVerdict(c, rtx, script).Ok? && CellIn(c, script, rtx).Some?
  }

  lemma GenesisIsEmpty(c: Crypto, script: Script, rtx: ResolvedTx)
    requires AcceptedGenesis(c, script, rtx)
    ensures |script.args| == 32 && CellOut(c, script, rtx).Some?
    ensures BoardOut(c, script, rtx) == EMPTY_BOARD
  {
  }

  lemma StepFollows(c: Crypto, script: Script, rtx: ResolvedTx)
    requires AcceptedStep(c, script, rtx)
    ensures |script.args| == 32 && CellOut(c, script, rtx).Some?
    ensures AllSigned(c, script.args, BatchOf(c, script, rtx))
    ensures Follows(BoardIn(c, script, rtx), Played(BatchOf(c, script, rtx), BoardOut(c, script, rtx)))
  {
  }

  /** On a sound board the script accepts exactly the steps whose intents are all
      signed and apply, and whose output is a permutation of the board they lead to. */
  lemma StepAcceptedExact(c: Crypto, script: Script, rtx: ResolvedTx)
    requires |script.args| == 32
    requires CellIn(c, script, rtx).Some? && CellOut(c, script, rtx).Some?
    requires DecodeState(CellIn(c, script, rtx).value.data).Ok? && Sound(BoardIn(c, script, rtx))
    ensures CellVerdict(c, rtx, script).Ok? <==>
      (&& DecodeState(CellOut(c, script, rtx).value.data).Ok?
       && WitnessBatch(rtx, TypeGroupIn(c, rtx, script)[0]).Ok?
       && (forall m :: m in BatchOf(c, script, rtx) ==>
             c.sigOk(m.sig, c.blake2b(INTENT_DOMAIN + script.args + m.hash + LE64(m.points) + LE64(m.nonce)), m.hash))
       && Transition(BoardIn(c, script, rtx), BatchOf(c, script, rtx)).Ok?
       && SameBoard(Transition(BoardIn(c, script, rtx), BatchOf(c, script, rtx)).value, BoardOut(c, script, rtx)))
  {
    var before, ms := BoardIn(c, script, rtx), BatchOf(c, script, rtx);
    if Transition(before, ms).Ok? {
      TransitionKeepsSound(before, ms);
      ComparisonExactWhenDistinct(Transition(before, ms).value, BoardOut(c, script, rtx));
    }
  }

  /** The batch is the one in the witness at the game cell's own input index, wherever
      that is, and nothing in the other witnesses matters. */
  lemma BatchAtOwnInput(c: Crypto, script: Script, rtx: ResolvedTx, at: nat, args: WitnessArgs, ms: seq<Intent>)
    requires |script.args| == 32
    requires TypeGroupIn(c, rtx, script) == [at] && at < |rtx.spent| && CellOut(c, script, rtx).Some?
    requires at < |rtx.tx.witnesses| && rtx.tx.witnesses[at] == Structured(args)
    requires args.inputType == Some(EncodeBatch(ms)) && |ms| <= MAX_U16
    requires DecodeState(rtx.spent[at].data).Ok? && Sound(BoardOf(rtx.spent[at]))
    ensures CellVerdict(c, rtx, script).Ok? <==>
      (&& DecodeState(CellOut(c, script, rtx).value.data).Ok?
       && (forall m :: m in ms ==>
             c.sigOk(m.sig, c.blake2b(INTENT_DOMAIN + script.args + m.hash + LE64(m.points) + LE64(m.nonce)), m.hash))
       && Transition(BoardOf(rtx.spent[at]), ms).Ok?
       && SameBoard(Transition(BoardOf(rtx.spent[at]), ms).value, BoardOut(c, script, rtx)))
    ensures BatchOf(c, script, rtx) == ms
  {
    BatchRoundTripExact(ms);
    assert BatchOf(c, script, rtx) == ms;
    StepAcceptedExact(c, script, rtx);
  }

  // ---- Runs -----------------------------------------------------------------

  /** `next` advances a cell with the contents `previous` left. */
  ghost predicate Linked(c: Crypto, script: Script, previous: ResolvedTx, next: ResolvedTx) {
    AcceptedStep(c, script, next) && CellIn(c, script, next) == CellOut(c, script, previous)
  }

  ghost predicate LinkedAt(c: Crypto, script: Script, txs: seq<ResolvedTx>, i: nat) {
    0 < i < |txs| && Linked(c, script, txs[i - 1], txs[i])
  }

  /** A genesis followed by steps, each from what the last one left. */
  ghost predicate GameRun(c: Crypto, script: Script, txs: seq<ResolvedTx>) {
    && txs != []
    && AcceptedGenesis(c, script, txs[0])
    && forall i :: 0 < i < |txs| ==> LinkedAt(c, script, txs, i)
  }

  function StepOf(c: Crypto, script: Script, rtx: ResolvedTx): Played {
    Played(BatchOf(c, script, rtx), BoardOut(c, script, rtx))
  }

  /** The steps after genesis as a play. */
  ghost function PlayOf(c: Crypto, script: Script, txs: seq<ResolvedTx>): (play: seq<Played>)
    requires txs != []
    ensures |play| == |txs| - 1
  {
    seq(|txs| - 1, i requires 0 <= i < |txs| - 1 => StepOf(c, script, txs[i + 1]))
  }

  /** Every intent accepted by `txs[1]` to `txs[at]`, in order. */
  ghost function Accepted(c: Crypto, script: Script, txs: seq<ResolvedTx>, at: nat): seq<Intent>
    requires at < |txs|
  {
    MovesPlayed(PlayOf(c, script, txs)[..at])
  }

  lemma LinkFollows(c: Crypto, script: Script, txs: seq<ResolvedTx>, i: nat)
    requires GameRun(c, script, txs) && 0 < i < |txs|
    ensures |script.args| == 32 && AllSigned(c, script.args, BatchOf(c, script, txs[i]))
    ensures Follows(BoardOut(c, script, txs[i - 1]), StepOf(c, script, txs[i]))
  {
    assert LinkedAt(c, script, txs, i);
    StepFollows(c, script, txs[i]);
  }

  /** The board a run has reached is the board its play has reached. */
  lemma RunReaches(c: Crypto, script: Script, txs: seq<ResolvedTx>, at: nat)
    requires GameRun(c, script, txs) && at < |txs|
    ensures |script.args| == 32
    ensures BoardAfter(PlayOf(c, script, txs)[..at]) == BoardOut(c, script, txs[at])
  {
    GenesisIsEmpty(c, script, txs[0]);
  }

  lemma StepIsPlayed(c: Crypto, script: Script, txs: seq<ResolvedTx>, i: nat)
    requires GameRun(c, script, txs) && i + 1 < |txs|
    ensures |script.args| == 32
    ensures LegalAt(PlayOf(c, script, txs), i) && SignedAt(c, script.args, PlayOf(c, script, txs), i)
  {
    LinkFollows(c, script, txs, i + 1);
    RunReaches(c, script, txs, i);
    assert PlayOf(c, script, txs)[i] == StepOf(c, script, txs[i + 1]);
  }

  /** Every accepted run is a legal play of signed moves. */
  lemma RunIsPlay(c: Crypto, script: Script, txs: seq<ResolvedTx>, at: nat)
    requires GameRun(c, script, txs) && at < |txs|
    ensures Legal(PlayOf(c, script, txs)[..at])
    ensures |script.args| == 32 && AllSigned(c, script.args, Accepted(c, script, txs, at))
  {
    GenesisIsEmpty(c, script, txs[0]);
    var play := PlayOf(c, script, txs);
    forall i | 0 <= i < |play|
      ensures LegalAt(play, i) && SignedAt(c, script.args, play, i)
    {
      StepIsPlayed(c, script, txs, i);
    }
    LegalPrefix(play, at);
    SignedPrefix(c, script.args, play, at);
  }

  /** Whole-run invariant: every board reachable from genesis is sound. */
  lemma RunBoardSound(c: Crypto, script: Script, txs: seq<ResolvedTx>, at: nat)
    requires GameRun(c, script, txs) && at < |txs|
    ensures Sound(BoardOut(c, script, txs[at]))
  {
    RunIsPlay(c, script, txs, at);
    RunReaches(c, script, txs, at);
    PlaySound(PlayOf(c, script, txs)[..at]);
  }

  /** At every point of a run, passing the comparison means being a permutation of
      the board the rule derives. */
  lemma RunComparisonExact(c: Crypto, script: Script, txs: seq<ResolvedTx>, at: nat, ms: seq<Intent>, claimed: Board)
    requires GameRun(c, script, txs) && at < |txs|
    requires Transition(BoardOut(c, script, txs[at]), ms).Ok?
    ensures EqualsUnordered(Transition(BoardOut(c, script, txs[at]), ms).value, claimed)
      <==> SameBoard(Transition(BoardOut(c, script, txs[at]), ms).value, claimed)
  {
    RunBoardSound(c, script, txs, at);
    TransitionKeepsSound(BoardOut(c, script, txs[at]), ms);
    ComparisonExactWhenDistinct(Transition(BoardOut(c, script, txs[at]), ms).value, claimed);
  }

  /** No reachable board overflows on n more moves while 1000 (sequence + n) fits. */
  lemma RunNeverOverflows(c: Crypto, script: Script, txs: seq<ResolvedTx>, at: nat, ms: seq<Intent>)
    requires GameRun(c, script, txs) && at < |txs|
    requires MAX_POINTS_PER_MOVE * (BoardOut(c, script, txs[at]).sequence + |ms|) <= MAX_U64
    ensures Transition(BoardOut(c, script, txs[at]), ms) != Err(Overflow)
  {
    RunBoardSound(c, script, txs, at);
    SoundBatchNeverOverflows(BoardOut(c, script, txs[at]), ms);
  }

  /** Exact history: the board on chain is, up to player order, the rule applied to
      the empty board and every intent accepted so far, each of them signed. */
  lemma RunIsReplay(c: Crypto, script: Script, txs: seq<ResolvedTx>, at: nat)
    requires GameRun(c, script, txs) && at < |txs|
    ensures |script.args| == 32
    ensures forall m :: m in Accepted(c, script, txs, at) ==>
      c.sigOk(m.sig, c.blake2b(INTENT_DOMAIN + script.args + m.hash + LE64(m.points) + LE64(m.nonce)), m.hash)
    ensures Transition(EMPTY_BOARD, Accepted(c, script, txs, at)).Ok?
    ensures SameBoard(Transition(EMPTY_BOARD, Accepted(c, script, txs, at)).value, BoardOut(c, script, txs[at]))
  {
    RunIsPlay(c, script, txs, at);
    RunReaches(c, script, txs, at);
    PlayIsReplay(PlayOf(c, script, txs)[..at]);
  }

  /** No replay: the intents ever accepted for a player carry the nonces 1, 2, 3, …
      in that order, the player's entry holds exactly their number and their
      points, and a player with none has no entry. */
  lemma RunHasNoReplay(c: Crypto, script: Script, txs: seq<ResolvedTx>, at: nat, h: Bytes20)
    requires GameRun(c, script, txs) && at < |txs|
    ensures NoncesFromOne(MovesOf(Accepted(c, script, txs, at), h))
    ensures Advanced(None, MovesOf(Accepted(c, script, txs, at), h), h, Lookup(BoardOut(c, script, txs[at]).players, h))
    ensures BoardOut(c, script, txs[at]).sequence == |Accepted(c, script, txs, at)|
  {
    RunIsReplay(c, script, txs, at);
    ReplayFromEmpty(Accepted(c, script, txs, at), BoardOut(c, script, txs[at]), h);
  }

  /** So the same move, player and nonce, is never accepted twice. */
  lemma RunAcceptsNothingTwice(c: Crypto, script: Script, txs: seq<ResolvedTx>, at: nat, i: nat, j: nat)
    requires GameRun(c, script, txs) && at < |txs|
    requires i < j < |Accepted(c, script, txs, at)|
    requires Accepted(c, script, txs, at)[i].hash == Accepted(c, script, txs, at)[j].hash
    ensures Accepted(c, script, txs, at)[i].nonce < Accepted(c, script, txs, at)[j].nonce
  {
    RunHasNoReplay(c, script, txs, at, Accepted(c, script, txs, at)[j].hash);
    SamePlayerDistinctNonces(Accepted(c, script, txs, at), i, j);
  }

  lemma RunTouchesOnlyMovers(c: Crypto, script: Script, txs: seq<ResolvedTx>, at: nat, h: Bytes20)
    requires GameRun(c, script, txs) && 0 < at < |txs|
    requires forall m :: m in BatchOf(c, script, txs[at]) ==> m.hash != h
    ensures var play := PlayOf(c, script, txs);
      Lookup(BoardBefore(play, at).players, h) == Lookup(BoardBefore(play, at - 1).players, h)
  {
    RunIsPlay(c, script, txs, at);
    PlayTouchesOnlyMovers(PlayOf(c, script, txs), at, h);
  }

  lemma RunBoard(c: Crypto, script: Script, txs: seq<ResolvedTx>, i: nat)
    requires GameRun(c, script, txs) && i < |txs|
    ensures BoardBefore(PlayOf(c, script, txs), i) == BoardOut(c, script, txs[i])
  {
    GenesisIsEmpty(c, script, txs[0]);
  }

  /** A step of a run leaves the entry of every player it carries no intent for. */
  lemma StepTouchesOnlyMovers(c: Crypto, script: Script, txs: seq<ResolvedTx>, at: nat, h: Bytes20)
    requires GameRun(c, script, txs) && 0 < at < |txs|
    requires forall m :: m in BatchOf(c, script, txs[at]) ==> m.hash != h
    ensures Lookup(BoardOut(c, script, txs[at]).players, h) == Lookup(BoardOut(c, script, txs[at - 1]).players, h)
  {
    hide BoardOut, BatchOf, Lookup, AcceptedGenesis;
    RunTouchesOnlyMovers(c, script, txs, at, h);
    RunBoard(c, script, txs, at - 1);
    RunBoard(c, script, txs, at);
  }

  // ---- Refusals -------------------------------------------------------------

  /** How the type script refuses, in the order it checks. */
  lemma CellRefusals(c: Crypto, script: Script, rtx: ResolvedTx)
    ensures |script.args| != 32 ==> CellVerdict(c, rtx, script) == Err(ArgsLenError)
    ensures |script.args| == 32 && (|TypeGroupOut(c, rtx, script)| != 1 || |TypeGroupIn(c, rtx, script)| > 1) ==>
      CellVerdict(c, rtx, script) == Err(BadTxShape)
    ensures |script.args| == 32 && TypeGroupIn(c, rtx, script) == [] && CellOut(c, script, rtx).Some? ==>
      var state := DecodeState(CellOut(c, script, rtx).value.data);
      CellVerdict(c, rtx, script) ==
        if state.Err? then Err(Rule(StateMalformed))
        else if state.value != EMPTY_BOARD then Err(GenesisNotEmpty)
        else Ok(())
    ensures |script.args| == 32 && CellIn(c, script, rtx).Some? && CellOut(c, script, rtx).Some? ==>
      var at := TypeGroupIn(c, rtx, script)[0];
      var verdict := CellVerdict(c, rtx, script);
      if DecodeState(CellIn(c, script, rtx).value.data).Err? || DecodeState(CellOut(c, script, rtx).value.data).Err?
      then verdict == Err(Rule(StateMalformed))
      else if at >= |rtx.tx.witnesses| then verdict == Err(Sys(IndexOutOfBound))
      else if rtx.tx.witnesses[at].Opaque? then verdict == Err(Sys(Encoding))
      else if rtx.tx.witnesses[at].args.inputType.None? then verdict == Err(BatchMissing)
      else if DecodeBatch(rtx.tx.witnesses[at].args.inputType.value).Err? then verdict == Err(Rule(BatchMalformed))
      else if !AllSigned(c, script.args, BatchOf(c, script, rtx)) then verdict == Err(AuthError)
      else
        var derived := Transition(BoardIn(c, script, rtx), BatchOf(c, script, rtx));
        if derived.Err? then verdict == Err(Rule(derived.error))
        else if !EqualsUnordered(derived.value, BoardOut(c, script, rtx)) then verdict == Err(StateMismatch)
        else verdict == Ok(())
  {
  }
}
