/**
 The game's transition rule: one move, a batch of moves, and the comparison the
 type script uses on the result. `Board` is the value of a game state; the class
 `GameState` is the state the rules update in place.
 */
module GameRules {
  import opened Prelude

  const MAX_POINTS_PER_MOVE: u64 := 1000

  datatype GameError = StateMalformed | BatchMalformed | NonceNotFresh | PointsTooHigh | Overflow

  type Signature = b: Bytes | |b| == 65 witness seq(65, _ => 0)

  datatype PlayerEntry = PlayerEntry(hash: Bytes20, score: u64, nonce: u64)

  datatype Board = Board(sequence: u64, players: seq<PlayerEntry>)

  datatype Intent = Intent(hash: Bytes20, points: u64, nonce: u64, sig: Signature)

  const EMPTY_BOARD: Board := Board(0, [])

  // ---- The rule -------------------------------------------------------------

  /** Index of the first entry of player `h`; the length if there is none. */
  function Find(players: seq<PlayerEntry>, h: Bytes20): (k: nat)
    ensures k <= |players|
    ensures k < |players| ==> players[k].hash == h
    ensures forall i :: 0 <= i < k ==> players[i].hash != h
  {
    if players == [] then 0
    else if players[0].hash == h then 0
    else 1 + Find(players[1..], h)
  }

  function Lookup(players: seq<PlayerEntry>, h: Bytes20): Option<PlayerEntry> {
    var k := Find(players, h);
    if k < |players| then Some(players[k]) else None
  }

  /** A player's entry after one of their moves. */
  function PlayerMove(entry: Option<PlayerEntry>, m: Intent): Result<PlayerEntry, GameError> {
    if m.points > MAX_POINTS_PER_MOVE then Err(PointsTooHigh)
    else
      match entry
      case Some(p) =>
        if p.nonce == MAX_U64 then Err(Overflow)
        else if m.nonce != p.nonce + 1 then Err(NonceNotFresh)
        else if p.score + m.points > MAX_U64 then Err(Overflow)
        else Ok(PlayerEntry(p.hash, p.score + m.points, m.nonce))
      case None =>
        if m.nonce != 1 then Err(NonceNotFresh)
        else Ok(PlayerEntry(m.hash, m.points, 1))
  }

  function Place(players: seq<PlayerEntry>, entry: PlayerEntry): seq<PlayerEntry> {
    var k := Find(players, entry.hash);
    if k < |players| then players[k := entry] else players + [entry]
  }

  function Move(players: seq<PlayerEntry>, m: Intent): Result<seq<PlayerEntry>, GameError> {
    var entry :- PlayerMove(Lookup(players, m.hash), m);
    Ok(Place(players, entry))
  }

  /** The players after as many of the moves as apply, and what stopped them. */
  datatype Replayed = Replayed(players: seq<PlayerEntry>, error: Option<GameError>)

  function Replay(players: seq<PlayerEntry>, ms: seq<Intent>): Replayed
    decreases |ms|
  {
    if ms == [] then Replayed(players, None)
    else
      match Move(players, ms[0])
      case Err(e) => Replayed(players, Some(e))
      case Ok(next) => Replay(next, ms[1..])
  }

  /** A whole batch: every move applies and the sequence number fits. */
  function Transition(b: Board, ms: seq<Intent>): Result<Board, GameError> {
    var r := Replay(b.players, ms);
    if r.error.Some? then Err(r.error.value)
    else if b.sequence + |ms| > MAX_U64 then Err(Overflow)
    else Ok(Board(b.sequence + |ms|, r.players))
  }

  lemma {:induction false} ReplayConcat(players: seq<PlayerEntry>, xs: seq<Intent>, ys: seq<Intent>)
    ensures var r := Replay(players, xs);
      Replay(players, xs + ys) == if r.error.Some? then r else Replay(r.players, ys)
    decreases |xs|
  {
    if xs == [] {
      assert xs + ys == ys;
    } else {
      assert (xs + ys)[1..] == xs[1..] + ys;
      if Move(players, xs[0]).Ok? {
        ReplayConcat(Move(players, xs[0]).value, xs[1..], ys);
      }
    }
  }

  lemma ReplaySnoc(players: seq<PlayerEntry>, xs: seq<Intent>, m: Intent)
    requires Replay(players, xs).error.None?
    ensures var before := Replay(players, xs).players;
      Replay(players, xs + [m]) ==
        match Move(before, m) { case Ok(after) => Replayed(after, None) case Err(e) => Replayed(before, Some(e)) }
  {
    ReplayConcat(players, xs, [m]);
    assert [m][1..] == [];
  }

  // ---- Comparison -----------------------------------------------------------

  /** The type script's comparison: every entry of `a` occurs in `b`, and the
      sizes and sequence numbers agree. */
  predicate EqualsUnordered(a: Board, b: Board) {
    && a.sequence == b.sequence
    && |a.players| == |b.players|
    && forall p :: p in a.players ==> p in b.players
  }

  ghost predicate SameBoard(a: Board, b: Board) {
    a.sequence == b.sequence && multiset(a.players) == multiset(b.players)
  }

  // ---- State updated in place -----------------------------------------------

  class GameState {
    var sequence: u64
    var players: seq<PlayerEntry>

    constructor (b: Board)
      ensures Value() == b
    {
      sequence, players := b.sequence, b.players;
    }

    function Value(): Board
      reads this
    {
      Board(sequence, players)
    }

    /** One move; on an error the state is untouched. */
    method ApplyIntent(m: Intent) returns (r: Result<(), GameError>)
      modifies this
      ensures sequence == old(sequence)
      ensures match Move(old(players), m)
        case Ok(after) => r.Ok? && players == after
        case Err(e) => r == Err(e) && players == old(players)
    {
      if m.points > MAX_POINTS_PER_MOVE {
        return Err(PointsTooHigh);
      }
      var k := Find(players, m.hash);
      if k < |players| {
        var p := players[k];
        if p.nonce == MAX_U64 {
          return Err(Overflow);
        }
        if m.nonce != p.nonce + 1 {
          return Err(NonceNotFresh);
        }
        if p.score + m.points > MAX_U64 {
          return Err(Overflow);
        }
        players := players[k := PlayerEntry(p.hash, p.score + m.points, m.nonce)];
      } else {
        if m.nonce != 1 {
          return Err(NonceNotFresh);
        }
        players := players + [PlayerEntry(m.hash, m.points, 1)];
      }
      r := Ok(());
    }

    /** A batch. On an error the moves before the failing one have been applied
        and the sequence number has not moved. */
    method ApplyBatch(ms: seq<Intent>) returns (r: Result<(), GameError>)
      modifies this
      ensures match Transition(old(Value()), ms)
        case Ok(after) => r.Ok? && Value() == after
        case Err(e) => r == Err(e) && Value() == Board(old(sequence), Replay(old(players), ms).players)
    {
      ghost var start := players;
      var i := 0;
      while i < |ms|
        invariant 0 <= i <= |ms|
        invariant sequence == old(sequence)
        invariant Replay(players, ms[i..]) == Replay(start, ms)
      {
        var applied := ApplyIntent(ms[i]);
        if applied.Err? {
          return Err(applied.error);
        }
        assert ms[i..][1..] == ms[i + 1..];
        i := i + 1;
      }
      if sequence + |ms| > MAX_U64 {
        return Err(Overflow);
      }
      sequence := sequence + |ms|;
      r := Ok(());
    }
  }
}
