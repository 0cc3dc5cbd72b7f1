/**
 Order of moves. A batch is a set of independent per-player histories: it applies
 exactly when each player's own subsequence does, and the board it leaves depends
 on the moves played, not on how the operator interleaved them.
 */
module GameOrder {
  import opened Prelude
  import opened GameRules

  // ---- One player's moves ---------------------------------------------------

  function MovesOf(ms: seq<Intent>, h: Bytes20): seq<Intent> {
    if ms == [] then []
    else if ms[0].hash == h then [ms[0]] + MovesOf(ms[1..], h)
    else MovesOf(ms[1..], h)
  }

  lemma {:induction false} MovesOfConcat(xs: seq<Intent>, ys: seq<Intent>, h: Bytes20)
    ensures MovesOf(xs + ys, h) == MovesOf(xs, h) + MovesOf(ys, h)
  {
    if xs == [] {
      assert xs + ys == ys;
    } else {
      assert (xs + ys)[1..] == xs[1..] + ys;
      MovesOfConcat(xs[1..], ys, h);
    }
  }

  function PlayerReplay(entry: Option<PlayerEntry>, ms: seq<Intent>): Result<Option<PlayerEntry>, GameError>
    decreases |ms|
  {
    if ms == [] then Ok(entry)
    else
      var next :- PlayerMove(entry, ms[0]);
      PlayerReplay(Some(next), ms[1..])
  }

  lemma LookupPlace(players: seq<PlayerEntry>, entry: PlayerEntry, h: Bytes20)
    ensures Lookup(Place(players, entry), h) == if h == entry.hash then Some(entry) else Lookup(players, h)
  {
    var k := Find(players, entry.hash);
    var after := Place(players, entry);
    var j, i := Find(after, h), Find(players, h);
    if h == entry.hash {
      assert after[k] == entry;
    } else {
      assert i < |players| ==> after[i] == players[i] && i != k;
      assert forall n :: 0 <= n < |players| ==> n == k || after[n] == players[n];
      assert j < |after| ==> j < |players| && after[j] == players[j];
      assert i == j || (i == |players| && j == |after|);
    }
  }

  lemma MoveKeepsHash(entry: Option<PlayerEntry>, m: Intent)
    requires entry.Some? ==> entry.value.hash == m.hash
    ensures PlayerMove(entry, m).Ok? ==> PlayerMove(entry, m).value.hash == m.hash
  {
  }

  /** A batch that applies, applies each player's moves to that player's entry. */
  lemma {:induction false} ReplayPerPlayer(players: seq<PlayerEntry>, ms: seq<Intent>, h: Bytes20)
    requires Replay(players, ms).error.None?
    ensures PlayerReplay(Lookup(players, h), MovesOf(ms, h)) == Ok(Lookup(Replay(players, ms).players, h))
    decreases |ms|
  {
    if ms != [] {
      var m := ms[0];
      var entry := PlayerMove(Lookup(players, m.hash), m).value;
      MoveKeepsHash(Lookup(players, m.hash), m);
      LookupPlace(players, entry, h);
      ReplayPerPlayer(Place(players, entry), ms[1..], h);
      if m.hash == h {
        assert MovesOf(ms, h)[1..] == MovesOf(ms[1..], h);
      }
    }
  }

  /** Conversely, if every player's own moves apply, the whole batch does. */
  lemma {:induction false} PlayersReplay(players: seq<PlayerEntry>, ms: seq<Intent>)
    requires forall h: Bytes20 :: PlayerReplay(Lookup(players, h), MovesOf(ms, h)).Ok?
    ensures Replay(players, ms).error.None?
    decreases |ms|
  {
    if ms != [] {
      var m := ms[0];
      var own := MovesOf(ms, m.hash);
      assert own[0] == m && own[1..] == MovesOf(ms[1..], m.hash);
      assert PlayerReplay(Lookup(players, m.hash), own).Ok?;
      var entry := PlayerMove(Lookup(players, m.hash), m).value;
      MoveKeepsHash(Lookup(players, m.hash), m);
      forall h: Bytes20
        ensures PlayerReplay(Lookup(Place(players, entry), h), MovesOf(ms[1..], h)).Ok?
      {
        LookupPlace(players, entry, h);
        assert PlayerReplay(Lookup(players, h), MovesOf(ms, h)).Ok?;
      }
      PlayersReplay(Place(players, entry), ms[1..]);
    }
  }

  // ---- When a player's moves apply ------------------------------------------

  function NonceOf(entry: Option<PlayerEntry>): nat {
    if entry.Some? then entry.value.nonce else 0
  }

  function ScoreOf(entry: Option<PlayerEntry>): nat {
    if entry.Some? then entry.value.score else 0
  }

  function Points(): Intent -> nat {
    (m: Intent) => m.points
  }

  /** Nonces continue the player's without gaps, every move is within the cap and
      the total fits. */
  ghost predicate Playable(entry: Option<PlayerEntry>, ms: seq<Intent>) {
    && (forall i :: 0 <= i < |ms| ==> ms[i].nonce == NonceOf(entry) + 1 + i && ms[i].points <= MAX_POINTS_PER_MOVE)
    && ScoreOf(entry) + SumOf(Points(), ms) <= MAX_U64
  }

  /** The entry `ms` leaves behind: nonce advanced by their number, score by their
      points; a player who did not move keeps the same entry, or none. */
  ghost predicate Advanced(before: Option<PlayerEntry>, ms: seq<Intent>, h: Bytes20, after: Option<PlayerEntry>) {
    if ms == [] then after == before
    else
      && after.Some? && after.value.hash == h
      && after.value.score == ScoreOf(before) + SumOf(Points(), ms)
      && after.value.nonce == NonceOf(before) + |ms|
  }

  lemma PlayableCons(entry: Option<PlayerEntry>, m: Intent, rest: seq<Intent>, next: PlayerEntry)
    requires next.nonce == NonceOf(entry) + 1 && next.score == ScoreOf(entry) + m.points
    ensures Playable(entry, [m] + rest) <==>
      m.nonce == NonceOf(entry) + 1 && m.points <= MAX_POINTS_PER_MOVE && Playable(Some(next), rest)
  {
    var ms := [m] + rest;
    assert ms[1..] == rest;
    assert forall i :: 0 <= i < |rest| ==> rest[i] == ms[i + 1];
  }

  lemma PlayableHead(entry: Option<PlayerEntry>, ms: seq<Intent>)
    requires ms != []
    ensures Playable(entry, ms) ==> PlayerMove(entry, ms[0]).Ok?
  {
    assert Playable(entry, ms) ==> ms[0].nonce == NonceOf(entry) + 1;
  }

  /** A player's moves apply exactly when they are playable, and then the player's
      nonce has advanced by their number and the score by their points. */
  lemma {:induction false} PlayerReplayExact(entry: Option<PlayerEntry>, ms: seq<Intent>, h: Bytes20)
    requires entry.Some? ==> entry.value.hash == h
    requires forall m :: m in ms ==> m.hash == h
    ensures PlayerReplay(entry, ms).Ok? <==> Playable(entry, ms)
    ensures Playable(entry, ms) ==> Advanced(entry, ms, h, PlayerReplay(entry, ms).value)
    decreases |ms|
  {
    if ms != [] {
      var m, rest := ms[0], ms[1..];
      assert m in ms && ms == [m] + rest && (forall x :: x in rest ==> x in ms);
      if PlayerMove(entry, m).Ok? {
        var next := PlayerMove(entry, m).value;
        PlayableCons(entry, m, rest, next);
        PlayerReplayExact(Some(next), rest, h);
      }
      PlayableHead(entry, ms);
    }
  }

  lemma {:induction false} MovesOfHash(ms: seq<Intent>, h: Bytes20)
    ensures forall m :: m in MovesOf(ms, h) ==> m.hash == h
  {
    if ms != [] {
      MovesOfHash(ms[1..], h);
    }
  }

  /** A batch is accepted exactly when every player's own moves are playable from
      that player's entry and the sequence number fits. */
  lemma BatchAcceptedExact(b: Board, ms: seq<Intent>)
    ensures Transition(b, ms).Ok? <==>
      ((forall h: Bytes20 :: Playable(Lookup(b.players, h), MovesOf(ms, h))) && b.sequence + |ms| <= MAX_U64)
  {
    forall h: Bytes20
      ensures Playable(Lookup(b.players, h), MovesOf(ms, h))
        <==> PlayerReplay(Lookup(b.players, h), MovesOf(ms, h)).Ok?
    {
      MovesOfHash(ms, h);
      PlayerReplayExact(Lookup(b.players, h), MovesOf(ms, h), h);
    }
    if Replay(b.players, ms).error.None? {
      forall h: Bytes20
        ensures PlayerReplay(Lookup(b.players, h), MovesOf(ms, h)).Ok?
      {
        ReplayPerPlayer(b.players, ms, h);
      }
    }
    if forall h: Bytes20 :: Playable(Lookup(b.players, h), MovesOf(ms, h)) {
      PlayersReplay(b.players, ms);
    }
  }

  /** A player's entry after an accepted batch. */
  lemma EntryAfterBatch(b: Board, ms: seq<Intent>, h: Bytes20)
    requires Transition(b, ms).Ok?
    ensures Playable(Lookup(b.players, h), MovesOf(ms, h))
    ensures Advanced(Lookup(b.players, h), MovesOf(ms, h), h, Lookup(Transition(b, ms).value.players, h))
  {
    BatchAcceptedExact(b, ms);
    ReplayPerPlayer(b.players, ms, h);
    MovesOfHash(ms, h);
    PlayerReplayExact(Lookup(b.players, h), MovesOf(ms, h), h);
  }

  // ---- Boards as maps -------------------------------------------------------

  ghost predicate DistinctPlayers(players: seq<PlayerEntry>) {
    forall i, j :: 0 <= i < j < |players| ==> players[i].hash != players[j].hash
  }

  lemma LookupDistinct(players: seq<PlayerEntry>, p: PlayerEntry)
    requires DistinctPlayers(players)
    ensures Lookup(players, p.hash) == Some(p) <==> p in players
  {
  }

  lemma DistinctNoDuplicates(players: seq<PlayerEntry>)
    requires DistinctPlayers(players)
    ensures NoDuplicates(players)
  {
  }

  lemma {:induction false} ReplayKeepsDistinct(players: seq<PlayerEntry>, ms: seq<Intent>)
    requires DistinctPlayers(players)
    ensures DistinctPlayers(Replay(players, ms).players)
    decreases |ms|
  {
    if ms != [] && Move(players, ms[0]).Ok? {
      MoveKeepsHash(Lookup(players, ms[0].hash), ms[0]);
      ReplayKeepsDistinct(Move(players, ms[0]).value, ms[1..]);
    }
  }

  /** Two boards without duplicate players that agree on every player hold the
      same entries. */
  lemma SameEntries(a: seq<PlayerEntry>, b: seq<PlayerEntry>)
    requires DistinctPlayers(a) && DistinctPlayers(b)
    requires forall h: Bytes20 :: Lookup(a, h) == Lookup(b, h)
    ensures multiset(a) == multiset(b)
  {
    NoDuplicatesCount(a);
    NoDuplicatesCount(b);
    forall p: PlayerEntry
      ensures multiset(a)[p] == multiset(b)[p]
    {
      LookupDistinct(a, p);
      LookupDistinct(b, p);
    }
  }

  // ---- Order independence ---------------------------------------------------

  function PointsBy(h: Bytes20): Intent -> nat {
    (m: Intent) => if m.hash == h then m.points else 0
  }

  function PlayedBy(h: Bytes20): Intent -> nat {
    (m: Intent) => if m.hash == h then 1 else 0
  }

  lemma {:induction false} MovesOfSums(ms: seq<Intent>, h: Bytes20)
    ensures SumOf(Points(), MovesOf(ms, h)) == SumOf(PointsBy(h), ms)
    ensures |MovesOf(ms, h)| == SumOf(PlayedBy(h), ms)
  {
    if ms != [] {
      MovesOfSums(ms[1..], h);
      if ms[0].hash == h {
        assert MovesOf(ms, h)[1..] == MovesOf(ms[1..], h);
      }
    }
  }

  lemma SamePlayerEntry(b: Board, xs: seq<Intent>, ys: seq<Intent>, h: Bytes20)
    requires multiset(xs) == multiset(ys)
    requires Transition(b, xs).Ok? && Transition(b, ys).Ok?
    ensures Lookup(Transition(b, xs).value.players, h) == Lookup(Transition(b, ys).value.players, h)
  {
    hide Transition, Playable, MovesOf, Lookup;
    EntryAfterBatch(b, xs, h);
    EntryAfterBatch(b, ys, h);
    MovesOfSums(xs, h);
    MovesOfSums(ys, h);
    SumOfPermutation(PointsBy(h), xs, ys);
    SumOfPermutation(PlayedBy(h), xs, ys);
  }

  /** Any two orderings of the same moves that are both accepted lead to the same
      board, entry for entry. */
  lemma OrderCannotChangeBoard(b: Board, xs: seq<Intent>, ys: seq<Intent>)
    requires DistinctPlayers(b.players)
    requires multiset(xs) == multiset(ys)
    requires Transition(b, xs).Ok? && Transition(b, ys).Ok?
    ensures SameBoard(Transition(b, xs).value, Transition(b, ys).value)
    ensures EqualsUnordered(Transition(b, xs).value, Transition(b, ys).value)
  {
    var left, right := Transition(b, xs).value, Transition(b, ys).value;
    assert |xs| == |multiset(xs)| == |ys|;
    ReplayKeepsDistinct(b.players, xs);
    ReplayKeepsDistinct(b.players, ys);
    forall h: Bytes20 {
      SamePlayerEntry(b, xs, ys, h);
    }
    SameEntries(left.players, right.players);
    PermutationPasses(left, right);
  }

  lemma {:induction false} MovesOfCount(ms: seq<Intent>, m: Intent)
    ensures multiset(MovesOf(ms, m.hash))[m] == multiset(ms)[m]
  {
    if ms != [] {
      MovesOfCount(ms[1..], m);
      assert ms == [ms[0]] + ms[1..];
    }
  }

  /** The players' own subsequences determine the moves played. */
  lemma SameMoves(xs: seq<Intent>, ys: seq<Intent>)
    requires forall h: Bytes20 :: MovesOf(xs, h) == MovesOf(ys, h)
    ensures multiset(xs) == multiset(ys)
  {
    forall m: Intent
      ensures multiset(xs)[m] == multiset(ys)[m]
    {
      MovesOfCount(xs, m);
      MovesOfCount(ys, m);
    }
  }

  /** An ordering that keeps each player's own subsequence is accepted exactly
      when the original is. */
  lemma InterleavingCannotReject(b: Board, xs: seq<Intent>, ys: seq<Intent>)
    requires forall h: Bytes20 :: MovesOf(xs, h) == MovesOf(ys, h)
    ensures multiset(xs) == multiset(ys)
    ensures Transition(b, xs).Ok? <==> Transition(b, ys).Ok?
  {
    SameMoves(xs, ys);
    assert |xs| == |multiset(xs)| == |ys|;
    BatchAcceptedExact(b, xs);
    BatchAcceptedExact(b, ys);
  }

  // ---- The one-directional comparison ---------------------------------------

  lemma PermutationPasses(a: Board, b: Board)
    requires SameBoard(a, b)
    ensures EqualsUnordered(a, b)
  {
    assert |a.players| == |multiset(a.players)| == |b.players|;
    forall p | p in a.players
      ensures p in b.players
    {
      assert p in multiset(b.players);
    }
  }

  /** For a duplicate-free derived board, the comparison is exact. */
  lemma ComparisonExactWhenDistinct(a: Board, b: Board)
    requires DistinctPlayers(a.players)
    ensures EqualsUnordered(a, b) <==> SameBoard(a, b)
  {
    DistinctNoDuplicates(a.players);
    if EqualsUnordered(a, b) {
      Pigeonhole(a.players, b.players);
    }
    if SameBoard(a, b) {
      PermutationPasses(a, b);
    }
  }

  /** And only then: a derived board with a repeated entry also passes against
      some board that is not a permutation of it. */
  lemma ComparisonExactIff(a: Board)
    ensures (forall b: Board :: EqualsUnordered(a, b) <==> SameBoard(a, b)) <==> NoDuplicates(a.players)
  {
    if NoDuplicates(a.players) {
      forall b: Board
        ensures EqualsUnordered(a, b) <==> SameBoard(a, b)
      {
        if EqualsUnordered(a, b) {
          Pigeonhole(a.players, b.players);
        }
        if SameBoard(a, b) {
          PermutationPasses(a, b);
        }
      }
    } else {
      var i, j :| 0 <= i < j < |a.players| && a.players[i] == a.players[j];
      var p := a.players[i];
      var forged := p.(score := if p.score == 0 then 1 else 0);
      var b := Board(a.sequence, a.players[j := forged]);
      assert b.players[i] == p;
      forall q | q in a.players
        ensures q in b.players
      {
        var k :| 0 <= k < |a.players| && a.players[k] == q;
        assert k == j || b.players[k] == q;
      }
      assert EqualsUnordered(a, b);
      assert multiset(b.players)[p] == multiset(a.players)[p] - 1 by {
        assert multiset(a.players[j := forged]) == multiset(a.players) - multiset{p} + multiset{forged};
      }
      assert !SameBoard(a, b);
    }
  }

  // ---- Batching -------------------------------------------------------------

  /** Two batches in a row do what their concatenation does, and succeed exactly
      when it does. */
  lemma BatchingTransparent(b: Board, xs: seq<Intent>, ys: seq<Intent>)
    ensures Transition(b, xs + ys).Ok? <==>
      (Transition(b, xs).Ok? && Transition(Transition(b, xs).value, ys).Ok?)
    ensures Transition(b, xs + ys).Ok? ==> Transition(b, xs + ys) == Transition(Transition(b, xs).value, ys)
  {
    ReplayConcat(b.players, xs, ys);
    if Transition(b, xs).Ok? {
      var mid := Transition(b, xs).value;
      assert Replay(b.players, xs + ys) == Replay(mid.players, ys);
      assert b.sequence + |xs + ys| == mid.sequence + |ys|;
    } else {
      assert b.sequence + |xs| <= b.sequence + |xs + ys|;
    }
  }

  // ---- Refusals -------------------------------------------------------------

  /** How a move is refused: too many points; a nonce that is not the player's next;
      no next nonce, or a score that does not fit. */
  lemma MoveRefusals(players: seq<PlayerEntry>, m: Intent)
    ensures var nonce, score := NonceOf(Lookup(players, m.hash)), ScoreOf(Lookup(players, m.hash));
      if m.points > 1000 then Move(players, m) == Err(PointsTooHigh)
      else if nonce == MAX_U64 then Move(players, m) == Err(Overflow)
      else if m.nonce != nonce + 1 then Move(players, m) == Err(NonceNotFresh)
      else if score + m.points > MAX_U64 then Move(players, m) == Err(Overflow)
      else Move(players, m).Ok?
  {
  }

  /** A batch is refused as the first of its moves that is, or for the sequence number
      when every move applies. */
  lemma {:induction false} ReplayRefusal(players: seq<PlayerEntry>, ms: seq<Intent>)
    requires Replay(players, ms).error.Some?
    ensures exists i :: RefusedAt(players, ms, i)
    decreases |ms|
  {
    match Move(players, ms[0]) {
      case Err(_) =>
        assert ms[..0] == [];
        assert RefusedAt(players, ms, 0);
      case Ok(next) =>
        ReplayRefusal(next, ms[1..]);
        var i: nat :| RefusedAt(next, ms[1..], i);
        RefusedLater(players, ms, i);
    }
  }

  lemma RefusedLater(players: seq<PlayerEntry>, ms: seq<Intent>, i: nat)
    requires ms != [] && Move(players, ms[0]).Ok? && RefusedAt(Move(players, ms[0]).value, ms[1..], i)
    ensures RefusedAt(players, ms, i + 1)
  {
    hide Move;
    var front := ms[..i + 1];
    assert front[0] == ms[0] && front[1..] == ms[1..][..i];
    assert Replay(players, front) == Replay(Move(players, ms[0]).value, ms[1..][..i]);
  }

  /** The moves before `i` apply, move `i` is refused, and that is the replay's error. */
  ghost predicate RefusedAt(players: seq<PlayerEntry>, ms: seq<Intent>, i: nat) {
    && i < |ms|
    && Replay(players, ms[..i]).error.None?
    && Move(Replay(players, ms[..i]).players, ms[i]).Err?
    && Replay(players, ms)
         == Replayed(Replay(players, ms[..i]).players, Some(Move(Replay(players, ms[..i]).players, ms[i]).error))
  }

  lemma BatchRefusals(b: Board, ms: seq<Intent>)
    requires Transition(b, ms).Err?
    ensures
      || (exists i ::
            && 0 <= i < |ms| && Replay(b.players, ms[..i]).error.None?
            && Move(Replay(b.players, ms[..i]).players, ms[i]) == Err(Transition(b, ms).error))
      || (Replay(b.players, ms).error.None? && b.sequence + |ms| > MAX_U64 && Transition(b, ms) == Err(Overflow))
  {
    if Replay(b.players, ms).error.Some? {
      ReplayRefusal(b.players, ms);
      var i: nat :| RefusedAt(b.players, ms, i);
      assert Replay(b.players, ms[..i]).error.None?;
    }
  }
}
