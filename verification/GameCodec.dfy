/**
 Byte layouts of the game: state, intent, batch, and the message an intent signs.
 Reading inverts writing exactly while the truncated counts fit, and writing
 inverts reading on everything that parses, empty state data aside.
 */
module GameCodec {
  import opened Prelude
  import opened Chain
  import opened GameRules

  const ENTRY_LEN: nat := 36
  const INTENT_LEN: nat := 101
  const STATE_HEADER_LEN: nat := 12
  const INTENT_DOMAIN: Bytes := Ascii("ckb-controller/game-intent/v1")

  /** What a player's signature of a move hashes. */
  function IntentInput(gameId: Bytes32, m: Intent): Bytes {
    INTENT_DOMAIN + gameId + m.hash + LE64(m.points) + LE64(m.nonce)
  }

  function IntentMessage(c: Crypto, gameId: Bytes32, m: Intent): Bytes32 {
    c.blake2b(IntentInput(gameId, m))
  }

  /** A signed move is bound to its game, player, points and nonce: one message for
      two of them is a collision of the two strings hashed. */
  lemma IntentMessageBinds(c: Crypto, gameId: Bytes32, m: Intent, gameId': Bytes32, m': Intent)
    requires IntentMessage(c, gameId, m) == IntentMessage(c, gameId', m')
    ensures (gameId == gameId' && m.hash == m'.hash && m.points == m'.points && m.nonce == m'.nonce)
      || Collide(c, IntentInput(gameId, m), IntentInput(gameId', m'))
  {
    if IntentInput(gameId, m) == IntentInput(gameId', m') {
      IntentInputParts(gameId, m);
      IntentInputParts(gameId', m');
    }
  }

  lemma IntentInputParts(gameId: Bytes32, m: Intent)
    ensures var b, d := IntentInput(gameId, m), |INTENT_DOMAIN|;
      && |b| == d + 68
      && b[d..d + 32] == gameId && b[d + 32..d + 52] == m.hash
      && ReadU64(b[d + 52..d + 60]) == m.points && ReadU64(b[d + 60..d + 68]) == m.nonce
  {
    var a1 := INTENT_DOMAIN + gameId;
    var a2 := a1 + m.hash;
    var a3 := a2 + LE64(m.points);
    var b, d := IntentInput(gameId, m), |INTENT_DOMAIN|;
    assert b == a3 + LE64(m.nonce);
    assert b[d..d + 32] == a1[d..d + 32] && b[d + 32..d + 52] == a2[d + 32..d + 52];
    assert b[d + 52..d + 60] == a3[d + 52..d + 60] == LE64(m.points);
    assert b[d + 60..d + 68] == LE64(m.nonce);
    ReadWrite64(m.points);
    ReadWrite64(m.nonce);
  }

  // ---- State ----------------------------------------------------------------

  function EntryBytes(p: PlayerEntry): (b: Bytes)
    ensures |b| == ENTRY_LEN
  {
    p.hash + LE64(p.score) + LE64(p.nonce)
  }

  function ReadEntry(b: Bytes): PlayerEntry
    requires |b| == ENTRY_LEN
  {
    PlayerEntry(b[0..20], ReadU64(b[20..28]), ReadU64(b[28..36]))
  }

  lemma EntryReadBack(p: PlayerEntry)
    ensures ReadEntry(EntryBytes(p)) == p
  {
    var b := EntryBytes(p);
    assert b[0..20] == p.hash && b[20..28] == LE64(p.score) && b[28..36] == LE64(p.nonce);
    ReadWrite64(p.score);
    ReadWrite64(p.nonce);
  }

  lemma EntryCanonical(b: Bytes)
    requires |b| == ENTRY_LEN
    ensures EntryBytes(ReadEntry(b)) == b
  {
    WriteRead64(b[20..28]);
    WriteRead64(b[28..36]);
    assert b == b[0..20] + b[20..28] + b[28..36];
  }

  function EntriesBytes(ps: seq<PlayerEntry>): (b: Bytes)
    ensures |b| == ENTRY_LEN * |ps|
  {
    if ps == [] then [] else EntryBytes(ps[0]) + EntriesBytes(ps[1..])
  }

  function ReadEntries(b: Bytes): (ps: seq<PlayerEntry>)
    requires |b| % ENTRY_LEN == 0
    ensures |ps| * ENTRY_LEN == |b|
  {
    if b == [] then [] else [ReadEntry(b[..ENTRY_LEN])] + ReadEntries(b[ENTRY_LEN..])
  }

  lemma {:induction false} EntriesReadBack(ps: seq<PlayerEntry>)
    ensures ReadEntries(EntriesBytes(ps)) == ps
  {
    if ps != [] {
      var b := EntriesBytes(ps);
      assert b[..ENTRY_LEN] == EntryBytes(ps[0]) && b[ENTRY_LEN..] == EntriesBytes(ps[1..]);
      EntryReadBack(ps[0]);
      EntriesReadBack(ps[1..]);
    }
  }

  lemma {:induction false} EntriesCanonical(b: Bytes)
    requires |b| % ENTRY_LEN == 0
    ensures EntriesBytes(ReadEntries(b)) == b
  {
    if b != [] {
      var ps := ReadEntries(b);
      assert ps[0] == ReadEntry(b[..ENTRY_LEN]) && ps[1..] == ReadEntries(b[ENTRY_LEN..]);
      EntryCanonical(b[..ENTRY_LEN]);
      EntriesCanonical(b[ENTRY_LEN..]);
      assert b == b[..ENTRY_LEN] + b[ENTRY_LEN..];
    }
  }

  function EncodeState(s: Board): Bytes {
    LE64(s.sequence) + LE32(|s.players|) + EntriesBytes(s.players)
  }

  function DecodeState(d: Bytes): Result<Board, GameError> {
    if d == [] then Ok(EMPTY_BOARD)
    else if |d| < STATE_HEADER_LEN then Err(StateMalformed)
    else if |d| != STATE_HEADER_LEN + ReadU32(d[8..12]) * ENTRY_LEN then Err(StateMalformed)
    else Ok(Board(ReadU64(d[0..8]), ReadEntries(d[12..])))
  }

  lemma EncodeStateParts(s: Board)
    ensures var d := EncodeState(s);
      && |d| == STATE_HEADER_LEN + ENTRY_LEN * |s.players|
      && d[0..8] == LE64(s.sequence) && d[8..12] == LE32(|s.players|) && d[12..] == EntriesBytes(s.players)
  {
  }

  /** Entry `i` sits at offset 12 + 36 i, hash then score then nonce. */
  lemma StateLayout(s: Board, i: nat)
    requires i < |s.players|
    ensures var d, off := EncodeState(s), STATE_HEADER_LEN + ENTRY_LEN * i;
      && |d| == STATE_HEADER_LEN + ENTRY_LEN * |s.players|
      && d[off..off + 20] == s.players[i].hash
      && d[off + 20..off + 28] == LE64(s.players[i].score)
      && d[off + 28..off + 36] == LE64(s.players[i].nonce)
  {
    EntriesLayout(s.players, i);
    EncodeStateParts(s);
    var d, off, p := EncodeState(s), ENTRY_LEN * i, s.players[i];
    SliceOfSlice(d, STATE_HEADER_LEN, |d|, off, off + ENTRY_LEN);
    var at := STATE_HEADER_LEN + off;
    assert d[at..at + ENTRY_LEN] == EntryBytes(p);
    SliceOfSlice(d, at, at + ENTRY_LEN, 0, 20);
    SliceOfSlice(d, at, at + ENTRY_LEN, 20, 28);
    SliceOfSlice(d, at, at + ENTRY_LEN, 28, 36);
    assert EntryBytes(p)[0..20] == p.hash;
    assert EntryBytes(p)[20..28] == LE64(p.score) && EntryBytes(p)[28..36] == LE64(p.nonce);
  }

  lemma SliceOfSlice(b: Bytes, lo: nat, hi: nat, from: nat, to: nat)
    requires lo <= hi <= |b| && from <= to <= hi - lo
    ensures b[lo..hi][from..to] == b[lo + from..lo + to]
  {
    var inner, outer := b[lo..hi][from..to], b[lo + from..lo + to];
    assert |inner| == |outer|;
    assert forall k :: 0 <= k < |inner| ==> inner[k] == outer[k];
  }

  lemma {:induction false} EntriesLayout(ps: seq<PlayerEntry>, i: nat)
    requires i < |ps|
    ensures EntriesBytes(ps)[ENTRY_LEN * i..ENTRY_LEN * i + ENTRY_LEN] == EntryBytes(ps[i])
  {
    if i > 0 {
      EntriesLayout(ps[1..], i - 1);
      var b, rest := EntriesBytes(ps), EntriesBytes(ps[1..]);
      assert b[ENTRY_LEN..] == rest;
      var off := ENTRY_LEN * (i - 1);
      assert b[ENTRY_LEN + off..ENTRY_LEN + off + ENTRY_LEN] == rest[off..off + ENTRY_LEN];
    }
  }

  /** The header fields as the decoder sees them, the count modulo its width. */
  lemma StateFields(s: Board)
    ensures var d := EncodeState(s);
      && |d| == STATE_HEADER_LEN + ENTRY_LEN * |s.players|
      && ReadU64(d[0..8]) == s.sequence
      && ReadU32(d[8..12]) == |s.players| % 0x1_0000_0000
      && d[12..] == EntriesBytes(s.players)
  {
    EncodeStateParts(s);
    ReadWrite64(s.sequence);
    ReadWrite32(|s.players|);
  }

  lemma StateReadBack(s: Board)
    requires |s.players| <= MAX_U32
    ensures DecodeState(EncodeState(s)) == Ok(s)
  {
    StateFields(s);
    EntriesReadBack(s.players);
    DecodeFields(EncodeState(s), s.sequence, s.players, EntriesBytes(s.players));
  }

  lemma DecodeFields(d: Bytes, sequence: u64, players: seq<PlayerEntry>, entries: Bytes)
    requires |d| == STATE_HEADER_LEN + ENTRY_LEN * |players| && entries == d[12..]
    requires ReadU64(d[0..8]) == sequence && ReadU32(d[8..12]) == |players|
    requires |entries| == ENTRY_LEN * |players| && ReadEntries(entries) == players
    ensures DecodeState(d) == Ok(Board(sequence, players))
  {
  }

  lemma StateOverflowsCount(s: Board)
    requires |s.players| > MAX_U32
    ensures DecodeState(EncodeState(s)) == Err(StateMalformed)
  {
    StateFields(s);
    assert ReadU32(EncodeState(s)[8..12]) < |s.players|;
  }

  /** The chain reads back the state that was written exactly when the number of
      players fits its four-byte count; otherwise the data does not parse. */
  lemma StateRoundTripExact(s: Board)
    ensures DecodeState(EncodeState(s)) == Ok(s) <==> |s.players| <= MAX_U32
    ensures |s.players| > MAX_U32 ==> DecodeState(EncodeState(s)) == Err(StateMalformed)
  {
    if |s.players| <= MAX_U32 {
      StateReadBack(s);
    } else {
      StateOverflowsCount(s);
    }
  }

  /** Every accepted non-empty state data is the encoding of what it decodes to. */
  lemma StateCanonical(d: Bytes)
    requires d != [] && DecodeState(d).Ok?
    ensures EncodeState(DecodeState(d).value) == d
    ensures |DecodeState(d).value.players| <= MAX_U32
  {
    WriteRead64(d[0..8]);
    WriteRead32(d[8..12]);
    EntriesCanonical(d[12..]);
    assert |ReadEntries(d[12..])| == ReadU32(d[8..12]);
    assert d == d[0..8] + d[8..12] + d[12..];
  }

  /** The empty board has two spellings. */
  lemma EmptyStateExact(d: Bytes)
    ensures DecodeState(d) == Ok(EMPTY_BOARD) <==> d == [] || d == EncodeState(EMPTY_BOARD)
  {
    StateRoundTripExact(EMPTY_BOARD);
    if d != [] && DecodeState(d).Ok? {
      StateCanonical(d);
    }
  }

  lemma {:induction false} EntriesBytesSnoc(ps: seq<PlayerEntry>, p: PlayerEntry)
    ensures EntriesBytes(ps + [p]) == EntriesBytes(ps) + EntryBytes(p)
  {
    if ps == [] {
      assert [p][1..] == [];
    } else {
      assert (ps + [p])[1..] == ps[1..] + [p];
      EntriesBytesSnoc(ps[1..], p);
    }
  }

  method WriteState(s: Board) returns (d: Bytes)
    ensures d == EncodeState(s)
  {
    d := LE64(s.sequence);
    d := d + LE32(|s.players|);
    ghost var header := d;
    var i := 0;
    while i < |s.players|
      invariant 0 <= i <= |s.players|
      invariant d == header + EntriesBytes(s.players[..i])
    {
      var p := s.players[i];
      EntriesBytesSnoc(s.players[..i], p);
      assert s.players[..i + 1] == s.players[..i] + [p];
      d := d + p.hash;
      d := d + LE64(p.score);
      d := d + LE64(p.nonce);
      assert d == header + (EntriesBytes(s.players[..i]) + EntryBytes(p));
      i := i + 1;
    }
    assert s.players[..i] == s.players;
  }

  lemma ReadOneEntry(before: seq<PlayerEntry>, b: Bytes)
    requires |b| >= ENTRY_LEN && |b| % ENTRY_LEN == 0
    ensures |b[ENTRY_LEN..]| % ENTRY_LEN == 0
    ensures before + ReadEntries(b) == before + [ReadEntry(b[..ENTRY_LEN])] + ReadEntries(b[ENTRY_LEN..])
  {
    assert ReadEntries(b) == [ReadEntry(b[..ENTRY_LEN])] + ReadEntries(b[ENTRY_LEN..]);
  }

  method ParseState(d: Bytes) returns (r: Result<Board, GameError>)
    ensures r == DecodeState(d)
  {
    if d == [] {
      return Ok(EMPTY_BOARD);
    }
    if |d| < STATE_HEADER_LEN {
      return Err(StateMalformed);
    }
    var sequence := ReadU64(d[0..8]);
    var count := ReadU32(d[8..12]);
    if |d| != STATE_HEADER_LEN + count * ENTRY_LEN {
      return Err(StateMalformed);
    }
    var players := [];
    var i := 0;
    ghost var left := d[12..];
    while i < count
      invariant 0 <= i <= count
      invariant |left| == (count - i) * ENTRY_LEN && left == d[STATE_HEADER_LEN + i * ENTRY_LEN..]
      invariant players + ReadEntries(left) == ReadEntries(d[12..])
    {
      var off := STATE_HEADER_LEN + i * ENTRY_LEN;
      var e := d[off..off + ENTRY_LEN];
      assert left[..ENTRY_LEN] == e;
      ReadOneEntry(players, left);
      left := left[ENTRY_LEN..];
      players := players + [ReadEntry(e)];
      i := i + 1;
    }
    assert left == [] && players + [] == players;
    r := Ok(Board(sequence, players));
  }

  // ---- Intents and batches --------------------------------------------------

  function IntentBytes(m: Intent): (b: Bytes)
    ensures |b| == INTENT_LEN
  {
    m.hash + LE64(m.points) + LE64(m.nonce) + m.sig
  }

  function DecodeIntent(b: Bytes): (r: Result<Intent, GameError>)
    ensures r.Ok? <==> |b| == INTENT_LEN
  {
    if |b| != INTENT_LEN then Err(BatchMalformed)
    else Ok(Intent(b[0..20], ReadU64(b[20..28]), ReadU64(b[28..36]), b[36..101]))
  }

  lemma IntentReadBack(m: Intent)
    ensures DecodeIntent(IntentBytes(m)) == Ok(m)
  {
    var b := IntentBytes(m);
    assert b[0..20] == m.hash && b[20..28] == LE64(m.points) && b[28..36] == LE64(m.nonce) && b[36..101] == m.sig;
    ReadWrite64(m.points);
    ReadWrite64(m.nonce);
  }

  lemma IntentCanonical(b: Bytes)
    requires |b| == INTENT_LEN
    ensures IntentBytes(DecodeIntent(b).value) == b
  {
    WriteRead64(b[20..28]);
    WriteRead64(b[28..36]);
    assert b == b[0..20] + b[20..28] + b[28..36] + b[36..101];
  }

  function IntentsBytes(ms: seq<Intent>): (b: Bytes)
    ensures |b| == INTENT_LEN * |ms|
  {
    if ms == [] then [] else IntentBytes(ms[0]) + IntentsBytes(ms[1..])
  }

  function ReadIntents(b: Bytes): (ms: seq<Intent>)
    requires |b| % INTENT_LEN == 0
    ensures |ms| * INTENT_LEN == |b|
  {
    if b == [] then [] else [DecodeIntent(b[..INTENT_LEN]).value] + ReadIntents(b[INTENT_LEN..])
  }

  lemma {:induction false} IntentsReadBack(ms: seq<Intent>)
    ensures ReadIntents(IntentsBytes(ms)) == ms
  {
    if ms != [] {
      var b := IntentsBytes(ms);
      assert b[..INTENT_LEN] == IntentBytes(ms[0]) && b[INTENT_LEN..] == IntentsBytes(ms[1..]);
      IntentReadBack(ms[0]);
      IntentsReadBack(ms[1..]);
    }
  }

  lemma {:induction false} IntentsCanonical(b: Bytes)
    requires |b| % INTENT_LEN == 0
    ensures IntentsBytes(ReadIntents(b)) == b
  {
    if b != [] {
      var ms := ReadIntents(b);
      assert ms[0] == DecodeIntent(b[..INTENT_LEN]).value && ms[1..] == ReadIntents(b[INTENT_LEN..]);
      IntentCanonical(b[..INTENT_LEN]);
      IntentsCanonical(b[INTENT_LEN..]);
      assert b == b[..INTENT_LEN] + b[INTENT_LEN..];
    }
  }

  function EncodeBatch(ms: seq<Intent>): Bytes {
    LE16(|ms|) + IntentsBytes(ms)
  }

  function DecodeBatch(b: Bytes): Result<seq<Intent>, GameError> {
    if |b| < 2 then Err(BatchMalformed)
    else if |b| != 2 + ReadU16(b[0..2]) * INTENT_LEN then Err(BatchMalformed)
    else Ok(ReadIntents(b[2..]))
  }

  /** The script reads back the batch that was framed exactly when it has at most
      65535 intents; a longer one is malformed. */
  lemma BatchRoundTripExact(ms: seq<Intent>)
    ensures DecodeBatch(EncodeBatch(ms)) == Ok(ms) <==> |ms| <= MAX_U16
    ensures |ms| > MAX_U16 ==> DecodeBatch(EncodeBatch(ms)) == Err(BatchMalformed)
  {
    var b := EncodeBatch(ms);
    assert b[0..2] == LE16(|ms|) && b[2..] == IntentsBytes(ms);
    ReadWrite16(|ms|);
    if |ms| <= MAX_U16 {
      IntentsReadBack(ms);
    } else {
      assert ReadU16(b[0..2]) < |ms|;
    }
  }

  lemma BatchCanonical(b: Bytes)
    requires DecodeBatch(b).Ok?
    ensures EncodeBatch(DecodeBatch(b).value) == b
    ensures |DecodeBatch(b).value| <= MAX_U16
  {
    WriteRead16(b[0..2]);
    IntentsCanonical(b[2..]);
    assert |ReadIntents(b[2..])| == ReadU16(b[0..2]);
    assert b == b[0..2] + b[2..];
  }

  lemma {:induction false} IntentsBytesSnoc(ms: seq<Intent>, m: Intent)
    ensures IntentsBytes(ms + [m]) == IntentsBytes(ms) + IntentBytes(m)
  {
    if ms == [] {
      assert [m][1..] == [];
    } else {
      assert (ms + [m])[1..] == ms[1..] + [m];
      IntentsBytesSnoc(ms[1..], m);
    }
  }

  method WriteBatch(ms: seq<Intent>) returns (b: Bytes)
    ensures b == EncodeBatch(ms)
  {
    b := LE16(|ms|);
    var i := 0;
    while i < |ms|
      invariant 0 <= i <= |ms|
      invariant b == LE16(|ms|) + IntentsBytes(ms[..i])
    {
      IntentsBytesSnoc(ms[..i], ms[i]);
      assert ms[..i + 1] == ms[..i] + [ms[i]];
      b := b + IntentBytes(ms[i]);
      i := i + 1;
    }
    assert ms[..i] == ms;
  }

  lemma ReadOneIntent(before: seq<Intent>, b: Bytes)
    requires |b| >= INTENT_LEN && |b| % INTENT_LEN == 0
    ensures |b[INTENT_LEN..]| % INTENT_LEN == 0
    ensures before + ReadIntents(b) == before + [DecodeIntent(b[..INTENT_LEN]).value] + ReadIntents(b[INTENT_LEN..])
  {
    assert ReadIntents(b) == [DecodeIntent(b[..INTENT_LEN]).value] + ReadIntents(b[INTENT_LEN..]);
  }

  method ParseBatch(b: Bytes) returns (r: Result<seq<Intent>, GameError>)
    ensures r == DecodeBatch(b)
  {
    if |b| < 2 {
      return Err(BatchMalformed);
    }
    var n := ReadU16(b[0..2]);
    if |b| != 2 + n * INTENT_LEN {
      return Err(BatchMalformed);
    }
    var out := [];
    var i := 0;
    ghost var left := b[2..];
    while i < n
      invariant 0 <= i <= n
      invariant |left| == (n - i) * INTENT_LEN && left == b[2 + i * INTENT_LEN..]
      invariant out + ReadIntents(left) == ReadIntents(b[2..])
    {
      var off := 2 + i * INTENT_LEN;
      var m := DecodeIntent(b[off..off + INTENT_LEN]).value;
      assert left[..INTENT_LEN] == b[off..off + INTENT_LEN];
      ReadOneIntent(out, left);
      left := left[INTENT_LEN..];
      out := out + [m];
      i := i + 1;
    }
    assert left == [] && out + [] == out;
    r := Ok(out);
  }
}
