/**
 The game cell's type script: genesis must be empty, and a transition must be the
 shared rule applied to the input state by signed intents, up to player order.
 */
module GameCell {
  import opened Prelude
  import opened Chain
  import opened GameRules
  import opened GameCodec

  datatype CellError =
    | Sys(error: SysError)
    | BadTxShape | ArgsLenError | GenesisNotEmpty | BatchMissing | StateMismatch | AuthError
    | Rule(rule: GameError)

  type Verdict = Result<(), CellError>

  function FromRule<T>(r: Result<T, GameError>): Result<T, CellError> {
    match r
    case Ok(v) => Ok(v)
    case Err(e) => Err(Rule(e))
  }

  predicate IntentSigned(c: Crypto, gameId: Bytes32, m: Intent) {
    c.sigOk(m.sig, IntentMessage(c, gameId, m), m.hash)
  }

  predicate AllSigned(c: Crypto, gameId: Bytes32, ms: seq<Intent>) {
    forall m :: m in ms ==> IntentSigned(c, gameId, m)
  }

  // ---- Verdicts -------------------------------------------------------------

  function GenesisVerdict(data: Bytes): Verdict {
    var state :- FromRule(DecodeState(data));
    if state.sequence != 0 || state.players != [] then Err(GenesisNotEmpty) else Ok(())
  }

  /** The intent batch in the witness of the input at `at`. */
  function WitnessBatch(rtx: ResolvedTx, at: nat): Result<seq<Intent>, CellError> {
    match WitnessArgsAt(rtx, at)
    case Err(e) => Err(Sys(e))
    case Ok(args) => if args.inputType.None? then Err(BatchMissing) else FromRule(DecodeBatch(args.inputType.value))
  }

  function TransitionVerdict(c: Crypto, rtx: ResolvedTx, gameId: Bytes32, at: nat, inData: Bytes, outData: Bytes)
    : Verdict
  {
    var before :- FromRule(DecodeState(inData));
    var claimed :- FromRule(DecodeState(outData));
    var ms :- WitnessBatch(rtx, at);
    if !AllSigned(c, gameId, ms) then Err(AuthError)
    else
      var derived :- FromRule(Transition(before, ms));
      if EqualsUnordered(derived, claimed) then Ok(()) else Err(StateMismatch)
  }

  /** The type script's verdict on a transaction that creates or spends one of its
      cells. */
  function CellVerdict(c: Crypto, rtx: ResolvedTx, script: Script): Verdict {
    if |script.args| != 32 then Err(ArgsLenError)
    else
      var ins, outs := TypeGroupIn(c, rtx, script), TypeGroupOut(c, rtx, script);
      if ins == [] && |outs| == 1 then
        assert outs[0] in outs;
        GenesisVerdict(rtx.tx.raw.outputs[outs[0]].data)
      else if |ins| == 1 && |outs| == 1 then
        assert ins[0] in ins && outs[0] in outs;
        TransitionVerdict(c, rtx, script.args, ins[0], rtx.spent[ins[0]].data, rtx.tx.raw.outputs[outs[0]].data)
      else Err(BadTxShape)
  }

  lemma SingleTypeGroups(c: Crypto, rtx: ResolvedTx, script: Script)
    requires |rtx.spent| == 1 && rtx.spent[0].output.typ == Some(script)
    requires |rtx.tx.raw.outputs| == 1 && rtx.tx.raw.outputs[0].output.typ == Some(script)
    ensures TypeGroupIn(c, rtx, script) == [0] && TypeGroupOut(c, rtx, script) == [0]
  {
    var p := HasTypeHash(c, c.scriptHash(script));
    assert p(rtx.spent[0]) && p(rtx.tx.raw.outputs[0]);
    assert Matching(p, rtx.spent[..0]) == [] && Matching(p, rtx.tx.raw.outputs[..0]) == [];
  }

  // ---- The script's own steps -----------------------------------------------

  /** Scans the inputs for the first cell carrying this script's type. */
  method FindGroupInput(c: Crypto, rtx: ResolvedTx, script: Script) returns (r: Option<nat>)
    ensures var ins := TypeGroupIn(c, rtx, script);
      r == if ins == [] then None else Some(ins[0])
  {
    var me := c.scriptHash(script);
    var i := 0;
    while i < |rtx.spent|
      invariant 0 <= i <= |rtx.spent|
      invariant forall k :: 0 <= k < i ==> !HasTypeHash(c, me)(rtx.spent[k])
    {
      if HasTypeHash(c, me)(rtx.spent[i]) {
        ghost var ins := TypeGroupIn(c, rtx, script);
        assert i in ins && ins[0] in ins;
        return Some(i);
      }
      i := i + 1;
    }
    r := None;
    MatchingNone(HasTypeHash(c, me), rtx.spent);
  }

  method VerifyTransition(c: Crypto, rtx: ResolvedTx, script: Script, gameId: Bytes32, inData: Bytes, outData: Bytes)
    returns (r: Verdict)
    requires TypeGroupIn(c, rtx, script) != []
    ensures r == TransitionVerdict(c, rtx, gameId, TypeGroupIn(c, rtx, script)[0], inData, outData)
  {
    var before := ParseState(inData);
    if before.Err? {
      return Err(Rule(before.error));
    }
    var claimed := ParseState(outData);
    if claimed.Err? {
      return Err(Rule(claimed.error));
    }
    var at := FindGroupInput(c, rtx, script);
    var args := WitnessArgsAt(rtx, at.value);
    if args.Err? {
      return Err(Sys(args.error));
    }
    if args.value.inputType.None? {
      return Err(BatchMissing);
    }
    var batch := ParseBatch(args.value.inputType.value);
    if batch.Err? {
      return Err(Rule(batch.error));
    }
    var ms := batch.value;
    var i := 0;
    while i < |ms|
      invariant 0 <= i <= |ms|
      invariant AllSigned(c, gameId, ms[..i])
    {
      assert ms[i] in ms;
      if !IntentSigned(c, gameId, ms[i]) {
        return Err(AuthError);
      }
      assert ms[..i + 1] == ms[..i] + [ms[i]];
      i := i + 1;
    }
    assert ms[..i] == ms;
    var state := new GameState(before.value);
    var applied := state.ApplyBatch(ms);
    if applied.Err? {
      return Err(Rule(applied.error));
    }
    if !EqualsUnordered(state.Value(), claimed.value) {
      return Err(StateMismatch);
    }
    r := Ok(());
  }

  method Verify(c: Crypto, rtx: ResolvedTx, script: Script) returns (r: Verdict)
    ensures r == CellVerdict(c, rtx, script)
  {
    if |script.args| != 32 {
      return Err(ArgsLenError);
    }
    var ins, outs := TypeGroupIn(c, rtx, script), TypeGroupOut(c, rtx, script);
    if ins == [] && |outs| == 1 {
      assert outs[0] in outs;
      var state := ParseState(rtx.tx.raw.outputs[outs[0]].data);
      if state.Err? {
        return Err(Rule(state.error));
      }
      if state.value.sequence != 0 || state.value.players != [] {
        return Err(GenesisNotEmpty);
      }
      return Ok(());
    }
    if |ins| == 1 && |outs| == 1 {
      assert ins[0] in ins && outs[0] in outs;
      r := VerifyTransition(c, rtx, script, script.args, rtx.spent[ins[0]].data, rtx.tx.raw.outputs[outs[0]].data);
      return;
    }
    r := Err(BadTxShape);
  }
}
