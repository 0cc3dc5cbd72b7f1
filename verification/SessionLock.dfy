/**
 The session lock script. The functions give the verdict of each check on the
 transaction being verified; the methods are the lock's own loops over outputs,
 inputs and proof bytes, proved to reach those verdicts.
 */
module SessionLock {
  import opened Prelude
  import opened Chain
  import opened PolicyMerkle
  import opened MerkleSoundness

  // ---- Layout ---------------------------------------------------------------

  const ARGS_LEN: nat := 116
  const OWNER_ONLY_ARGS_LEN: nat := 20
  const SESSION_PARAMS_LEN: nat := 96
  const SIGNATURE_LEN: nat := 65
  const REVOCATION_EPOCH_LEN: nat := 8

  const MODE_OWNER: byte := 0
  const MODE_SESSION: byte := 1
  const POLICY_KIND_TYPE: byte := 0
  const POLICY_KIND_LOCK: byte := 1

  const SPEND_CAP_UNLIMITED: u128 := MAX_U128
  const NO_EXPIRY: u64 := MAX_U64
  const WILDCARD_ROOT: Bytes32 := Fill(32, 0xFF)
  const NO_KEY: Bytes20 := Fill(20, 0)

  const SESSION_AUTH_DOMAIN: Bytes := Ascii("ckb-controller/session-auth/v1")

  datatype LockError =
    | Sys(error: SysError)
    | MultipleInputs | ArgsLenError | EmptyWitnessError | WitnessLenError | InvalidMode
    | WrongSessionKey | SessionDisabled | SessionExpired
    | PolicyNotAllowed | PolicyProofMissing | PolicyProofMalformed
    | SessionCannotAdminister | SpendCapExceeded | AuthError

  type Verdict = Result<(), LockError>

  datatype SessionParams = SessionParams(
    sessionHash: Bytes20, expiresAt: u64, policiesRoot: Bytes32, spendCap: u128, guardianHash: Bytes20)

  function ParseSessionParams(b: Bytes): SessionParams
    requires |b| == SESSION_PARAMS_LEN
  {
    SessionParams(
      Slice(b, 0, 20),
      ReadU64(Slice(b, 20, 8)),
      Slice(b, 28, 32),
      ReadU128(Slice(b, 60, 16)),
      Slice(b, 76, 20))
  }

  /** The revocation epoch held in an account cell's data. */
  function RevocationEpoch(data: Bytes): u64 {
    if |data| >= REVOCATION_EPOCH_LEN then ReadU64(Slice(data, 0, REVOCATION_EPOCH_LEN)) else 0
  }

  /** What the owner's blessing of a session hashes. */
  function AuthInput(scriptHash: Bytes32, epoch: u64, params: Bytes): Bytes {
    SESSION_AUTH_DOMAIN + scriptHash + LE64(epoch) + params
  }

  function SessionAuthMessage(c: Crypto, scriptHash: Bytes32, epoch: u64, params: Bytes): Bytes32 {
    c.blake2b(AuthInput(scriptHash, epoch, params))
  }

  /** A blessing is bound to its lock, epoch and params: one message for two of
      them is a collision of the two strings hashed. */
  lemma AuthMessageBinds(c: Crypto, h: Bytes32, epoch: u64, params: Bytes, h': Bytes32, epoch': u64, params': Bytes)
    requires SessionAuthMessage(c, h, epoch, params) == SessionAuthMessage(c, h', epoch', params')
    ensures (h == h' && epoch == epoch' && params == params')
      || Collide(c, AuthInput(h, epoch, params), AuthInput(h', epoch', params'))
  {
    if AuthInput(h, epoch, params) == AuthInput(h', epoch', params') {
      AuthInputParts(h, epoch, params);
      AuthInputParts(h', epoch', params');
    }
  }

  lemma AuthInputParts(h: Bytes32, epoch: u64, params: Bytes)
    ensures var b, d := AuthInput(h, epoch, params), |SESSION_AUTH_DOMAIN|;
      && |b| == d + 40 + |params|
      && b[d..d + 32] == h && ReadU64(b[d + 32..d + 40]) == epoch && b[d + 40..] == params
  {
    var front := SESSION_AUTH_DOMAIN + h;
    var b, d := AuthInput(h, epoch, params), |SESSION_AUTH_DOMAIN|;
    assert b == front + LE64(epoch) + params;
    assert b[d + 32..d + 40] == LE64(epoch);
    ReadWrite64(epoch);
  }

  /** The lock's form: a fixed buffer filled field by field. */
  method FillSessionAuthMessage(c: Crypto, scriptHash: Bytes32, epoch: u64, params: Bytes) returns (h: Bytes32)
    requires |params| == SESSION_PARAMS_LEN
    ensures h == SessionAuthMessage(c, scriptHash, epoch, params)
  {
    var d := |SESSION_AUTH_DOMAIN|;
    var buf := new byte[d + 32 + REVOCATION_EPOCH_LEN + SESSION_PARAMS_LEN](_ => 0);
    var le := LE64(epoch);
    forall i | 0 <= i < d {
      buf[i] := SESSION_AUTH_DOMAIN[i];
    }
    forall i | 0 <= i < 32 {
      buf[d + i] := scriptHash[i];
    }
    forall i | 0 <= i < 8 {
      buf[d + 32 + i] := le[i];
    }
    forall i | 0 <= i < SESSION_PARAMS_LEN {
      buf[d + 40 + i] := params[i];
    }
    assert buf[..] == SESSION_AUTH_DOMAIN + scriptHash + le + params;
    h := c.blake2b(buf[..]);
  }

  // ---- Merkle proofs as flat bytes ------------------------------------------

  function Chunks(proof: Bytes): seq<Bytes32>
    requires |proof| % 32 == 0
  {
    if proof == [] then [] else [proof[..32]] + Chunks(proof[32..])
  }

  /** Membership as the lock checks it, on a flat run of 32-byte siblings. */
  predicate FlatMember(c: Crypto, root: Bytes32, leaf: Bytes32, proof: Bytes) {
    |proof| % 32 == 0 && Climb(c, leaf, Chunks(proof)) == root
  }

  lemma ClimbChunk(c: Crypto, node: Bytes32, proof: Bytes)
    requires |proof| >= 32 && |proof| % 32 == 0
    ensures Climb(c, node, Chunks(proof)) == Climb(c, Pair(c, node, proof[..32]), Chunks(proof[32..]))
  {
    ClimbCons(c, node, proof[..32], Chunks(proof[32..]));
  }

  method MerkleVerifyFlat(c: Crypto, root: Bytes32, leaf: Bytes32, proof: Bytes) returns (ok: bool)
    ensures ok <==> FlatMember(c, root, leaf, proof)
  {
    if |proof| % 32 != 0 {
      return false;
    }
    var node := leaf;
    var at := 0;
    while at < |proof|
      invariant 0 <= at <= |proof| && (|proof| - at) % 32 == 0
      invariant Climb(c, node, Chunks(proof[at..])) == Climb(c, leaf, Chunks(proof))
    {
      var sibling: Bytes32 := Slice(proof, at, 32);
      assert proof[at..][..32] == sibling && proof[at..][32..] == proof[at + 32..];
      ClimbChunk(c, node, proof[at..]);
      node := HashPair(c, node, sibling);
      at := at + 32;
    }
    assert proof[at..] == [];
    ok := node == root;
  }

  // ---- Policy walk ----------------------------------------------------------

  /** Same lock code as the account, whatever the args. */
  predicate SameCode(self: Script, lock: Script) {
    self.codeHash == lock.codeHash && self.hashType == lock.hashType
  }

  /** The leaf an output must prove for a policy of this kind. */
  function OutputLeaf(c: Crypto, kind: byte, output: CellOutput): Result<Bytes32, LockError> {
    if kind == POLICY_KIND_TYPE then
      match output.typ
      case Some(t) => Ok(PolicyLeaf(c, c.scriptHash(t)))
      case None => Err(PolicyNotAllowed)
    else if kind == POLICY_KIND_LOCK then Ok(PolicyLeaf(c, c.scriptHash(output.lock)))
    else Err(PolicyProofMalformed)
  }

  /** The verdict on one output that is not the account's own, and what is left
      of the region once its frame is consumed. */
  function TakeFrame(c: Crypto, root: Bytes32, output: CellOutput, region: Bytes): (r: Result<Bytes, LockError>)
    ensures r.Ok? ==> |r.value| < |region|
  {
    if |region| < 2 then Err(PolicyProofMissing)
    else
      var n: nat := region[1] as int * 32;
      if |region| < 2 + n then Err(PolicyProofMalformed)
      else
        match OutputLeaf(c, region[0], output)
        case Err(e) => Err(e)
        case Ok(leaf) =>
          if FlatMember(c, root, leaf, region[2..2 + n]) then Ok(region[2 + n..]) else Err(PolicyNotAllowed)
  }

  function PolicyVerdict(c: Crypto, self: Script, root: Bytes32, outputs: seq<Cell>, region: Bytes): Verdict
    decreases |outputs|
  {
    if outputs == [] then Ok(())
    else if SameCode(self, outputs[0].output.lock) then PolicyVerdict(c, self, root, outputs[1..], region)
    else
      match TakeFrame(c, root, outputs[0].output, region)
      case Err(e) => Err(e)
      case Ok(left) => PolicyVerdict(c, self, root, outputs[1..], left)
  }

  method CheckOutputPolicies(c: Crypto, self: Script, root: Bytes32, outputs: seq<Cell>, region: Bytes)
    returns (r: Verdict)
    ensures r == PolicyVerdict(c, self, root, outputs, region)
  {
    var cursor, index := 0, 0;
    while index < |outputs|
      invariant 0 <= index <= |outputs| && 0 <= cursor <= |region|
      invariant PolicyVerdict(c, self, root, outputs[index..], region[cursor..])
             == PolicyVerdict(c, self, root, outputs, region)
    {
      ghost var left := region[cursor..];
      assert outputs[index..][1..] == outputs[index + 1..];
      var output := outputs[index].output;
      if SameCode(self, output.lock) {
        index := index + 1;
        continue;
      }
      if cursor + 2 > |region| {
        return Err(PolicyProofMissing);
      }
      var kind := region[cursor];
      var bytes: nat := region[cursor + 1] as int * 32;
      cursor := cursor + 2;
      if cursor + bytes > |region| {
        return Err(PolicyProofMalformed);
      }
      var proof := Slice(region, cursor, bytes);
      cursor := cursor + bytes;
      assert left[2..2 + bytes] == proof && left[2 + bytes..] == region[cursor..];
      var leaf;
      if kind == POLICY_KIND_TYPE {
        if output.typ.None? {
          return Err(PolicyNotAllowed);
        }
        leaf := PolicyLeaf(c, c.scriptHash(output.typ.value));
      } else if kind == POLICY_KIND_LOCK {
        leaf := PolicyLeaf(c, c.scriptHash(output.lock));
      } else {
        return Err(PolicyProofMalformed);
      }
      var ok := MerkleVerifyFlat(c, root, leaf, proof);
      if !ok {
        return Err(PolicyNotAllowed);
      }
      index := index + 1;
    }
    r := Ok(());
  }

  // ---- Continuity and spend cap ---------------------------------------------

  /** The exact continuation of the account: same lock, same data. */
  predicate Continues(self: Script, data: Bytes, cell: Cell) {
    SameCode(self, cell.output.lock) && cell.output.lock.args == self.args && cell.data == data
  }

  /** No output under the account's code alters its args or its data. */
  predicate AllContinue(self: Script, data: Bytes, outputs: seq<Cell>) {
    forall cell :: cell in outputs && SameCode(self, cell.output.lock) ==> Continues(self, data, cell)
  }

  function CapacityUnder(self: Script): Cell -> nat {
    (cell: Cell) => if SameCode(self, cell.output.lock) then cell.output.capacity else 0
  }

  function CellCapacity(): Cell -> nat {
    (cell: Cell) => cell.output.capacity
  }

  function Clamp128(n: nat): u128 {
    if n <= MAX_U128 then n else MAX_U128
  }

  /** Capacity returned to the account, if every output under its code continues
      it exactly. */
  function AccountVerdict(self: Script, data: Bytes, outputs: seq<Cell>): Result<u128, LockError> {
    if AllContinue(self, data, outputs) then Ok(Clamp128(SumOf(CapacityUnder(self), outputs)))
    else Err(SessionCannotAdminister)
  }

  method EnforceAccountOutputs(self: Script, inputData: Bytes, outputs: seq<Cell>)
    returns (r: Result<u128, LockError>)
    ensures r == AccountVerdict(self, inputData, outputs)
  {
    var returned: u128 := 0;
    var index := 0;
    while index < |outputs|
      invariant 0 <= index <= |outputs|
      invariant returned == Clamp128(SumOf(CapacityUnder(self), outputs[..index]))
      invariant AllContinue(self, inputData, outputs[..index])
    {
      var cell := outputs[index];
      assert cell in outputs;
      SumOfSnoc(CapacityUnder(self), outputs, index);
      assert outputs[..index + 1] == outputs[..index] + [cell];
      if SameCode(self, cell.output.lock) {
        if cell.output.lock.args != self.args {
          return Err(SessionCannotAdminister);
        }
        if cell.data != inputData {
          return Err(SessionCannotAdminister);
        }
        returned := SaturatingAdd(returned, cell.output.capacity);
      }
      index := index + 1;
    }
    assert outputs[..index] == outputs;
    r := Ok(returned);
  }

  lemma SumOfOne(cell: Cell)
    ensures SumOf(CellCapacity(), [cell]) == cell.output.capacity
  {
    assert [cell][1..] == [];
    assert SumOf(CellCapacity(), [cell][1..]) == 0;
  }

  function SpendVerdict(cap: u128, inputs: seq<Cell>, returned: u128): Verdict {
    if cap == SPEND_CAP_UNLIMITED then Ok(())
    else if SaturatingSub(Clamp128(SumOf(CellCapacity(), inputs)), returned) > cap then Err(SpendCapExceeded)
    else Ok(())
  }

  method CheckSpendCap(cap: u128, inputs: seq<Cell>, returned: u128) returns (r: Verdict)
    ensures r == SpendVerdict(cap, inputs, returned)
  {
    if cap == SPEND_CAP_UNLIMITED {
      return Ok(());
    }
    var total: u128 := 0;
    var i := 0;
    while i < |inputs|
      invariant 0 <= i <= |inputs|
      invariant total == Clamp128(SumOf(CellCapacity(), inputs[..i]))
    {
      SumOfSnoc(CellCapacity(), inputs, i);
      total := SaturatingAdd(total, inputs[i].output.capacity);
      i := i + 1;
    }
    assert inputs[..i] == inputs;
    if SaturatingSub(total, returned) > cap {
      return Err(SpendCapExceeded);
    }
    r := Ok(());
  }

  // ---- Session mode ---------------------------------------------------------

  function SignatureVerdict(c: Crypto, sig: Bytes, message: Bytes32, key: Bytes20): Verdict {
    if c.sigOk(sig, message, key) then Ok(()) else Err(AuthError)
  }

  /** The session's parameters and the bytes that follow them, from the args
      (registered) or from the witness (authorization carried). */
  function ResolveSession(c: Crypto, script: Script, data: Bytes, rest: Bytes)
    : Result<(SessionParams, Bytes), LockError>
  {
    if |script.args| == ARGS_LEN then
      Ok((ParseSessionParams(Slice(script.args, OWNER_ONLY_ARGS_LEN, SESSION_PARAMS_LEN)), rest))
    else if |script.args| == OWNER_ONLY_ARGS_LEN then
      if |rest| < SESSION_PARAMS_LEN + SIGNATURE_LEN then Err(WitnessLenError)
      else
        var params := Slice(rest, 0, SESSION_PARAMS_LEN);
        var ownerAuth := Slice(rest, SESSION_PARAMS_LEN, SIGNATURE_LEN);
        var message := SessionAuthMessage(c, c.scriptHash(script), RevocationEpoch(data), params);
        var _ :- SignatureVerdict(c, ownerAuth, message, Slice(script.args, 0, 20));
        Ok((ParseSessionParams(params), rest[SESSION_PARAMS_LEN + SIGNATURE_LEN..]))
    else Err(ArgsLenError)
  }

  /** Session and guardian signatures; on success, the proof region after them. */
  function CheckSignatures(c: Crypto, p: SessionParams, sigRegion: Bytes, message: Bytes32): Result<Bytes, LockError> {
    if p.sessionHash == NO_KEY then Err(SessionDisabled)
    else if |sigRegion| < SIGNATURE_LEN then Err(WitnessLenError)
    else
      var _ :- SignatureVerdict(c, Slice(sigRegion, 0, SIGNATURE_LEN), message, p.sessionHash);
      if p.guardianHash == NO_KEY then Ok(sigRegion[SIGNATURE_LEN..])
      else if |sigRegion| < 2 * SIGNATURE_LEN then Err(WitnessLenError)
      else
        var _ :- SignatureVerdict(c, Slice(sigRegion, SIGNATURE_LEN, SIGNATURE_LEN), message, p.guardianHash);
        Ok(sigRegion[2 * SIGNATURE_LEN..])
  }

  /** Not expired, by the first header dep's timestamp; the never-expires
      sentinel reads no header. */
  function ExpiryVerdict(p: SessionParams, timestamps: seq<u64>): Verdict {
    if p.expiresAt == NO_EXPIRY then Ok(())
    else if timestamps == [] then Err(Sys(IndexOutOfBound))
    else if timestamps[0] / 1000 >= p.expiresAt then Err(SessionExpired)
    else Ok(())
  }

  function GroupCells(c: Crypto, rtx: ResolvedTx, script: Script): seq<Cell> {
    var group := LockGroup(c, rtx, script);
    seq(|group|, i requires 0 <= i < |group| =>
      assert group[i] in group; rtx.spent[group[i]])
  }

  function LimitsVerdict(c: Crypto, rtx: ResolvedTx, script: Script, data: Bytes, p: SessionParams, region: Bytes)
    : Verdict
  {
    var outputs := rtx.tx.raw.outputs;
    var _ :- ExpiryVerdict(p, rtx.timestamps);
    var _ :-
      if p.policiesRoot == WILDCARD_ROOT then Ok(())
      else PolicyVerdict(c, script, p.policiesRoot, outputs, region);
    var returned :- AccountVerdict(script, data, outputs);
    SpendVerdict(p.spendCap, GroupCells(c, rtx, script), returned)
  }

  /** Resolves the session and checks its signatures: its parameters and the
      proof region. */
  function OpenSession(c: Crypto, rtx: ResolvedTx, script: Script, data: Bytes, rest: Bytes)
    : Result<(SessionParams, Bytes), LockError>
  {
    var (p, sigRegion) :- ResolveSession(c, script, data, rest);
    var region :- CheckSignatures(c, p, sigRegion, TxMessage(c, rtx.tx));
    Ok((p, region))
  }

  function SessionVerdict(c: Crypto, rtx: ResolvedTx, script: Script, data: Bytes, rest: Bytes): Verdict {
    var (p, region) :- OpenSession(c, rtx, script, data, rest);
    LimitsVerdict(c, rtx, script, data, p, region)
  }

  method VerifySession(c: Crypto, rtx: ResolvedTx, script: Script, data: Bytes, rest: Bytes) returns (r: Verdict)
    ensures r == SessionVerdict(c, rtx, script, data, rest)
  {
    hide PolicyVerdict, AccountVerdict, SpendVerdict, CheckSignatures, RevocationEpoch, SessionAuthMessage;
    var p, sigRegion;
    if |script.args| == ARGS_LEN {
      p := ParseSessionParams(Slice(script.args, OWNER_ONLY_ARGS_LEN, SESSION_PARAMS_LEN));
      sigRegion := rest;
    } else if |script.args| == OWNER_ONLY_ARGS_LEN {
      if |rest| < SESSION_PARAMS_LEN + SIGNATURE_LEN {
        return Err(WitnessLenError);
      }
      var block := Slice(rest, 0, SESSION_PARAMS_LEN);
      var message := FillSessionAuthMessage(c, c.scriptHash(script), RevocationEpoch(data), block);
      if !c.sigOk(Slice(rest, SESSION_PARAMS_LEN, SIGNATURE_LEN), message, Slice(script.args, 0, 20)) {
        return Err(AuthError);
      }
      p := ParseSessionParams(block);
      sigRegion := rest[SESSION_PARAMS_LEN + SIGNATURE_LEN..];
    } else {
      return Err(ArgsLenError);
    }

    var region :- CheckSignatures(c, p, sigRegion, TxMessage(c, rtx.tx));
    var _ :- ExpiryVerdict(p, rtx.timestamps);
    if p.policiesRoot != WILDCARD_ROOT {
      var policy := CheckOutputPolicies(c, script, p.policiesRoot, rtx.tx.raw.outputs, region);
      if policy.Err? {
        return policy;
      }
    }
    var account := EnforceAccountOutputs(script, data, rtx.tx.raw.outputs);
    if account.Err? {
      return Err(account.error);
    }
    r := CheckSpendCap(p.spendCap, GroupCells(c, rtx, script), account.value);
  }

  // ---- Entry point ----------------------------------------------------------

  function OwnerVerdict(c: Crypto, script: Script, rest: Bytes, message: Bytes32): Verdict
    requires |script.args| >= 20
  {
    if |rest| < SIGNATURE_LEN then Err(WitnessLenError)
    else SignatureVerdict(c, Slice(rest, 0, SIGNATURE_LEN), message, Slice(script.args, 0, 20))
  }

  /** The lock's verdict on a transaction spending a cell it guards. */
  function LockVerdict(c: Crypto, rtx: ResolvedTx, script: Script): Verdict {
    var group := LockGroup(c, rtx, script);
    if |group| >= 2 then Err(MultipleInputs)
    else if |script.args| != ARGS_LEN && |script.args| != OWNER_ONLY_ARGS_LEN then Err(ArgsLenError)
    else if group == [] then Err(Sys(IndexOutOfBound))
    else
      assert group[0] in group;
      match WitnessArgsAt(rtx, group[0])
      case Err(e) => Err(Sys(e))
      case Ok(args) =>
        if args.lock.None? || args.lock.value == [] then Err(EmptyWitnessError)
        else
          var bytes := args.lock.value;
          if bytes[0] == MODE_OWNER then OwnerVerdict(c, script, bytes[1..], TxMessage(c, rtx.tx))
          else if bytes[0] == MODE_SESSION then SessionVerdict(c, rtx, script, rtx.spent[group[0]].data, bytes[1..])
          else Err(InvalidMode)
  }

  /** The lock bytes of the account input's witness, when there is exactly one
      account input and its witness carries some. */
  function LockBytes(c: Crypto, rtx: ResolvedTx, script: Script): Bytes {
    var group := LockGroup(c, rtx, script);
    if |group| != 1 then []
    else
      match WitnessArgsAt(rtx, group[0])
      case Err(_) => []
      case Ok(args) => if args.lock.Some? then args.lock.value else []
  }

  /** The transaction was let through by a session key. */
  predicate SessionAccepts(c: Crypto, rtx: ResolvedTx, script: Script) {
    && LockVerdict(c, rtx, script).Ok?
    && LockBytes(c, rtx, script) != []
    && LockBytes(c, rtx, script)[0] == MODE_SESSION
  }

  /** The one account cell an accepted transaction spends. */
  function AccountCell(c: Crypto, rtx: ResolvedTx, script: Script): Cell
    requires |LockGroup(c, rtx, script)| == 1
  {
    var group := LockGroup(c, rtx, script);
    assert group[0] in group;
    rtx.spent[group[0]]
  }

  /** What session acceptance consists of. */
  lemma SessionAcceptsMeans(c: Crypto, rtx: ResolvedTx, script: Script)
    requires SessionAccepts(c, rtx, script)
    ensures |LockGroup(c, rtx, script)| == 1
    ensures
      var cell := AccountCell(c, rtx, script);
      var session := OpenSession(c, rtx, script, cell.data, LockBytes(c, rtx, script)[1..]);
      && GroupCells(c, rtx, script) == [cell]
      && session.Ok?
      && LimitsVerdict(c, rtx, script, cell.data, session.value.0, session.value.1).Ok?
  {
  }

  /** The parameters and proof region of the session that let a transaction
      through. */
  function Session(c: Crypto, rtx: ResolvedTx, script: Script): (SessionParams, Bytes)
    requires SessionAccepts(c, rtx, script)
  {
    SessionAcceptsMeans(c, rtx, script);
    OpenSession(c, rtx, script, AccountCell(c, rtx, script).data, LockBytes(c, rtx, script)[1..]).value
  }
}
