/**
 The SDK's side of the lock's byte layouts: session params, account args, epoch
 data and the three witnesses. Each layout is read back exactly by the lock, so
 the lock's verdict on an SDK-built witness is a plain check of its parts.
 */
module SessionWitness {
  import opened Prelude
  import opened Chain
  import opened MerkleSoundness
  import opened SessionLock
  import opened PolicyCoverage

  // ---- Builders -------------------------------------------------------------

  function SessionParamsBlock(p: SessionParams): (b: Bytes)
    ensures |b| == SESSION_PARAMS_LEN
  {
    p.sessionHash + LE64(p.expiresAt) + p.policiesRoot + LE128(p.spendCap) + p.guardianHash
  }

  function OwnerOnlyArgs(owner: Bytes20): Bytes {
    owner
  }

  function RegisteredArgs(owner: Bytes20, params: Bytes): Bytes {
    owner + params
  }

  function EpochData(epoch: u64): Bytes {
    if epoch == 0 then [] else LE64(epoch)
  }

  function WrapLock(bytes: Bytes): Witness {
    Structured(WitnessArgs(Some(bytes), None, None))
  }

  function OrEmpty(sig: Option<Bytes>): Bytes {
    if sig.Some? then sig.value else []
  }

  function OwnerWitness(ownerSig: Bytes): Witness {
    WrapLock([MODE_OWNER] + ownerSig)
  }

  function RegisteredWitness(sessionSig: Bytes, guardianSig: Option<Bytes>, region: Bytes): Witness {
    WrapLock([MODE_SESSION] + (sessionSig + OrEmpty(guardianSig) + region))
  }

  function CarriedWitness(
    params: Bytes, ownerAuth: Bytes, sessionSig: Bytes, guardianSig: Option<Bytes>, region: Bytes): Witness
  {
    WrapLock([MODE_SESSION] + (params + ownerAuth + (sessionSig + OrEmpty(guardianSig) + region)))
  }

  // ---- Layouts read back ----------------------------------------------------

  /** The five fields sit at the lock's offsets. */
  lemma ParamsParts(session: Bytes, expiry: Bytes, root: Bytes, cap: Bytes, guardian: Bytes)
    requires |session| == 20 && |expiry| == 8 && |root| == 32 && |cap| == 16 && |guardian| == 20
    ensures var b := session + expiry + root + cap + guardian;
      && |b| == SESSION_PARAMS_LEN
      && Slice(b, 0, 20) == session && Slice(b, 20, 8) == expiry && Slice(b, 28, 32) == root
      && Slice(b, 60, 16) == cap && Slice(b, 76, 20) == guardian
  {
    var a1 := session + expiry;
    var a2 := a1 + root;
    var a3 := a2 + cap;
    var b := a3 + guardian;
    assert |a1| == 28 && |a2| == 60 && |a3| == 76;
    assert b[0..20] == a1[0..20] == session by {
      assert b[..28] == a1;
    }
    assert b[20..28] == a1[20..28] == expiry by {
      assert b[..28] == a1;
    }
    assert b[28..60] == a2[28..60] == root by {
      assert b[..60] == a2;
    }
    assert b[60..76] == a3[60..76] == cap;
    assert b[76..96] == guardian;
  }

  lemma ParamsReadBack(p: SessionParams)
    ensures ParseSessionParams(SessionParamsBlock(p)) == p
  {
    ParamsParts(p.sessionHash, LE64(p.expiresAt), p.policiesRoot, LE128(p.spendCap), p.guardianHash);
    ReadWrite64(p.expiresAt);
    ReadWrite128(p.spendCap);
  }

  /** No two parameter blocks parse alike. */
  lemma ParamsBlockUnique(b: Bytes)
    requires |b| == SESSION_PARAMS_LEN
    ensures SessionParamsBlock(ParseSessionParams(b)) == b
  {
    ToFromLE(b[20..28]);
    ToFromLE(b[60..76]);
    assert b == b[0..20] + b[20..28] + b[28..60] + b[60..76] + b[76..96];
  }

  lemma EpochReadBack(epoch: u64)
    ensures RevocationEpoch(EpochData(epoch)) == epoch
  {
    ReadWrite64(epoch);
    if epoch != 0 {
      assert LE64(epoch)[0..8] == LE64(epoch);
    }
  }

  // ---- Verdicts on SDK witnesses --------------------------------------------

  /** The first header dep's timestamp, in milliseconds, is before the expiry, in
      seconds. Which committed header that is, the transaction's builder chooses. */
  ghost predicate NotExpired(p: SessionParams, timestamps: seq<u64>) {
    p.expiresAt == NO_EXPIRY || (timestamps != [] && timestamps[0] < 1000 * p.expiresAt)
  }

  /** Enough capacity comes back for the cap. */
  ghost predicate WithinCap(script: Script, spent: Cell, outputs: seq<Cell>, cap: u128) {
    cap == SPEND_CAP_UNLIMITED || spent.output.capacity <= SumOf(CapacityUnder(script), outputs) + cap
  }

  /** The guard rails of a session, each said outright: the header it shows, policy,
      continuity and capacity. */
  ghost predicate WithinLimits(
    c: Crypto, rtx: ResolvedTx, script: Script, spent: Cell, p: SessionParams, region: Bytes)
  {
    NotExpired(p, rtx.timestamps) && WithinRails(c, rtx.tx.raw.outputs, script, spent, p, region)
  }

  /** The guard rails that do not look at headers. */
  ghost predicate WithinRails(
    c: Crypto, outputs: seq<Cell>, script: Script, spent: Cell, p: SessionParams, region: Bytes)
  {
    && (p.policiesRoot != WILDCARD_ROOT ==>
          AllJustified(c, p.policiesRoot, Foreign(script, outputs), FramesRead(script, outputs, region)))
    && AllContinue(script, spent.data, outputs)
    && WithinCap(script, spent, outputs, p.spendCap)
  }

  lemma SpendExact(script: Script, spent: Cell, outputs: seq<Cell>, cap: u128)
    ensures SpendVerdict(cap, [spent], Clamp128(SumOf(CapacityUnder(script), outputs))).Ok?
      <==> WithinCap(script, spent, outputs, cap)
  {
    SumOfOne(spent);
  }

  /** The lock's checks, cursors and saturating sums included, enforce exactly the
      guard rails. */
  lemma LimitsExact(c: Crypto, rtx: ResolvedTx, script: Script, at: nat, p: SessionParams, region: Bytes)
    requires LockGroup(c, rtx, script) == [at] && at < |rtx.spent|
    ensures LimitsVerdict(c, rtx, script, rtx.spent[at].data, p, region).Ok?
      <==> WithinLimits(c, rtx, script, rtx.spent[at], p, region)
  {
    var outputs := rtx.tx.raw.outputs;
    assert GroupCells(c, rtx, script) == [rtx.spent[at]];
    PolicyWalkExact(c, script, p.policiesRoot, outputs, region);
    SpendExact(script, rtx.spent[at], outputs, p.spendCap);
    assert ExpiryVerdict(p, rtx.timestamps).Ok? <==> NotExpired(p, rtx.timestamps);
  }

  /** What a session witness must satisfy, on its parts. */
  ghost predicate SessionAuthorizes(
    c: Crypto, rtx: ResolvedTx, script: Script, spent: Cell,
    p: SessionParams, sessionSig: Bytes, guardianSig: Option<Bytes>, region: Bytes)
  {
    && p.sessionHash != NO_KEY
    && c.sigOk(sessionSig, TxMessage(c, rtx.tx), p.sessionHash)
    && (guardianSig.Some? ==> c.sigOk(guardianSig.value, TxMessage(c, rtx.tx), p.guardianHash))
    && WithinLimits(c, rtx, script, spent, p, region)
  }

  /** Signature sizes, and a guardian signature exactly when one is configured. */
  ghost predicate WellSized(p: SessionParams, sessionSig: Bytes, guardianSig: Option<Bytes>) {
    && |sessionSig| == SIGNATURE_LEN
    && (guardianSig.Some? ==> |guardianSig.value| == SIGNATURE_LEN)
    && (guardianSig.Some? <==> p.guardianHash != NO_KEY)
  }

  /** A session key, and the guardian's where there is one, able to sign anything. */
  datatype SessionKey = SessionKey(sign: Bytes32 -> Bytes, guard: Option<Bytes32 -> Bytes>)

  function GuardSignature(key: SessionKey, message: Bytes32): Option<Bytes> {
    if key.guard.Some? then Some(key.guard.value(message)) else None
  }

  /** The key is the one the params name. */
  ghost predicate SignsFor(c: Crypto, key: SessionKey, p: SessionParams) {
    && p.sessionHash != NO_KEY
    && forall m: Bytes32 :: SignsMessage(c, key, p, m)
  }

  ghost predicate SignsMessage(c: Crypto, key: SessionKey, p: SessionParams, m: Bytes32) {
    && WellSized(p, key.sign(m), GuardSignature(key, m))
    && c.sigOk(key.sign(m), m, p.sessionHash)
    && (key.guard.Some? ==> c.sigOk(key.guard.value(m), m, p.guardianHash))
  }

  /** Any two signers whose signatures verify make a key, the guardian's taken along
      exactly when a guardian is configured. */
  lemma KeySigns(c: Crypto, p: SessionParams, sign: Bytes32 -> Bytes, guard: Bytes32 -> Bytes, message: Bytes32)
    requires p.sessionHash != NO_KEY
    requires forall m: Bytes32 :: |sign(m)| == 65 && c.sigOk(sign(m), m, p.sessionHash)
    requires forall m: Bytes32 :: |guard(m)| == 65 && c.sigOk(guard(m), m, p.guardianHash)
    ensures var key := SessionKey(sign, if p.guardianHash != NO_KEY then Some(guard) else None);
      && SignsFor(c, key, p)
      && GuardSignature(key, message) == (if p.guardianHash != NO_KEY then Some(guard(message)) else None)
  {
  }

  /** `rtx` spends one account cell, the one at `at`, under witness `w`. */
  ghost predicate SpendsWith(c: Crypto, rtx: ResolvedTx, script: Script, at: nat, w: Witness) {
    && LockGroup(c, rtx, script) == [at]
    && at < |rtx.spent|
    && at < |rtx.tx.witnesses| && rtx.tx.witnesses[at] == w
  }

  lemma SlicesOfSigRegion(sessionSig: Bytes, guardianSig: Bytes, region: Bytes)
    requires |sessionSig| == SIGNATURE_LEN
    ensures var r := sessionSig + guardianSig + region;
      && Slice(r, 0, SIGNATURE_LEN) == sessionSig
      && r[SIGNATURE_LEN..] == guardianSig + region
      && (|guardianSig| == SIGNATURE_LEN ==>
            Slice(r, SIGNATURE_LEN, SIGNATURE_LEN) == guardianSig && r[2 * SIGNATURE_LEN..] == region)
  {
  }

  /** The signature region is cut where it was glued. */
  lemma SignaturesReadBack(
    c: Crypto, p: SessionParams, sessionSig: Bytes, guardianSig: Option<Bytes>, region: Bytes, message: Bytes32)
    requires WellSized(p, sessionSig, guardianSig)
    ensures var r := CheckSignatures(c, p, sessionSig + OrEmpty(guardianSig) + region, message);
      && (r.Ok? <==>
            && p.sessionHash != NO_KEY
            && c.sigOk(sessionSig, message, p.sessionHash)
            && (guardianSig.Some? ==> c.sigOk(guardianSig.value, message, p.guardianHash)))
      && (r.Ok? ==> r.value == region)
  {
    SlicesOfSigRegion(sessionSig, OrEmpty(guardianSig), region);
    assert [] + region == region;
  }

  /** A guardian signature supplied without a guardian, or left out with one, and
      the lock does not see the region that was meant. */
  lemma GuardianMismatchShiftsRegion(
    c: Crypto, p: SessionParams, sessionSig: Bytes, guardianSig: Option<Bytes>, region: Bytes, message: Bytes32)
    requires |sessionSig| == SIGNATURE_LEN
    requires guardianSig.Some? ==> |guardianSig.value| == SIGNATURE_LEN
    requires CheckSignatures(c, p, sessionSig + OrEmpty(guardianSig) + region, message).Ok?
    ensures CheckSignatures(c, p, sessionSig + OrEmpty(guardianSig) + region, message).value == region
      <==> (guardianSig.Some? <==> p.guardianHash != NO_KEY)
  {
    SlicesOfSigRegion(sessionSig, OrEmpty(guardianSig), region);
    var seen := CheckSignatures(c, p, sessionSig + OrEmpty(guardianSig) + region, message).value;
    if guardianSig.Some? <==> p.guardianHash != NO_KEY {
      SignaturesReadBack(c, p, sessionSig, guardianSig, region, message);
    } else if guardianSig.Some? {
      assert |seen| == |region| + SIGNATURE_LEN;
    } else {
      assert |seen| + SIGNATURE_LEN == |region|;
    }
  }

  /** A witness in session mode is judged on the bytes after the mode byte. */
  lemma SessionModeVerdict(c: Crypto, rtx: ResolvedTx, script: Script, at: nat, rest: Bytes)
    requires |script.args| == ARGS_LEN || |script.args| == OWNER_ONLY_ARGS_LEN
    requires SpendsWith(c, rtx, script, at, WrapLock([MODE_SESSION] + rest))
    ensures LockVerdict(c, rtx, script) == SessionVerdict(c, rtx, script, rtx.spent[at].data, rest)
    ensures SessionAccepts(c, rtx, script) <==> LockVerdict(c, rtx, script).Ok?
    ensures SessionAccepts(c, rtx, script)
      ==> OpenSession(c, rtx, script, rtx.spent[at].data, rest) == Ok(Session(c, rtx, script))
  {
    hide OpenSession, LimitsVerdict, LockGroup;
    assert ([MODE_SESSION] + rest)[1..] == rest;
  }

  lemma SessionVerdictSteps(c: Crypto, rtx: ResolvedTx, script: Script, data: Bytes, rest: Bytes)
    ensures var session := OpenSession(c, rtx, script, data, rest);
      SessionVerdict(c, rtx, script, data, rest).Ok? <==>
        (session.Ok? && LimitsVerdict(c, rtx, script, data, session.value.0, session.value.1).Ok?)
  {
  }

  lemma OpensRegistered(c: Crypto, script: Script, owner: Bytes20, p: SessionParams, data: Bytes, rest: Bytes)
    requires script.args == RegisteredArgs(owner, SessionParamsBlock(p))
    ensures ResolveSession(c, script, data, rest) == Ok((p, rest))
  {
    assert Slice(script.args, OWNER_ONLY_ARGS_LEN, SESSION_PARAMS_LEN) == SessionParamsBlock(p);
    ParamsReadBack(p);
  }

  lemma OpensCarried(
    c: Crypto, script: Script, owner: Bytes20, ownerAuth: Bytes, p: SessionParams, data: Bytes, sigRegion: Bytes)
    requires script.args == OwnerOnlyArgs(owner) && |ownerAuth| == SIGNATURE_LEN
    ensures var r := ResolveSession(c, script, data, SessionParamsBlock(p) + ownerAuth + sigRegion);
      && (r.Ok? <==> c.sigOk(ownerAuth,
            SessionAuthMessage(c, c.scriptHash(script), RevocationEpoch(data), SessionParamsBlock(p)), owner))
      && (r.Ok? ==> r.value == (p, sigRegion))
  {
    SlicesOfCarried(SessionParamsBlock(p), ownerAuth, sigRegion);
    assert Slice(script.args, 0, 20) == owner;
    ParamsReadBack(p);
  }

  lemma SlicesOfCarried(params: Bytes, ownerAuth: Bytes, sigRegion: Bytes)
    requires |params| == SESSION_PARAMS_LEN && |ownerAuth| == SIGNATURE_LEN
    ensures var r := params + ownerAuth + sigRegion;
      && Slice(r, 0, SESSION_PARAMS_LEN) == params
      && Slice(r, SESSION_PARAMS_LEN, SIGNATURE_LEN) == ownerAuth
      && r[SESSION_PARAMS_LEN + SIGNATURE_LEN..] == sigRegion
  {
  }

  /** Registered model: the lock accepts an SDK witness exactly when its parts
      authorize the transaction. */
  lemma RegisteredWitnessMeans(
    c: Crypto, rtx: ResolvedTx, script: Script, at: nat, owner: Bytes20,
    p: SessionParams, sessionSig: Bytes, guardianSig: Option<Bytes>, region: Bytes)
    requires script.args == RegisteredArgs(owner, SessionParamsBlock(p))
    requires WellSized(p, sessionSig, guardianSig)
    requires SpendsWith(c, rtx, script, at, RegisteredWitness(sessionSig, guardianSig, region))
    ensures LockVerdict(c, rtx, script).Ok?
      <==> SessionAuthorizes(c, rtx, script, rtx.spent[at], p, sessionSig, guardianSig, region)
    ensures SessionAccepts(c, rtx, script) <==> LockVerdict(c, rtx, script).Ok?
    ensures SessionAccepts(c, rtx, script) ==> Session(c, rtx, script) == (p, region)
  {
    var rest := sessionSig + OrEmpty(guardianSig) + region;
    SessionModeVerdict(c, rtx, script, at, rest);
    SessionVerdictSteps(c, rtx, script, rtx.spent[at].data, rest);
    LimitsExact(c, rtx, script, at, p, region);
    OpensRegistered(c, script, owner, p, rtx.spent[at].data, rest);
    SignaturesReadBack(c, p, sessionSig, guardianSig, region, TxMessage(c, rtx.tx));
  }

  /** Authorization-carried model: the same, and the owner's blessing of exactly
      these params must hold for this lock at the epoch in the spent cell. */
  lemma CarriedWitnessMeans(
    c: Crypto, rtx: ResolvedTx, script: Script, at: nat, owner: Bytes20, ownerAuth: Bytes,
    p: SessionParams, sessionSig: Bytes, guardianSig: Option<Bytes>, region: Bytes)
    requires script.args == OwnerOnlyArgs(owner)
    requires |ownerAuth| == SIGNATURE_LEN && WellSized(p, sessionSig, guardianSig)
    requires SpendsWith(c, rtx, script, at,
      CarriedWitness(SessionParamsBlock(p), ownerAuth, sessionSig, guardianSig, region))
    ensures LockVerdict(c, rtx, script).Ok?
      <==> && c.sigOk(ownerAuth,
                SessionAuthMessage(c, c.scriptHash(script), RevocationEpoch(rtx.spent[at].data), SessionParamsBlock(p)),
                owner)
           && SessionAuthorizes(c, rtx, script, rtx.spent[at], p, sessionSig, guardianSig, region)
    ensures SessionAccepts(c, rtx, script) <==> LockVerdict(c, rtx, script).Ok?
    ensures SessionAccepts(c, rtx, script) ==> Session(c, rtx, script) == (p, region)
  {
    var sigRegion := sessionSig + OrEmpty(guardianSig) + region;
    var rest := SessionParamsBlock(p) + ownerAuth + sigRegion;
    SessionModeVerdict(c, rtx, script, at, rest);
    SessionVerdictSteps(c, rtx, script, rtx.spent[at].data, rest);
    LimitsExact(c, rtx, script, at, p, region);
    OpensCarried(c, script, owner, ownerAuth, p, rtx.spent[at].data, sigRegion);
    SignaturesReadBack(c, p, sessionSig, guardianSig, region, TxMessage(c, rtx.tx));
  }

  /** Owner mode: the owner's signature over the transaction, and nothing else. */
  lemma OwnerWitnessMeans(
    c: Crypto, rtx: ResolvedTx, script: Script, at: nat, owner: Bytes20, params: Bytes, sig: Bytes)
    requires script.args == OwnerOnlyArgs(owner)
      || (|params| == SESSION_PARAMS_LEN && script.args == RegisteredArgs(owner, params))
    requires |sig| == SIGNATURE_LEN
    requires SpendsWith(c, rtx, script, at, OwnerWitness(sig))
    ensures LockVerdict(c, rtx, script).Ok? <==> c.sigOk(sig, TxMessage(c, rtx.tx), owner)
    ensures !SessionAccepts(c, rtx, script)
  {
    var bytes := [MODE_OWNER] + sig;
    assert bytes[1..] == sig;
    assert Slice(sig, 0, SIGNATURE_LEN) == sig;
    assert Slice(script.args, 0, 20) == owner;
    assert LockVerdict(c, rtx, script) == OwnerVerdict(c, script, sig, TxMessage(c, rtx.tx));
  }

  // ---- Every accepted session has the SDK's form ----------------------------

  /** The signature region of any successful check is cut into a session signature,
      a guardian signature exactly when one is configured, and the rest. */
  lemma SignaturesCut(c: Crypto, p: SessionParams, sigRegion: Bytes, message: Bytes32)
    returns (sessionSig: Bytes, guardianSig: Option<Bytes>)
    requires CheckSignatures(c, p, sigRegion, message).Ok?
    ensures WellSized(p, sessionSig, guardianSig)
    ensures sigRegion == sessionSig + OrEmpty(guardianSig) + CheckSignatures(c, p, sigRegion, message).value
    ensures p.sessionHash != NO_KEY && c.sigOk(sessionSig, message, p.sessionHash)
    ensures guardianSig.Some? ==> c.sigOk(guardianSig.value, message, p.guardianHash)
  {
    sessionSig := sigRegion[..SIGNATURE_LEN];
    guardianSig := None;
    if p.guardianHash != NO_KEY {
      guardianSig := Some(sigRegion[SIGNATURE_LEN..2 * SIGNATURE_LEN]);
    }
  }

  lemma GroupIsOne(c: Crypto, rtx: ResolvedTx, script: Script)
    requires |LockGroup(c, rtx, script)| == 1
    ensures var at := LockGroup(c, rtx, script)[0];
      LockGroup(c, rtx, script) == [at] && at < |rtx.spent| && rtx.spent[at] == AccountCell(c, rtx, script)
  {
    assert LockGroup(c, rtx, script)[0] in LockGroup(c, rtx, script);
  }

  /** An accepted session keeps the guard rails, and its signatures verify. */
  lemma AcceptedParts(c: Crypto, rtx: ResolvedTx, script: Script)
    returns (sigRegion: Bytes, sessionSig: Bytes, guardianSig: Option<Bytes>)
    requires SessionAccepts(c, rtx, script)
    ensures |LockGroup(c, rtx, script)| == 1
    ensures ResolveSession(c, script, AccountCell(c, rtx, script).data, LockBytes(c, rtx, script)[1..])
      == Ok((Session(c, rtx, script).0, sigRegion))
    ensures WellSized(Session(c, rtx, script).0, sessionSig, guardianSig)
    ensures sigRegion == sessionSig + OrEmpty(guardianSig) + Session(c, rtx, script).1
    ensures SessionAuthorizes(c, rtx, script, AccountCell(c, rtx, script),
      Session(c, rtx, script).0, sessionSig, guardianSig, Session(c, rtx, script).1)
  {
    SessionAcceptsMeans(c, rtx, script);
    var data, rest := AccountCell(c, rtx, script).data, LockBytes(c, rtx, script)[1..];
    var p, region := Session(c, rtx, script).0, Session(c, rtx, script).1;
    sigRegion := ResolveSession(c, script, data, rest).value.1;
    sessionSig, guardianSig := SignaturesCut(c, p, sigRegion, TxMessage(c, rtx.tx));
    GroupIsOne(c, rtx, script);
    LimitsExact(c, rtx, script, LockGroup(c, rtx, script)[0], p, region);
  }

  lemma RegisteredArgsForm(c: Crypto, script: Script, data: Bytes, rest: Bytes)
    requires |script.args| == ARGS_LEN
    ensures ResolveSession(c, script, data, rest).Ok?
    ensures var (p, sigRegion) := ResolveSession(c, script, data, rest).value;
      script.args == RegisteredArgs(script.args[..20], SessionParamsBlock(p)) && sigRegion == rest
  {
    var block := Slice(script.args, OWNER_ONLY_ARGS_LEN, SESSION_PARAMS_LEN);
    ParamsBlockUnique(block);
    assert script.args == script.args[..20] + block;
  }

  /** Registered model: an accepted session transaction carries exactly an SDK
      witness for the params in the args, and its parts authorize it. */
  lemma AcceptedRegisteredForm(c: Crypto, rtx: ResolvedTx, script: Script)
    returns (sessionSig: Bytes, guardianSig: Option<Bytes>)
    requires SessionAccepts(c, rtx, script) && |script.args| == ARGS_LEN
    ensures |LockGroup(c, rtx, script)| == 1
    ensures script.args == RegisteredArgs(script.args[..20], SessionParamsBlock(Session(c, rtx, script).0))
    ensures WellSized(Session(c, rtx, script).0, sessionSig, guardianSig)
    ensures WrapLock(LockBytes(c, rtx, script)) == RegisteredWitness(sessionSig, guardianSig, Session(c, rtx, script).1)
    ensures SessionAuthorizes(c, rtx, script, AccountCell(c, rtx, script),
      Session(c, rtx, script).0, sessionSig, guardianSig, Session(c, rtx, script).1)
  {
    hide SessionAuthorizes, WellSized, ResolveSession, LockVerdict, Session;
    var bytes := LockBytes(c, rtx, script);
    var sigRegion;
    sigRegion, sessionSig, guardianSig := AcceptedParts(c, rtx, script);
    RegisteredArgsForm(c, script, AccountCell(c, rtx, script).data, bytes[1..]);
    assert bytes == [bytes[0]] + bytes[1..];
  }

  lemma CutCarried(rest: Bytes)
    requires |rest| >= SESSION_PARAMS_LEN + SIGNATURE_LEN
    ensures rest == Slice(rest, 0, SESSION_PARAMS_LEN) + Slice(rest, SESSION_PARAMS_LEN, SIGNATURE_LEN)
      + rest[SESSION_PARAMS_LEN + SIGNATURE_LEN..]
  {
  }

  lemma CarriedRestForm(c: Crypto, script: Script, data: Bytes, rest: Bytes) returns (ownerAuth: Bytes)
    requires |script.args| == OWNER_ONLY_ARGS_LEN && ResolveSession(c, script, data, rest).Ok?
    ensures var (p, sigRegion) := ResolveSession(c, script, data, rest).value;
      && rest == SessionParamsBlock(p) + ownerAuth + sigRegion
      && c.sigOk(ownerAuth,
           SessionAuthMessage(c, c.scriptHash(script), RevocationEpoch(data), SessionParamsBlock(p)), script.args)
  {
    var block := Slice(rest, 0, SESSION_PARAMS_LEN);
    ownerAuth := Slice(rest, SESSION_PARAMS_LEN, SIGNATURE_LEN);
    ParamsBlockUnique(block);
    CutCarried(rest);
    assert Slice(script.args, 0, 20) == script.args;
  }

  /** Carried model: likewise, and the owner blessed exactly these params for this
      lock at the epoch in the spent cell. */
  lemma AcceptedCarriedForm(c: Crypto, rtx: ResolvedTx, script: Script)
    returns (ownerAuth: Bytes, sessionSig: Bytes, guardianSig: Option<Bytes>)
    requires SessionAccepts(c, rtx, script) && |script.args| == OWNER_ONLY_ARGS_LEN
    ensures |LockGroup(c, rtx, script)| == 1
    ensures WellSized(Session(c, rtx, script).0, sessionSig, guardianSig)
    ensures WrapLock(LockBytes(c, rtx, script))
      == CarriedWitness(SessionParamsBlock(Session(c, rtx, script).0), ownerAuth, sessionSig, guardianSig,
           Session(c, rtx, script).1)
    ensures c.sigOk(ownerAuth,
      SessionAuthMessage(c, c.scriptHash(script), RevocationEpoch(AccountCell(c, rtx, script).data),
        SessionParamsBlock(Session(c, rtx, script).0)),
      script.args)
    ensures SessionAuthorizes(c, rtx, script, AccountCell(c, rtx, script),
      Session(c, rtx, script).0, sessionSig, guardianSig, Session(c, rtx, script).1)
  {
    hide SessionAuthorizes, WellSized, ResolveSession, LockVerdict, Session;
    var bytes := LockBytes(c, rtx, script);
    var sigRegion;
    sigRegion, sessionSig, guardianSig := AcceptedParts(c, rtx, script);
    ownerAuth := CarriedRestForm(c, script, AccountCell(c, rtx, script).data, bytes[1..]);
    assert bytes == [bytes[0]] + bytes[1..];
  }

  // ---- What the lock lets through -------------------------------------------

  /** An owner's unlock, on raw bytes: one account input, args of either model, a zero
      mode byte, and the owner's signature of the transaction in the next 65. */
  ghost predicate OwnerUnlocks(c: Crypto, rtx: ResolvedTx, script: Script) {
    var b := LockBytes(c, rtx, script);
    && |LockGroup(c, rtx, script)| == 1
    && (|script.args| == 20 || |script.args| == 116)
    && |b| >= 66 && b[0] == 0
    && c.sigOk(b[1..66], TxMessage(c, rtx.tx), script.args[..20])
  }

  /** The lock lets a transaction through by a session or by its owner's signature,
      and in no other way. */
  lemma LockAcceptsExact(c: Crypto, rtx: ResolvedTx, script: Script)
    ensures LockVerdict(c, rtx, script).Ok? <==> SessionAccepts(c, rtx, script) || OwnerUnlocks(c, rtx, script)
    ensures !(SessionAccepts(c, rtx, script) && OwnerUnlocks(c, rtx, script))
  {
    var b := LockBytes(c, rtx, script);
    assert |b| >= 66 ==> b[1..][..65] == b[1..66];
  }

  // ---- The SDK's session is accepted ----------------------------------------

  /** End to end, registered model: root, proofs, frames, args and witness from
      the SDK, live signatures, an unexpired session, intact continuations and an
      outflow within the cap are enough for the lock. */
  lemma SdkSessionAccepted(
    c: Crypto, rtx: ResolvedTx, script: Script, at: nat, owner: Bytes20, p: SessionParams,
    allowed: seq<Bytes32>, picks: seq<Pick>, sessionSig: Bytes, guardianSig: Option<Bytes>)
    requires script.args == RegisteredArgs(owner, SessionParamsBlock(p))
    requires p.policiesRoot == PolicyRoot(c, allowed) && |allowed| <= MAX_U64
    requires ValidPicks(c, allowed, Foreign(script, rtx.tx.raw.outputs), picks)
    requires p.sessionHash != NO_KEY && WellSized(p, sessionSig, guardianSig)
    requires SpendsWith(c, rtx, script, at,
      RegisteredWitness(sessionSig, guardianSig, ProofRegion(Entries(c, allowed, picks))))
    requires c.sigOk(sessionSig, TxMessage(c, rtx.tx), p.sessionHash)
    requires guardianSig.Some? ==> c.sigOk(guardianSig.value, TxMessage(c, rtx.tx), p.guardianHash)
    requires NotExpired(p, rtx.timestamps)
    requires AllContinue(script, rtx.spent[at].data, rtx.tx.raw.outputs)
    requires WithinCap(script, rtx.spent[at], rtx.tx.raw.outputs, p.spendCap)
    ensures SessionAccepts(c, rtx, script)
  {
    hide SessionAccepts, LockVerdict, PolicyVerdict, ProofRegion, FramesRead, Foreign, RegisteredWitness;
    var region := ProofRegion(Entries(c, allowed, picks));
    SdkRegionAccepted(c, script, allowed, rtx.tx.raw.outputs, picks, []);
    assert region + [] == region;
    PolicyWalkExact(c, script, p.policiesRoot, rtx.tx.raw.outputs, region);
    RegisteredWitnessMeans(c, rtx, script, at, owner, p, sessionSig, guardianSig, region);
  }

  // ---- Refusals -------------------------------------------------------------

  /** How the lock refuses before any session is looked at, in the order it checks. */
  lemma EntryRefusals(c: Crypto, rtx: ResolvedTx, script: Script)
    ensures |LockGroup(c, rtx, script)| >= 2 ==> LockVerdict(c, rtx, script) == Err(MultipleInputs)
    ensures |LockGroup(c, rtx, script)| <= 1 && |script.args| != 20 && |script.args| != 116 ==>
      LockVerdict(c, rtx, script) == Err(ArgsLenError)
    ensures |LockGroup(c, rtx, script)| == 1 && (|script.args| == 20 || |script.args| == 116) ==>
      var at, b := LockGroup(c, rtx, script)[0], LockBytes(c, rtx, script);
      if at >= |rtx.tx.witnesses| then LockVerdict(c, rtx, script) == Err(Sys(IndexOutOfBound))
      else if rtx.tx.witnesses[at].Opaque? then LockVerdict(c, rtx, script) == Err(Sys(Encoding))
      else if b == [] then LockVerdict(c, rtx, script) == Err(EmptyWitnessError)
      else if b[0] > 1 then LockVerdict(c, rtx, script) == Err(InvalidMode)
      else if b[0] == 0 && |b| < 66 then LockVerdict(c, rtx, script) == Err(WitnessLenError)
      else b[0] == 0 && LockVerdict(c, rtx, script).Err? ==> LockVerdict(c, rtx, script) == Err(AuthError)
  {
  }

  /** How a session is refused before its limits: the carried block cut short or not
      blessed; no session key; a signature cut short or not verifying. */
  lemma SessionRefusals(
    c: Crypto, script: Script, data: Bytes, rest: Bytes, p: SessionParams, region: Bytes, m: Bytes32)
    requires |script.args| == 20 || |script.args| == 116
    ensures |script.args| == 116 ==> ResolveSession(c, script, data, rest).Ok?
    ensures |script.args| == 20 ==>
      if |rest| < 96 + 65 then ResolveSession(c, script, data, rest) == Err(WitnessLenError)
      else ResolveSession(c, script, data, rest).Err? ==> ResolveSession(c, script, data, rest) == Err(AuthError)
    ensures CheckSignatures(c, p, region, m) == Err(SessionDisabled) <==> p.sessionHash == Fill(20, 0)
    ensures p.sessionHash != Fill(20, 0) ==>
      if |region| < 65 then CheckSignatures(c, p, region, m) == Err(WitnessLenError)
      else if !c.sigOk(region[..65], m, p.sessionHash) then CheckSignatures(c, p, region, m) == Err(AuthError)
      else if p.guardianHash == Fill(20, 0) then CheckSignatures(c, p, region, m) == Ok(region[65..])
      else if |region| < 130 then CheckSignatures(c, p, region, m) == Err(WitnessLenError)
      else if !c.sigOk(region[65..130], m, p.guardianHash) then CheckSignatures(c, p, region, m) == Err(AuthError)
      else CheckSignatures(c, p, region, m) == Ok(region[130..])
  {
  }

  /** How a session's limits refuse: no header, an expired one, the policy walk, an
      account output changed, too much taken, the first of these that applies. */
  lemma LimitRefusals(c: Crypto, rtx: ResolvedTx, script: Script, at: nat, p: SessionParams, region: Bytes)
    requires LockGroup(c, rtx, script) == [at] && at < |rtx.spent|
    ensures
      var spent, outputs := rtx.spent[at], rtx.tx.raw.outputs;
      var verdict := LimitsVerdict(c, rtx, script, spent.data, p, region);
      var policy := PolicyVerdict(c, script, p.policiesRoot, outputs, region);
      if p.expiresAt != MAX_U64 && rtx.timestamps == [] then verdict == Err(Sys(IndexOutOfBound))
      else if !NotExpired(p, rtx.timestamps) then verdict == Err(SessionExpired)
      else if p.policiesRoot != Fill(32, 0xFF) && policy.Err? then verdict == policy
      else if !AllContinue(script, spent.data, outputs) then verdict == Err(SessionCannotAdminister)
      else if !WithinCap(script, spent, outputs, p.spendCap) then verdict == Err(SpendCapExceeded)
      else verdict == Ok(())
  {
    assert GroupCells(c, rtx, script) == [rtx.spent[at]];
    SpendExact(script, rtx.spent[at], rtx.tx.raw.outputs, p.spendCap);
  }

  /** And the whole session check refuses as the first of its parts does. */
  lemma SessionRefusesInOrder(c: Crypto, rtx: ResolvedTx, script: Script, data: Bytes, rest: Bytes)
    ensures
      var resolved := ResolveSession(c, script, data, rest);
      var verdict := SessionVerdict(c, rtx, script, data, rest);
      if resolved.Err? then verdict == Err(resolved.error)
      else
        var (p, sigRegion) := resolved.value;
        var checked := CheckSignatures(c, p, sigRegion, TxMessage(c, rtx.tx));
        if checked.Err? then verdict == Err(checked.error)
        else verdict == LimitsVerdict(c, rtx, script, data, p, checked.value)
  {
  }
}
