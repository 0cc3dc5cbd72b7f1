/**
 What the expiry of a session bounds. The lock reads the timestamp of a header the
 transaction names, and any committed header may be named, so an expired key goes on
 unlocking for as long as there is a header from before its expiry: for good.
 */
module SessionExpiry {
  import opened Prelude
  import opened Chain
  import opened SessionLock
  import opened SessionWitness

  /** How a session is authorized: by the account's args, or by an authorization of
      the owner in the witness. */
  datatype Trust = Registered | Carried(ownerAuth: Bytes)

  function SessionWitnessOf(trust: Trust, p: SessionParams, sig: Bytes, guard: Option<Bytes>, region: Bytes): Witness {
    match trust
    case Registered => RegisteredWitness(sig, guard, region)
    case Carried(ownerAuth) => CarriedWitness(SessionParamsBlock(p), ownerAuth, sig, guard, region)
  }

  /** The owner authorized the session for the account cell. */
  ghost predicate Authorized(c: Crypto, script: Script, owner: Bytes20, trust: Trust, p: SessionParams, data: Bytes) {
    match trust
    case Registered => script.args == RegisteredArgs(owner, SessionParamsBlock(p))
    case Carried(ownerAuth) =>
      && script.args == OwnerOnlyArgs(owner) && |ownerAuth| == SIGNATURE_LEN
      && c.sigOk(ownerAuth,
           SessionAuthMessage(c, c.scriptHash(script), RevocationEpoch(data), SessionParamsBlock(p)), owner)
  }

  /** By the params in the args, or by a signature over them at the cell's epoch. */
  lemma OwnerAuthorizes(c: Crypto, script: Script, owner: Bytes20, ownerAuth: Bytes, p: SessionParams, data: Bytes)
    ensures script.args == RegisteredArgs(owner, SessionParamsBlock(p)) ==>
      Authorized(c, script, owner, Registered, p, data)
    ensures
      && script.args == OwnerOnlyArgs(owner) && |ownerAuth| == 65
      && c.sigOk(ownerAuth,
           c.blake2b(AuthInput(c.scriptHash(script), RevocationEpoch(data), SessionParamsBlock(p))), owner)
      ==> Authorized(c, script, owner, Carried(ownerAuth), p, data)
  {
  }

  /** The transaction on header deps of the builder's choice, signed as it then is. */
  function OnHeaders(
    c: Crypto, headers: Headers, rtx: ResolvedTx, at: nat, deps: seq<Bytes32>, trust: Trust, p: SessionParams,
    key: SessionKey, region: Bytes): ResolvedTx
    requires at < |rtx.tx.witnesses| && forall d :: d in deps ==> d in headers
  {
    var raw := rtx.tx.raw.(headerDeps := deps);
    var message := TxMessage(c, Tx(raw, []));
    var w := SessionWitnessOf(trust, p, key.sign(message), GuardSignature(key, message), region);
    ResolvedTx(Tx(raw, rtx.tx.witnesses[at := w]), rtx.spent, Times(headers, deps))
  }

  ghost predicate UnlocksOn(
    c: Crypto, headers: Headers, rtx: ResolvedTx, script: Script, at: nat, deps: seq<Bytes32>, trust: Trust,
    p: SessionParams, key: SessionKey, region: Bytes)
    requires at < |rtx.tx.witnesses|
  {
    Named(headers, deps) && LockVerdict(c, OnHeaders(c, headers, rtx, at, deps, trust, p, key, region), script).Ok?
  }

  /** On given headers: the rails, and the first header before the expiry. */
  lemma UnlocksOnExact(
    c: Crypto, headers: Headers, rtx: ResolvedTx, script: Script, at: nat, deps: seq<Bytes32>, owner: Bytes20,
    trust: Trust, p: SessionParams, key: SessionKey, region: Bytes)
    requires LockGroup(c, rtx, script) == [at] && at < |rtx.spent| && at < |rtx.tx.witnesses|
    requires Authorized(c, script, owner, trust, p, rtx.spent[at].data) && SignsFor(c, key, p)
    requires Named(headers, deps)
    ensures UnlocksOn(c, headers, rtx, script, at, deps, trust, p, key, region) <==>
      (&& NotExpired(p, Times(headers, deps))
       && WithinRails(c, rtx.tx.raw.outputs, script, rtx.spent[at], p, region))
  {
    hide LockVerdict, WithinRails, RegisteredWitness, CarriedWitness, SessionParamsBlock, LockGroup;
    var final := OnHeaders(c, headers, rtx, at, deps, trust, p, key, region);
    var message := TxMessage(c, final.tx);
    SameGroup(c, rtx, final, script);
    assert SignsMessage(c, key, p, message);
    match trust {
      case Registered =>
        RegisteredWitnessMeans(
          c, final, script, at, owner, p, key.sign(message), GuardSignature(key, message), region);
      case Carried(ownerAuth) =>
        CarriedWitnessMeans(
          c, final, script, at, owner, ownerAuth, p, key.sign(message), GuardSignature(key, message), region);
    }
  }

  lemma SameGroup(c: Crypto, a: ResolvedTx, b: ResolvedTx, script: Script)
    requires a.spent == b.spent
    ensures LockGroup(c, a, script) == LockGroup(c, b, script)
  {
  }

  /** Some committed header is from before the expiry. */
  ghost predicate HasEarlyHeader(headers: Headers, p: SessionParams) {
    exists h :: h in headers && headers[h] < 1000 * p.expiresAt
  }

  /** A session transaction within its other limits can be made to unlock, by naming
      the right header, if and only if the session never expires or some committed
      header is from before its expiry. */
  lemma UnlockableExact(
    c: Crypto, headers: Headers, rtx: ResolvedTx, script: Script, at: nat, owner: Bytes20, trust: Trust,
    p: SessionParams, key: SessionKey, region: Bytes)
    requires LockGroup(c, rtx, script) == [at] && at < |rtx.spent| && at < |rtx.tx.witnesses|
    requires Authorized(c, script, owner, trust, p, rtx.spent[at].data) && SignsFor(c, key, p)
    ensures (exists deps :: UnlocksOn(c, headers, rtx, script, at, deps, trust, p, key, region)) <==>
      (&& WithinRails(c, rtx.tx.raw.outputs, script, rtx.spent[at], p, region)
       && (p.expiresAt == NO_EXPIRY || HasEarlyHeader(headers, p)))
  {
    hide UnlocksOn, WithinRails, LockGroup;
    forall deps | Named(headers, deps)
      ensures UnlocksOn(c, headers, rtx, script, at, deps, trust, p, key, region) <==>
        (&& NotExpired(p, Times(headers, deps))
         && WithinRails(c, rtx.tx.raw.outputs, script, rtx.spent[at], p, region))
    {
      UnlocksOnExact(c, headers, rtx, script, at, deps, owner, trust, p, key, region);
    }
    if deps :| UnlocksOn(c, headers, rtx, script, at, deps, trust, p, key, region) {
      UnlocksNamed(c, headers, rtx, script, at, deps, trust, p, key, region);
      assert deps != [] ==> deps[0] in deps;
    }
    if p.expiresAt == NO_EXPIRY {
      assert Named(headers, []);
    } else if HasEarlyHeader(headers, p) {
      var h :| h in headers && headers[h] < 1000 * p.expiresAt;
      assert Named(headers, [h]) && Times(headers, [h])[0] == headers[h];
    }
  }

  lemma UnlocksNamed(
    c: Crypto, headers: Headers, rtx: ResolvedTx, script: Script, at: nat, deps: seq<Bytes32>, trust: Trust,
    p: SessionParams, key: SessionKey, region: Bytes)
    requires at < |rtx.tx.witnesses| && UnlocksOn(c, headers, rtx, script, at, deps, trust, p, key, region)
    ensures Named(headers, deps)
  {
  }

  /** And what unlocks on the headers there are unlocks on any there will be. */
  lemma UnlocksForGood(
    c: Crypto, headers: Headers, later: Headers, rtx: ResolvedTx, script: Script, at: nat, deps: seq<Bytes32>,
    trust: Trust, p: SessionParams, key: SessionKey, region: Bytes)
    requires forall h :: h in headers ==> h in later && later[h] == headers[h]
    requires at < |rtx.tx.witnesses| && UnlocksOn(c, headers, rtx, script, at, deps, trust, p, key, region)
    ensures UnlocksOn(c, later, rtx, script, at, deps, trust, p, key, region)
  {
    assert Times(later, deps) == Times(headers, deps);
  }
}
