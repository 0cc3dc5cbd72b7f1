/**
 The operator's own lock signature: sighash-all over witness 0 with its lock field
 zeroed. Signing may fill that one field and nothing else.
 */
module Sighash {
  import opened Prelude
  import opened Chain
  import opened GameRules

  /** How `WitnessArgs` are serialized, and the operator's signing key. */
  datatype Signer = Signer(pack: WitnessArgs -> Bytes, sign: Bytes32 -> Signature)

  function RawWitness(s: Signer, w: Witness): Bytes {
    match w
    case Structured(args) => s.pack(args)
    case Opaque(b) => b
  }

  function ZeroedLock(args: WitnessArgs): WitnessArgs {
    args.(lock := Some(Fill(65, 0)))
  }

  /** A witness as fed to the hasher: its length, then its bytes. */
  function Framed(w: Bytes): Bytes {
    ToLE(8, |w| % 0x1_0000_0000_0000_0000) + w
  }

  function FramedAll(s: Signer, ws: seq<Witness>): Bytes {
    if ws == [] then [] else FramedAll(s, ws[..|ws| - 1]) + Framed(RawWitness(s, ws[|ws| - 1]))
  }

  lemma FeedOneMore(s: Signer, head: Bytes, ws: seq<Witness>, i: nat)
    requires i < |ws|
    ensures head + FramedAll(s, ws[..i + 1]) == head + FramedAll(s, ws[..i]) + Framed(RawWitness(s, ws[i]))
  {
    assert ws[..i + 1][..i] == ws[..i];
  }

  /** The witnesses beyond the inputs. */
  function ExtraWitnesses(tx: Tx): seq<Witness> {
    if |tx.raw.inputs| <= |tx.witnesses| then tx.witnesses[|tx.raw.inputs|..] else []
  }

  function SighashMessage(c: Crypto, s: Signer, tx: Tx, args: WitnessArgs): Bytes32 {
    c.blake2b(TxHash(c, tx) + Framed(s.pack(ZeroedLock(args))) + FramedAll(s, ExtraWitnesses(tx)))
  }

  function SignedWith(tx: Tx, args: WitnessArgs, sig: Signature): Tx
    requires tx.witnesses != []
  {
    tx.(witnesses := tx.witnesses[0 := Structured(args.(lock := Some(sig)))])
  }

  function SignSighashAll(c: Crypto, s: Signer, tx: Tx): Result<Tx, string> {
    if tx.witnesses == [] then Err("tx has no witness 0")
    else
      match tx.witnesses[0]
      case Opaque(_) => Err("witness 0 is not WitnessArgs")
      case Structured(args) => Ok(SignedWith(tx, args, s.sign(SighashMessage(c, s, tx, args))))
  }

  /** The signer's own steps: a hasher fed piece by piece, then witness 0 replaced. */
  method Sign(c: Crypto, s: Signer, tx: Tx) returns (r: Result<Tx, string>)
    ensures r == SignSighashAll(c, s, tx)
  {
    if tx.witnesses == [] {
      return Err("tx has no witness 0");
    }
    if tx.witnesses[0].Opaque? {
      return Err("witness 0 is not WitnessArgs");
    }
    var args := tx.witnesses[0].args;
    var fed := TxHash(c, tx);
    fed := fed + Framed(s.pack(ZeroedLock(args)));
    ghost var head := fed;
    var extra := ExtraWitnesses(tx);
    var i := 0;
    while i < |extra|
      invariant 0 <= i <= |extra|
      invariant fed == head + FramedAll(s, extra[..i])
    {
      FeedOneMore(s, head, extra, i);
      fed := fed + Framed(RawWitness(s, extra[i]));
      i := i + 1;
    }
    assert extra[..i] == extra;
    assert fed == head + FramedAll(s, extra);
    var sig := s.sign(c.blake2b(fed));
    var witnesses := tx.witnesses;
    witnesses := witnesses[0 := Structured(args.(lock := Some(sig)))];
    r := Ok(tx.(witnesses := witnesses));
  }

  /** Signing keeps the raw transaction, every other witness, and the batch that
      rides in witness 0. */
  lemma SigningFillsOnlyTheLock(c: Crypto, s: Signer, tx: Tx)
    requires SignSighashAll(c, s, tx).Ok?
    ensures var signed := SignSighashAll(c, s, tx).value;
      && signed.raw == tx.raw
      && |signed.witnesses| == |tx.witnesses|
      && (forall i :: 0 < i < |tx.witnesses| ==> signed.witnesses[i] == tx.witnesses[i])
      && signed.witnesses[0].Structured? && tx.witnesses[0].Structured?
      && signed.witnesses[0].args.inputType == tx.witnesses[0].args.inputType
      && signed.witnesses[0].args.outputType == tx.witnesses[0].args.outputType
      && signed.witnesses[0].args.lock.Some?
  {
  }

  /** The message the system lock recomputes from the signed transaction is the
      message that was signed, so signing again changes nothing. */
  lemma SigningIsStable(c: Crypto, s: Signer, tx: Tx)
    requires SignSighashAll(c, s, tx).Ok? && tx.raw.inputs != []
    ensures var signed := SignSighashAll(c, s, tx).value;
      && signed.witnesses[0].args.lock == Some(s.sign(SighashMessage(c, s, signed, signed.witnesses[0].args)))
      && SignSighashAll(c, s, signed) == Ok(signed)
  {
    var signed := SignSighashAll(c, s, tx).value;
    assert ExtraWitnesses(signed) == ExtraWitnesses(tx);
    assert ZeroedLock(signed.witnesses[0].args) == ZeroedLock(tx.witnesses[0].args);
    assert signed.witnesses[0 := signed.witnesses[0]] == signed.witnesses;
  }

  // ---- What a signature covers ----------------------------------------------

  function RawAll(s: Signer, ws: seq<Witness>): seq<Bytes> {
    if ws == [] then [] else [RawWitness(s, ws[0])] + RawAll(s, ws[1..])
  }

  /** The bytes hashed for a signature. */
  function SighashInput(c: Crypto, s: Signer, tx: Tx, args: WitnessArgs): Bytes {
    TxHash(c, tx) + Framed(s.pack(ZeroedLock(args))) + FramedAll(s, ExtraWitnesses(tx))
  }

  lemma {:induction false} FramedAllCons(s: Signer, w: Witness, rest: seq<Witness>)
    ensures FramedAll(s, [w] + rest) == Framed(RawWitness(s, w)) + FramedAll(s, rest)
    decreases |rest|
  {
    hide Framed, RawWitness;
    var ws := [w] + rest;
    if rest == [] {
      assert ws[..0] == [] && FramedAll(s, ws[..0]) == [];
    } else {
      var n := |rest| - 1;
      assert ws[..|ws| - 1] == [w] + rest[..n] && ws[|ws| - 1] == rest[n];
      FramedAllCons(s, w, rest[..n]);
    }
  }

  /** A framed string is recognised at the front of what follows it. */
  lemma FramedUnique(w: Bytes, rest: Bytes, w': Bytes, rest': Bytes)
    requires |w| <= MAX_U64 && |w'| <= MAX_U64
    requires Framed(w) + rest == Framed(w') + rest'
    ensures w == w' && rest == rest'
  {
    FramedParts(w, rest);
    FramedParts(w', rest');
  }

  lemma FramedParts(w: Bytes, rest: Bytes)
    requires |w| <= MAX_U64
    ensures var all := Framed(w) + rest;
      && |all| == 8 + |w| + |rest|
      && ReadU64(all[..8]) == |w| && all[8..8 + |w|] == w && all[8 + |w|..] == rest
  {
    hide Framed, ToLE, ReadU64;
    FramedHead(w);
    ReadWrite64(|w|);
    CutFrame(LE64(|w|), w, rest);
  }

  lemma FramedHead(w: Bytes)
    requires |w| <= MAX_U64
    ensures Framed(w) == LE64(|w|) + w && |LE64(|w|)| == 8
  {
    hide ToLE;
  }

  lemma CutFrame(head: Bytes, w: Bytes, rest: Bytes)
    ensures var n, all := |head|, head + w + rest;
      |all| == n + |w| + |rest| && all[..n] == head && all[n..n + |w|] == w && all[n + |w|..] == rest
  {
  }

  lemma FramedFront(s: Signer, ws: seq<Witness>)
    ensures ws == [] ==> FramedAll(s, ws) == [] && RawAll(s, ws) == []
    ensures ws != [] ==>
      && FramedAll(s, ws) == Framed(RawWitness(s, ws[0])) + FramedAll(s, ws[1..]) != []
      && RawAll(s, ws) == [RawWitness(s, ws[0])] + RawAll(s, ws[1..])
  {
    if ws != [] {
      assert ws == [ws[0]] + ws[1..];
      FramedAllCons(s, ws[0], ws[1..]);
      assert |Framed(RawWitness(s, ws[0]))| >= 8;
    }
  }

  lemma {:induction false} FramedAllUnique(s: Signer, ws: seq<Witness>, ws': seq<Witness>)
    requires forall w :: w in RawAll(s, ws) ==> |w| <= MAX_U64
    requires forall w :: w in RawAll(s, ws') ==> |w| <= MAX_U64
    requires FramedAll(s, ws) == FramedAll(s, ws')
    ensures RawAll(s, ws) == RawAll(s, ws')
    decreases |ws|
  {
    hide FramedAll, RawAll, Framed;
    FramedFront(s, ws);
    FramedFront(s, ws');
    if ws != [] && ws' != [] {
      var first, first' := RawWitness(s, ws[0]), RawWitness(s, ws'[0]);
      assert first in RawAll(s, ws) && first' in RawAll(s, ws');
      FramedUnique(first, FramedAll(s, ws[1..]), first', FramedAll(s, ws'[1..]));
      FramedAllUnique(s, ws[1..], ws'[1..]);
    }
  }

  /** The placeholder the lock field is hashed as: 65 zero bytes, the other fields as
      they are. */
  lemma PlaceholderExact(args: WitnessArgs)
    ensures ZeroedLock(args).lock.Some? && |ZeroedLock(args).lock.value| == 65
    ensures forall i :: 0 <= i < 65 ==> ZeroedLock(args).lock.value[i] == 0
    ensures ZeroedLock(args).inputType == args.inputType && ZeroedLock(args).outputType == args.outputType
  {
  }

  lemma {:induction false} RawAllAt(s: Signer, ws: seq<Witness>)
    ensures |RawAll(s, ws)| == |ws|
    ensures forall i :: 0 <= i < |ws| ==> RawAll(s, ws)[i] == RawWitness(s, ws[i])
  {
    if ws != [] {
      RawAllAt(s, ws[1..]);
    }
  }

  lemma SameExtras(s: Signer, tx: Tx, tx': Tx)
    requires RawAll(s, ExtraWitnesses(tx)) == RawAll(s, ExtraWitnesses(tx'))
    ensures var n, n' := |tx.raw.inputs|, |tx'.raw.inputs|;
      forall i :: n <= i < |tx.witnesses| ==>
        n' + i - n < |tx'.witnesses| && RawWitness(s, tx'.witnesses[n' + i - n]) == RawWitness(s, tx.witnesses[i])
  {
    var a, b := ExtraWitnesses(tx), ExtraWitnesses(tx');
    RawAllAt(s, a);
    RawAllAt(s, b);
    var n, n' := |tx.raw.inputs|, |tx'.raw.inputs|;
    forall i | n <= i < |tx.witnesses|
      ensures n' + i - n < |tx'.witnesses|
      ensures RawWitness(s, tx'.witnesses[n' + i - n]) == RawWitness(s, tx.witnesses[i])
    {
      assert RawAll(s, a)[i - n] == RawWitness(s, a[i - n]) && a[i - n] == tx.witnesses[i];
      assert RawAll(s, b)[i - n] == RawWitness(s, b[i - n]) && b[i - n] == tx'.witnesses[n' + i - n];
    }
  }

  /** A signature is bound to the transaction hash, to witness 0 but for its lock, and
      to every witness beyond the inputs: one message for two of these is a collision
      of the two strings hashed, each of which begins with its transaction's hash. */
  lemma SighashBinds(c: Crypto, s: Signer, tx: Tx, args: WitnessArgs, tx': Tx, args': WitnessArgs)
    requires |s.pack(ZeroedLock(args))| <= MAX_U64 && |s.pack(ZeroedLock(args'))| <= MAX_U64
    requires forall w :: w in RawAll(s, ExtraWitnesses(tx)) ==> |w| <= MAX_U64
    requires forall w :: w in RawAll(s, ExtraWitnesses(tx')) ==> |w| <= MAX_U64
    requires SighashMessage(c, s, tx, args) == SighashMessage(c, s, tx', args')
    ensures var n, n' := |tx.raw.inputs|, |tx'.raw.inputs|;
      || (&& TxHash(c, tx) == TxHash(c, tx')
          && s.pack(ZeroedLock(args)) == s.pack(ZeroedLock(args'))
          && (n < |tx.witnesses| || n' < |tx'.witnesses| ==> |tx.witnesses| - n == |tx'.witnesses| - n')
          && forall i :: n <= i < |tx.witnesses| && n' + i - n < |tx'.witnesses| ==>
               RawWitness(s, tx'.witnesses[n' + i - n]) == RawWitness(s, tx.witnesses[i]))
      || Collide(c, SighashInput(c, s, tx, args), SighashInput(c, s, tx', args'))
    ensures SighashInput(c, s, tx, args)[..32] == TxHash(c, tx)
  {
    var a, b := SighashInput(c, s, tx, args), SighashInput(c, s, tx', args');
    SighashCut(c, s, tx, args);
    SighashCut(c, s, tx', args');
    if a == b {
      FramedUnique(s.pack(ZeroedLock(args)), FramedAll(s, ExtraWitnesses(tx)),
        s.pack(ZeroedLock(args')), FramedAll(s, ExtraWitnesses(tx')));
      FramedAllUnique(s, ExtraWitnesses(tx), ExtraWitnesses(tx'));
      RawAllAt(s, ExtraWitnesses(tx));
      RawAllAt(s, ExtraWitnesses(tx'));
      SameExtras(s, tx, tx');
    }
  }

  lemma SighashCut(c: Crypto, s: Signer, tx: Tx, args: WitnessArgs)
    ensures SighashInput(c, s, tx, args)[..32] == TxHash(c, tx)
    ensures SighashInput(c, s, tx, args)[32..]
      == Framed(s.pack(ZeroedLock(args))) + FramedAll(s, ExtraWitnesses(tx))
  {
    var tail := Framed(s.pack(ZeroedLock(args))) + FramedAll(s, ExtraWitnesses(tx));
    assert SighashInput(c, s, tx, args) == TxHash(c, tx) + tail;
  }
}
