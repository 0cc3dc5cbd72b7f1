/**
 The chain's records: scripts, cells, transactions and their witnesses, and the
 cryptography the scripts call out to. Hash functions and signature checks are
 arbitrary functions: nothing is assumed about them here.
 */
module Chain {
  import opened Prelude

  datatype Script = Script(codeHash: Bytes32, hashType: byte, args: Bytes)

  datatype OutPoint = OutPoint(txHash: Bytes32, index: nat)

  datatype CellOutput = CellOutput(capacity: u64, lock: Script, typ: Option<Script>)

  /** An output together with its entry in `outputs_data`. */
  datatype Cell = Cell(output: CellOutput, data: Bytes)

  datatype CellDep = CellDep(outPoint: OutPoint, depType: byte)

  datatype RawTx = RawTx(
    cellDeps: seq<CellDep>, headerDeps: seq<Bytes32>, inputs: seq<OutPoint>, outputs: seq<Cell>)

  datatype WitnessArgs = WitnessArgs(
    lock: Option<Bytes>, inputType: Option<Bytes>, outputType: Option<Bytes>)

  /** Witness bytes either parse as `WitnessArgs` or they do not. */
  datatype Witness = Structured(args: WitnessArgs) | Opaque(bytes: Bytes)

  datatype Tx = Tx(raw: RawTx, witnesses: seq<Witness>)

  /** A transaction with the cells its inputs spend and the timestamps (ms) of
      its header deps, which is what a script sees when it runs. */
  datatype ResolvedTx = ResolvedTx(tx: Tx, spent: seq<Cell>, timestamps: seq<u64>)

  /** The committed headers, by hash, with their timestamps in milliseconds. */
  type Headers = map<Bytes32, u64>

  ghost predicate Named(headers: Headers, deps: seq<Bytes32>) {
    forall d :: d in deps ==> d in headers
  }

  function Times(headers: Headers, deps: seq<Bytes32>): seq<u64>
    requires forall d :: d in deps ==> d in headers
  {
    seq(|deps|, i requires 0 <= i < |deps| => headers[deps[i]])
  }

  /** `blake2b_256` on byte strings, on serialized scripts and on serialized raw
      transactions, and ckb-auth's verdict on (signature, message, pubkey hash). */
  datatype Crypto = Crypto(
    blake2b: Bytes -> Bytes32,
    scriptHash: Script -> Bytes32,
    rawTxHash: RawTx -> Bytes32,
    sigOk: (Bytes, Bytes32, Bytes20) -> bool)

  /** Two different strings with the same hash. */
  predicate Collide(c: Crypto, a: Bytes, b: Bytes) {
    a != b && c.blake2b(a) == c.blake2b(b)
  }

  function TxHash(c: Crypto, tx: Tx): Bytes32 {
    c.rawTxHash(tx.raw)
  }

  /** The message signers sign: the raw transaction with `cell_deps` cleared. */
  function TxMessage(c: Crypto, tx: Tx): Bytes32 {
    c.rawTxHash(tx.raw.(cellDeps := []))
  }

  /** The message does not see `cell_deps`, and is bound to everything else: one message
      for two transactions that differ elsewhere is a collision of the hash. */
  lemma TxMessageBinds(c: Crypto, tx: Tx, tx': Tx, cellDeps: seq<CellDep>)
    ensures TxMessage(c, tx.(raw := tx.raw.(cellDeps := cellDeps))) == TxMessage(c, tx)
    ensures TxMessage(c, tx) == TxMessage(c, tx') ==>
      || (&& tx.raw.headerDeps == tx'.raw.headerDeps && tx.raw.inputs == tx'.raw.inputs
          && tx.raw.outputs == tx'.raw.outputs)
      || (var raw, raw' := tx.raw.(cellDeps := []), tx'.raw.(cellDeps := []);
          raw != raw' && c.rawTxHash(raw) == c.rawTxHash(raw'))
  {
  }

  // ---- Script groups --------------------------------------------------------

  /** The indices, in order, of the elements satisfying `p`. */
  function Matching<T>(p: T -> bool, s: seq<T>): (r: seq<nat>)
    ensures forall k :: k in r ==> k < |s| && p(s[k])
    ensures forall k :: 0 <= k < |s| && p(s[k]) ==> k in r
    ensures forall i, j :: 0 <= i < j < |r| ==> r[i] < r[j]
  {
    if s == [] then []
    else
      var n := |s| - 1;
      var before := Matching(p, s[..n]);
      assert forall i :: 0 <= i < |before| ==> before[i] in before;
      if p(s[n]) then before + [n] else before
  }

  lemma {:induction false} MatchingNone<T>(p: T -> bool, s: seq<T>)
    requires forall k :: 0 <= k < |s| ==> !p(s[k])
    ensures Matching(p, s) == []
  {
    if s != [] {
      MatchingNone(p, s[..|s| - 1]);
    }
  }

  function HasLockHash(c: Crypto, h: Bytes32): Cell -> bool {
    (cell: Cell) => c.scriptHash(cell.output.lock) == h
  }

  function HasTypeHash(c: Crypto, h: Bytes32): Cell -> bool {
    (cell: Cell) => cell.output.typ.Some? && c.scriptHash(cell.output.typ.value) == h
  }

  /** The script group of a lock: the indices of the inputs it guards. */
  function LockGroup(c: Crypto, rtx: ResolvedTx, script: Script): seq<nat> {
    Matching(HasLockHash(c, c.scriptHash(script)), rtx.spent)
  }

  function TypeGroupIn(c: Crypto, rtx: ResolvedTx, script: Script): seq<nat> {
    Matching(HasTypeHash(c, c.scriptHash(script)), rtx.spent)
  }

  function TypeGroupOut(c: Crypto, rtx: ResolvedTx, script: Script): seq<nat> {
    Matching(HasTypeHash(c, c.scriptHash(script)), rtx.tx.raw.outputs)
  }

  // ---- Syscalls -------------------------------------------------------------

  datatype SysError = IndexOutOfBound | ItemMissing | LengthNotEnough | Encoding

  /** `load_witness_args` at an absolute input index. */
  function WitnessArgsAt(rtx: ResolvedTx, index: nat): Result<WitnessArgs, SysError> {
    if index >= |rtx.tx.witnesses| then Err(IndexOutOfBound)
    else
      match rtx.tx.witnesses[index]
      case Structured(args) => Ok(args)
      case Opaque(_) => Err(Encoding)
  }
}
