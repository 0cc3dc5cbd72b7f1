/**
 How transactions are written: molecule's tables, vectors and options over the chain's
 records. Only the length matters here, to the fee; the writer says what it is the
 length of.
 */
module Molecule {
  import opened Prelude
  import opened Chain

  function Concat(items: seq<Bytes>): Bytes {
    if items == [] then [] else items[0] + Concat(items[1..])
  }

  function Offsets(items: seq<Bytes>, at: nat): Bytes {
    if items == [] then [] else LE32(at) + Offsets(items[1..], at + |items[0]|)
  }

  /** A table or dynamic vector: its own length, where each item starts, the items. */
  function Table(items: seq<Bytes>): Bytes {
    var header := 4 + 4 * |items|;
    LE32(header + |Concat(items)|) + Offsets(items, header) + Concat(items)
  }

  /** A vector of items of one width, or of bytes: a count, then the items. */
  function FixVec(items: seq<Bytes>): Bytes {
    LE32(|items|) + Concat(items)
  }

  function FixBytes(b: Bytes): Bytes {
    LE32(|b|) + b
  }

  function Each<T>(f: T -> Bytes, s: seq<T>): seq<Bytes> {
    if s == [] then [] else [f(s[0])] + Each(f, s[1..])
  }

  function WriteScript(s: Script): Bytes {
    Table([s.codeHash, [s.hashType], FixBytes(s.args)])
  }

  function WriteOutPoint(o: OutPoint): Bytes {
    o.txHash + LE32(o.index)
  }

  function WriteDep(d: CellDep): Bytes {
    WriteOutPoint(d.outPoint) + [d.depType]
  }

  function WriteInput(o: OutPoint): Bytes {
    LE64(0) + WriteOutPoint(o)
  }

  function WriteOutput(cell: Cell): Bytes {
    var o := cell.output;
    Table([LE64(o.capacity), WriteScript(o.lock), if o.typ.Some? then WriteScript(o.typ.value) else []])
  }

  function WriteData(cell: Cell): Bytes {
    FixBytes(cell.data)
  }

  function WriteHash(h: Bytes32): Bytes {
    h
  }

  function WriteRaw(raw: RawTx): Bytes {
    Table([
      LE32(0), FixVec(Each(WriteDep, raw.cellDeps)), FixVec(Each(WriteHash, raw.headerDeps)),
      FixVec(Each(WriteInput, raw.inputs)), Table(Each(WriteOutput, raw.outputs)), Table(Each(WriteData, raw.outputs))])
  }

  function WriteOpt(b: Option<Bytes>): Bytes {
    if b.Some? then FixBytes(b.value) else []
  }

  function WriteWitnessArgs(args: WitnessArgs): Bytes {
    Table([WriteOpt(args.lock), WriteOpt(args.inputType), WriteOpt(args.outputType)])
  }

  function WriteWitness(w: Witness): Bytes {
    FixBytes(match w case Structured(args) => WriteWitnessArgs(args) case Opaque(b) => b)
  }

  function WriteTx(tx: Tx): Bytes {
    Table([WriteRaw(tx.raw), Table(Each(WriteWitness, tx.witnesses))])
  }

  // ---- Lengths --------------------------------------------------------------

  lemma {:induction false} OffsetsSize(items: seq<Bytes>, at: nat)
    ensures |Offsets(items, at)| == 4 * |items|
  {
    if items != [] {
      OffsetsSize(items[1..], at + |items[0]|);
    }
  }

  lemma TableSize(items: seq<Bytes>)
    ensures |Table(items)| == 4 + 4 * |items| + |Concat(items)|
  {
    OffsetsSize(items, 4 + 4 * |items|);
  }

  lemma Concat2(a: Bytes, b: Bytes)
    ensures |Concat([a, b])| == |a| + |b|
  {
    assert [a, b][1..] == [b] && [b][1..] == [];
    assert Concat([b]) == b + Concat([]);
  }

  lemma Concat3(a: Bytes, b: Bytes, c: Bytes)
    ensures |Concat([a, b, c])| == |a| + |b| + |c|
  {
    assert [a, b, c][1..] == [b, c];
    Concat2(b, c);
  }

  lemma Concat6(a: Bytes, b: Bytes, c: Bytes, d: Bytes, e: Bytes, f: Bytes)
    ensures |Concat([a, b, c, d, e, f])| == |a| + |b| + |c| + |d| + |e| + |f|
  {
    assert [a, b, c, d, e, f][1..] == [b, c, d, e, f];
    assert [b, c, d, e, f][1..] == [c, d, e, f];
    assert [c, d, e, f][1..] == [d, e, f];
    Concat3(d, e, f);
    assert Concat([c, d, e, f]) == c + Concat([d, e, f]);
    assert Concat([b, c, d, e, f]) == b + Concat([c, d, e, f]);
  }

  /** Items written one by one: as many as there are, of their lengths in all. */
  lemma {:induction false} EachSize<T(!new)>(f: T -> Bytes, size: T -> nat, s: seq<T>)
    requires forall x :: |f(x)| == size(x)
    ensures |Each(f, s)| == |s| && |Concat(Each(f, s))| == SumOf(size, s)
  {
    if s != [] {
      EachSize(f, size, s[1..]);
      assert Each(f, s)[1..] == Each(f, s[1..]);
    }
  }

  lemma {:induction false} ConstantSum<T>(n: nat, s: seq<T>)
    ensures SumOf((x: T) => n, s) == n * |s|
  {
    if s != [] {
      ConstantSum(n, s[1..]);
      OneMoreTime(n, |s| - 1);
    }
  }

  lemma FixVecSize<T(!new)>(f: T -> Bytes, n: nat, s: seq<T>)
    requires forall x :: |f(x)| == n
    ensures |FixVec(Each(f, s))| == 4 + n * |s|
  {
    EachSize(f, (x: T) => n, s);
    ConstantSum(n, s);
  }
}
