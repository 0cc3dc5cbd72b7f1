/**
 The ledger: the live cells and what a committed transaction does to them. Inputs
 are consumed, outputs appear under fresh outpoints of the transaction's own hash.
 */
module CellLedger {
  import opened Prelude
  import opened Chain

  type Ledger = map<OutPoint, Cell>

  function Consume(l: Ledger, inputs: seq<OutPoint>): Ledger {
    if inputs == [] then l else Consume(l - {inputs[0]}, inputs[1..])
  }

  lemma {:induction false} ConsumeKeeps(l: Ledger, inputs: seq<OutPoint>)
    ensures forall k :: k in Consume(l, inputs) <==> k in l && k !in inputs
    ensures forall k :: k in Consume(l, inputs) ==> Consume(l, inputs)[k] == l[k]
  {
    if inputs != [] {
      ConsumeKeeps(l - {inputs[0]}, inputs[1..]);
    }
  }

  function Produce(l: Ledger, txHash: Bytes32, outputs: seq<Cell>): Ledger {
    if outputs == [] then l
    else
      var n := |outputs| - 1;
      Produce(l, txHash, outputs[..n])[OutPoint(txHash, n) := outputs[n]]
  }

  lemma {:induction false} ProduceKeys(l: Ledger, txHash: Bytes32, outputs: seq<Cell>)
    ensures forall k :: k in Produce(l, txHash, outputs) <==> (k in l || (k.txHash == txHash && k.index < |outputs|))
    ensures forall k :: k in Produce(l, txHash, outputs) ==>
      if k.txHash == txHash && k.index < |outputs| then Produce(l, txHash, outputs)[k] == outputs[k.index]
      else Produce(l, txHash, outputs)[k] == l[k]
  {
    if outputs != [] {
      ProduceKeys(l, txHash, outputs[..|outputs| - 1]);
    }
  }

  /** The transaction spends live cells, each once, and `spent` are those cells. */
  ghost predicate Spends(l: Ledger, inputs: seq<OutPoint>, spent: seq<Cell>) {
    && |inputs| == |spent|
    && NoDuplicates(inputs)
    && forall i :: 0 <= i < |inputs| ==> inputs[i] in l && spent[i] == l[inputs[i]]
  }

  /** The outpoints a transaction creates are not live yet. */
  ghost predicate Fresh(l: Ledger, txHash: Bytes32) {
    forall i: nat :: OutPoint(txHash, i) !in l
  }

  /** Spends live cells and creates fresh ones. */
  ghost predicate Committable(c: Crypto, l: Ledger, rtx: ResolvedTx) {
    Spends(l, rtx.tx.raw.inputs, rtx.spent) && Fresh(l, TxHash(c, rtx.tx))
  }

  /** The ledger once the transaction is committed. */
  function Committed(c: Crypto, l: Ledger, tx: Tx): Ledger {
    Produce(Consume(l, tx.raw.inputs), TxHash(c, tx), tx.raw.outputs)
  }

  /** What is live afterwards: the untouched cells, and the outputs. */
  lemma CommittedCells(c: Crypto, l: Ledger, rtx: ResolvedTx, k: OutPoint)
    requires Committable(c, l, rtx)
    ensures var after, h, outputs := Committed(c, l, rtx.tx), TxHash(c, rtx.tx), rtx.tx.raw.outputs;
      && (k in after <==> (k in l && k !in rtx.tx.raw.inputs) || (k.txHash == h && k.index < |outputs|))
      && (k in after ==> after[k] == if k.txHash == h then outputs[k.index] else l[k])
  {
    ConsumeKeeps(l, rtx.tx.raw.inputs);
    ProduceKeys(Consume(l, rtx.tx.raw.inputs), TxHash(c, rtx.tx), rtx.tx.raw.outputs);
    assert OutPoint(k.txHash, k.index) == k;
  }

  lemma SpendsOne(l: Ledger, at: OutPoint)
    requires at in l
    ensures Spends(l, [at], [l[at]])
  {
  }

  /** Every hash on the ledger is known. */
  ghost predicate KnownHashes(l: Ledger, known: set<Bytes32>) {
    forall k :: k in l ==> k.txHash in known
  }

  lemma KnownAfter(c: Crypto, l: Ledger, rtx: ResolvedTx, known: set<Bytes32>)
    requires Committable(c, l, rtx) && KnownHashes(l, known)
    ensures KnownHashes(Committed(c, l, rtx.tx), known + {TxHash(c, rtx.tx)})
  {
    forall k | k in Committed(c, l, rtx.tx)
      ensures k.txHash in known + {TxHash(c, rtx.tx)}
    {
      CommittedCells(c, l, rtx, k);
    }
  }

  // ---- Sums over live cells -------------------------------------------------

  ghost function SumOver(f: Cell -> nat, l: Ledger): nat {
    if l == map[] then 0
    else
      var k :| k in l;
      f(l[k]) + SumOver(f, l - {k})
  }

  /** The sum does not depend on the order in which cells are picked. */
  lemma {:induction false} SumOverRemove(f: Cell -> nat, l: Ledger, k: OutPoint)
    requires k in l
    ensures SumOver(f, l) == f(l[k]) + SumOver(f, l - {k})
    decreases |l|
  {
    var j :| j in l && SumOver(f, l) == f(l[j]) + SumOver(f, l - {j});
    if j != k {
      SumOverRemove(f, l - {j}, k);
      SumOverRemove(f, l - {k}, j);
      assert l - {j} - {k} == l - {k} - {j};
    }
  }

  lemma SumOverAdd(f: Cell -> nat, l: Ledger, k: OutPoint, cell: Cell)
    requires k !in l
    ensures SumOver(f, l[k := cell]) == SumOver(f, l) + f(cell)
  {
    SumOverRemove(f, l[k := cell], k);
    assert l[k := cell] - {k} == l;
  }

  lemma {:induction false} SumOverConsume(f: Cell -> nat, l: Ledger, inputs: seq<OutPoint>, spent: seq<Cell>)
    requires Spends(l, inputs, spent)
    ensures SumOver(f, l) == SumOver(f, Consume(l, inputs)) + SumOf(f, spent)
    decreases |inputs|
  {
    if inputs != [] {
      SumOverRemove(f, l, inputs[0]);
      var rest := l - {inputs[0]};
      assert forall i :: 0 <= i < |inputs[1..]| ==> inputs[1..][i] == inputs[i + 1] && inputs[i + 1] != inputs[0];
      SumOverConsume(f, rest, inputs[1..], spent[1..]);
    }
  }

  lemma {:induction false} SumOverProduce(f: Cell -> nat, l: Ledger, txHash: Bytes32, outputs: seq<Cell>)
    requires Fresh(l, txHash)
    ensures SumOver(f, Produce(l, txHash, outputs)) == SumOver(f, l) + SumOf(f, outputs)
    decreases |outputs|
  {
    if outputs != [] {
      var n := |outputs| - 1;
      SumOverProduce(f, l, txHash, outputs[..n]);
      ProduceKeys(l, txHash, outputs[..n]);
      SumOverAdd(f, Produce(l, txHash, outputs[..n]), OutPoint(txHash, n), outputs[n]);
      SumOfSnoc(f, outputs, n);
      assert outputs[..n + 1] == outputs;
    }
  }

  /** A committed transaction moves a sum by its outputs less what it spends. */
  lemma SumOverCommitted(f: Cell -> nat, c: Crypto, l: Ledger, rtx: ResolvedTx)
    requires Committable(c, l, rtx)
    ensures SumOver(f, Committed(c, l, rtx.tx)) + SumOf(f, rtx.spent) == SumOver(f, l) + SumOf(f, rtx.tx.raw.outputs)
  {
    SumOverConsume(f, l, rtx.tx.raw.inputs, rtx.spent);
    ConsumeKeeps(l, rtx.tx.raw.inputs);
    SumOverProduce(f, Consume(l, rtx.tx.raw.inputs), TxHash(c, rtx.tx), rtx.tx.raw.outputs);
  }
}
