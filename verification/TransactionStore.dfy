/** Share-chain transactions split into metadata, inputs and outputs, the spends index, and the way back. */
module TransactionStore {
  import opened Primitives
  import opened Types
  import opened Database

  // ----- what the writers put into a batch -----

  /** Input and output counts are cast to 32 bits. */
  function MetadataOf(tx: Transaction, validated: bool): TxMetadata {
    TxMetadata(ComputeTxid(tx), tx.version, tx.lockTime, |tx.input| % U32, |tx.output| % U32, validated)
  }

  function InputOp(tx: Transaction, i: nat): WriteOp
    requires i < |tx.input|
  {
    Put(InputKey(ComputeTxid(tx), i), Input(StripInput(tx.input[i])))
  }

  /** The spends-index entry: the output spent by input `i` maps to that input, its index cast to 32 bits. */
  function SpendOp(tx: Transaction, i: nat): WriteOp
    requires i < |tx.input|
  {
    Put(SpendKey(tx.input[i].previousOutput), Spend(OutPoint(ComputeTxid(tx), i % U32)))
  }

  function OutputOp(tx: Transaction, i: nat): WriteOp
    requires i < |tx.output|
  {
    Put(OutputKey(ComputeTxid(tx), i), Output(tx.output[i]))
  }

  function InputOps(tx: Transaction, n: nat, onMainChain: bool): seq<WriteOp>
    requires n <= |tx.input|
  {
    if n == 0 then []
    else InputOps(tx, n - 1, onMainChain) + [InputOp(tx, n - 1)] + (if onMainChain then [SpendOp(tx, n - 1)] else [])
  }

  function OutputOps(tx: Transaction, n: nat): seq<WriteOp>
    requires n <= |tx.output|
  {
    if n == 0 then [] else OutputOps(tx, n - 1) + [OutputOp(tx, n - 1)]
  }

  function TxOps(tx: Transaction, onMainChain: bool): seq<WriteOp> {
    [Put(TxKey(ComputeTxid(tx)), TxMeta(MetadataOf(tx, false)))] + InputOps(tx, |tx.input|, onMainChain)
        + OutputOps(tx, |tx.output|)
  }

  function TxsOps(txs: seq<Transaction>, onMainChain: bool): seq<WriteOp> {
    if txs == [] then [] else TxsOps(txs[..|txs| - 1], onMainChain) + TxOps(txs[|txs| - 1], onMainChain)
  }

  /** `add_sharechain_txs`; returns the metadata records it wrote. */
  method AddSharechainTxs(transactions: seq<Transaction>, onMainChain: bool, batch: WriteBatch)
    returns (metadata: seq<TxMetadata>)
    modifies batch
    ensures batch.ops == old(batch.ops) + TxsOps(transactions, onMainChain)
    ensures |metadata| == |transactions|
    ensures forall i :: 0 <= i < |transactions| ==> metadata[i] == MetadataOf(transactions[i], false)
  {
    metadata := [];
    ghost var before := batch.ops;
    for k := 0 to |transactions|
      invariant batch.ops == before + TxsOps(transactions[..k], onMainChain)
      invariant |metadata| == k && forall i :: 0 <= i < k ==> metadata[i] == MetadataOf(transactions[i], false)
    {
      AddSharechainTx(transactions[k], onMainChain, batch);
      metadata := metadata + [MetadataOf(transactions[k], false)];
      TxsOpsPush(transactions, k, onMainChain, before);
    }
    assert transactions[..|transactions|] == transactions;
  }

  lemma TxsOpsPush(txs: seq<Transaction>, k: nat, onMainChain: bool, before: seq<WriteOp>)
    requires k < |txs|
    ensures before + TxsOps(txs[..k + 1], onMainChain)
         == before + TxsOps(txs[..k], onMainChain) + TxOps(txs[k], onMainChain)
  {
    assert txs[..k + 1][..k] == txs[..k];
    var a, b := TxsOps(txs[..k], onMainChain), TxOps(txs[k], onMainChain);
    assert before + (a + b) == before + a + b;
  }

  /** The body of the outer loop of `add_sharechain_txs`: one transaction. */
  method AddSharechainTx(tx: Transaction, onMainChain: bool, batch: WriteBatch)
    modifies batch
    ensures batch.ops == old(batch.ops) + TxOps(tx, onMainChain)
  {
    ghost var before := batch.ops;
    var txid := ComputeTxid(tx);
    batch.PutCf(TxKey(txid), TxMeta(MetadataOf(tx, false)));
    ghost var meta := batch.ops;
    for i := 0 to |tx.input|
      invariant batch.ops == meta + InputOps(tx, i, onMainChain)
    {
      batch.PutCf(InputKey(txid, i), Input(StripInput(tx.input[i])));
      if onMainChain {
        AddSpend(tx.input[i].previousOutput, txid, i % U32, batch);
      }
    }
    ghost var inputs := batch.ops;
    for i := 0 to |tx.output|
      invariant batch.ops == inputs + OutputOps(tx, i)
    {
      batch.PutCf(OutputKey(txid, i), Output(tx.output[i]));
    }
  }

  /** `add_spend`. */
  method AddSpend(spent: OutPoint, spendingTxid: Txid, spendingIndex: nat, batch: WriteBatch)
    modifies batch
    ensures batch.ops == old(batch.ops) + [Put(SpendKey(spent), Spend(OutPoint(spendingTxid, spendingIndex)))]
  {
    batch.PutCf(SpendKey(spent), Spend(OutPoint(spendingTxid, spendingIndex)));
  }

  /** `mark_transaction_valid`: rewrites the committed metadata; nothing is written for an unknown transaction. */
  function MarkOps(db: Db, txid: Txid): seq<WriteOp> {
    if TxKey(txid) in db && db[TxKey(txid)].TxMeta?
        then [Put(TxKey(txid), TxMeta(db[TxKey(txid)].tx.(validated := true)))] else []
  }

  // ----- which operations a transaction contributes -----

  ghost predicate IsTxOp(tx: Transaction, onMainChain: bool, op: WriteOp) {
    || op == Put(TxKey(ComputeTxid(tx)), TxMeta(MetadataOf(tx, false)))
    || (exists i :: 0 <= i < |tx.input| && op == InputOp(tx, i))
    || (onMainChain && exists i :: 0 <= i < |tx.input| && op == SpendOp(tx, i))
    || (exists i :: 0 <= i < |tx.output| && op == OutputOp(tx, i))
  }

  ghost predicate HasTxOp(txs: seq<Transaction>, onMainChain: bool, op: WriteOp) {
    exists tx :: tx in txs && IsTxOp(tx, onMainChain, op)
  }

  lemma {:induction false} InputOpsAre(tx: Transaction, n: nat, onMainChain: bool, op: WriteOp)
    requires n <= |tx.input|
    ensures op in InputOps(tx, n, onMainChain)
       <==> (exists i :: 0 <= i < n && op == InputOp(tx, i))
            || (onMainChain && exists i :: 0 <= i < n && op == SpendOp(tx, i))
  {
    if n == 0 {
    } else {
      InputOpsAre(tx, n - 1, onMainChain, op);
    }
  }

  lemma {:induction false} OutputOpsAre(tx: Transaction, n: nat, op: WriteOp)
    requires n <= |tx.output|
    ensures op in OutputOps(tx, n) <==> exists i :: 0 <= i < n && op == OutputOp(tx, i)
  {
    if n == 0 {
    } else {
      OutputOpsAre(tx, n - 1, op);
    }
  }

  lemma TxOpsAre(tx: Transaction, onMainChain: bool, op: WriteOp)
    ensures op in TxOps(tx, onMainChain) <==> IsTxOp(tx, onMainChain, op)
  {
    InputOpsAre(tx, |tx.input|, onMainChain, op);
    OutputOpsAre(tx, |tx.output|, op);
  }

  lemma {:induction false} TxsOpsAre(txs: seq<Transaction>, onMainChain: bool, op: WriteOp)
    ensures op in TxsOps(txs, onMainChain) <==> HasTxOp(txs, onMainChain, op)
  {
    if txs == [] {
    } else {
      var init, last := txs[..|txs| - 1], txs[|txs| - 1];
      assert txs == init + [last];
      TxsOpsAre(init, onMainChain, op);
      TxOpsAre(last, onMainChain, op);
    }
  }

  // ----- reading a transaction back -----

  datatype Read<T> = Values(values: seq<T>) | Missing | Corrupt

  function ReadInputs(db: Db, txid: Txid, n: nat): Read<TxIn> {
    if n == 0 then Values([])
    else
      var sofar := ReadInputs(db, txid, n - 1);
      if !sofar.Values? then sofar
      else if InputKey(txid, n - 1) !in db then Missing
      else if !db[InputKey(txid, n - 1)].Input? then Corrupt
      else Values(sofar.values + [db[InputKey(txid, n - 1)].input])
  }

  function ReadOutputs(db: Db, txid: Txid, n: nat): Read<TxOut> {
    if n == 0 then Values([])
    else
      var sofar := ReadOutputs(db, txid, n - 1);
      if !sofar.Values? then sofar
      else if OutputKey(txid, n - 1) !in db then Missing
      else if !db[OutputKey(txid, n - 1)].Output? then Corrupt
      else Values(sofar.values + [db[OutputKey(txid, n - 1)].output])
  }

  /** Outcome of `get_tx`: a transaction, an error, or the panic of unwrapping a missing input or output. */
  datatype TxRead = Found(tx: Transaction) | Failed | Panicked

  function GetTx(db: Db, txid: Txid): TxRead {
    if TxKey(txid) !in db || !db[TxKey(txid)].TxMeta? then Failed
    else
      var m := db[TxKey(txid)].tx;
      var inputs, outputs := ReadInputs(db, txid, m.inputCount), ReadOutputs(db, txid, m.outputCount);
      if !inputs.Values? then (if inputs.Missing? then Panicked else Failed)
      else if !outputs.Values? then (if outputs.Missing? then Panicked else Failed)
      else Found(Transaction(m.version, m.lockTime, inputs.values, outputs.values))
  }

  /** `get_tx`. */
  method LoadTx(db: Db, txid: Txid) returns (r: TxRead)
    ensures r == GetTx(db, txid)
  {
    if TxKey(txid) !in db || !db[TxKey(txid)].TxMeta? {
      return Failed;
    }
    var m := db[TxKey(txid)].tx;
    var inputs: seq<TxIn> := [];
    for i := 0 to m.inputCount
      invariant ReadInputs(db, txid, i) == Values(inputs)
    {
      if InputKey(txid, i) !in db {
        ReadInputsStuck(db, txid, i + 1, m.inputCount);
        return Panicked;
      }
      if !db[InputKey(txid, i)].Input? {
        ReadInputsStuck(db, txid, i + 1, m.inputCount);
        return Failed;
      }
      inputs := inputs + [db[InputKey(txid, i)].input];
    }
    var outputs: seq<TxOut> := [];
    for i := 0 to m.outputCount
      invariant ReadOutputs(db, txid, i) == Values(outputs)
    {
      if OutputKey(txid, i) !in db {
        ReadOutputsStuck(db, txid, i + 1, m.outputCount);
        return Panicked;
      }
      if !db[OutputKey(txid, i)].Output? {
        ReadOutputsStuck(db, txid, i + 1, m.outputCount);
        return Failed;
      }
      outputs := outputs + [db[OutputKey(txid, i)].output];
    }
    return Found(Transaction(m.version, m.lockTime, inputs, outputs));
  }

  lemma {:induction false} ReadInputsStuck(db: Db, txid: Txid, i: nat, n: nat)
    requires i <= n && !ReadInputs(db, txid, i).Values?
    ensures ReadInputs(db, txid, n) == ReadInputs(db, txid, i)
    decreases n - i
  {
    if i < n {
      ReadInputsStuck(db, txid, i + 1, n);
    }
  }

  lemma {:induction false} ReadOutputsStuck(db: Db, txid: Txid, i: nat, n: nat)
    requires i <= n && !ReadOutputs(db, txid, i).Values?
    ensures ReadOutputs(db, txid, n) == ReadOutputs(db, txid, i)
    decreases n - i
  {
    if i < n {
      ReadOutputsStuck(db, txid, i + 1, n);
    }
  }

  // ----- the invariant: metadata never outruns inputs and outputs -----

  ghost predicate MetaFor(t: Txid, v: Value) {
    && t.TxidOf? && v.TxMeta?
    && v.tx.txid == t && v.tx.version == t.tx.version && v.tx.lockTime == t.tx.lockTime
    && v.tx.inputCount == |t.tx.input| % U32 && v.tx.outputCount == |t.tx.output| % U32
  }

  ghost predicate PartsPresent(db: Db, t: Txid) {
    && t.TxidOf?
    && (forall i :: 0 <= i < |t.tx.input| ==> InputKey(t, i) in db && db[InputKey(t, i)] == Input(t.tx.input[i]))
    && (forall i :: 0 <= i < |t.tx.output| ==> OutputKey(t, i) in db && db[OutputKey(t, i)] == Output(t.tx.output[i]))
  }

  /** Every stored metadata record is that of its transaction, whose inputs and outputs are all stored. */
  ghost predicate TxInv(db: Db) {
    forall t :: TxKey(t) in db ==> MetaFor(t, db[TxKey(t)]) && PartsPresent(db, t)
  }

  /** The batch brings all inputs and outputs of `t`. */
  ghost predicate PartsWritten(ops: seq<WriteOp>, t: Txid) {
    && t.TxidOf?
    && (forall i :: 0 <= i < |t.tx.input| ==> Put(InputKey(t, i), Input(t.tx.input[i])) in ops)
    && (forall i :: 0 <= i < |t.tx.output| ==> Put(OutputKey(t, i), Output(t.tx.output[i])) in ops)
  }

  /** What every batch obeys about transaction keys. */
  ghost predicate TxDiscipline(db: Db, ops: seq<WriteOp>) {
    && (forall t :: PutOnly(ops, TxKey(t)))
    && (forall t, i: nat :: PutOnly(ops, InputKey(t, i)) && PutOnly(ops, OutputKey(t, i)))
    && (forall t, v :: Put(TxKey(t), v) in ops ==> MetaFor(t, v) && (PartsWritten(ops, t) || TxKey(t) in db))
    && (forall t, i: nat, v :: Put(InputKey(t, i), v) in ops ==>
          t.TxidOf? && i < |t.tx.input| && v == Input(t.tx.input[i]))
    && (forall t, i: nat, v :: Put(OutputKey(t, i), v) in ops ==>
          t.TxidOf? && i < |t.tx.output| && v == Output(t.tx.output[i]))
  }

  lemma PartsAfterCommit(db: Db, ops: seq<WriteOp>, t: Txid)
    requires TxDiscipline(db, ops) && t.TxidOf?
    requires PartsPresent(db, t) || PartsWritten(ops, t)
    ensures PartsPresent(Commit(db, ops), t)
  {
    forall i | 0 <= i < |t.tx.input|
      ensures InputKey(t, i) in Commit(db, ops) && Commit(db, ops)[InputKey(t, i)] == Input(t.tx.input[i])
    {
      assert PutOnly(ops, InputKey(t, i));
      CommitPut(db, ops, InputKey(t, i));
      LastPutFacts(ops, InputKey(t, i));
    }
    forall i | 0 <= i < |t.tx.output|
      ensures OutputKey(t, i) in Commit(db, ops) && Commit(db, ops)[OutputKey(t, i)] == Output(t.tx.output[i])
    {
      assert PutOnly(ops, OutputKey(t, i));
      CommitPut(db, ops, OutputKey(t, i));
      LastPutFacts(ops, OutputKey(t, i));
    }
  }

  /** Every disciplined batch keeps the invariant. */
  lemma TxInvCommit(db: Db, ops: seq<WriteOp>)
    requires TxInv(db) && TxDiscipline(db, ops)
    ensures TxInv(Commit(db, ops))
  {
    var db' := Commit(db, ops);
    forall t | TxKey(t) in db' ensures MetaFor(t, db'[TxKey(t)]) && PartsPresent(db', t) {
      CommitPut(db, ops, TxKey(t));
      LastPutFacts(ops, TxKey(t));
      assert MetaFor(t, db'[TxKey(t)]);
      PartsAfterCommit(db, ops, t);
    }
  }

  lemma {:induction false} ReadPresent(db: Db, t: Txid, n: nat, m: nat)
    requires PartsPresent(db, t) && n <= |t.tx.input| && m <= |t.tx.output|
    ensures ReadInputs(db, t, n) == Values(t.tx.input[..n])
    ensures ReadOutputs(db, t, m) == Values(t.tx.output[..m])
  {
    if n > 0 {
      ReadPresent(db, t, n - 1, m);
      assert t.tx.input[..n] == t.tx.input[..n - 1] + [t.tx.input[n - 1]];
    } else if m > 0 {
      ReadPresent(db, t, 0, m - 1);
      assert t.tx.output[..m] == t.tx.output[..m - 1] + [t.tx.output[m - 1]];
    }
  }

  lemma TruncatedLength<T>(s: seq<T>)
    ensures |s| % U32 <= |s|
    ensures s[..|s| % U32] == s <==> |s| < U32
  {
    if |s| >= U32 {
      assert |s| % U32 < U32;
    }
  }

  /**
    Reading a stored transaction never panics and gives back version, lock time, ordered inputs without
    witnesses and ordered outputs; it is the whole transaction exactly when the counts fit 32 bits.
   */
  lemma GetTxRoundTrip(db: Db, tx: Transaction)
    requires TxInv(db) && TxKey(ComputeTxid(tx)) in db
    ensures GetTx(db, ComputeTxid(tx)).Found?
    ensures GetTx(db, ComputeTxid(tx)) == Found(Strip(tx)) <==> |tx.input| < U32 && |tx.output| < U32
  {
    var t := ComputeTxid(tx);
    TruncatedLength(t.tx.input);
    TruncatedLength(t.tx.output);
    ReadPresent(db, t, |t.tx.input| % U32, |t.tx.output| % U32);
  }

  /** On a store that keeps the invariant `get_tx` fails exactly on unknown ids and never panics. */
  lemma GetTxNeverPanics(db: Db, t: Txid)
    requires TxInv(db)
    ensures GetTx(db, t).Failed? <==> TxKey(t) !in db
    ensures !GetTx(db, t).Panicked?
  {
    if TxKey(t) in db {
      TruncatedLength(t.tx.input);
      TruncatedLength(t.tx.output);
      ReadPresent(db, t, |t.tx.input| % U32, |t.tx.output| % U32);
    }
  }

  // ----- spends -----

  /** `is_spent`. */
  function IsSpent(db: Db, o: OutPoint): Option<OutPoint> {
    if SpendKey(o) in db && db[SpendKey(o)].Spend? then Some(db[SpendKey(o)].spender) else None
  }
}
