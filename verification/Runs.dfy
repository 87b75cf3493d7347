/**
  Runs of the store. A run is a list of batches, each built from calls and then committed by the single
  writer thread; the guards inside a batch read the store as it was before the batch.
 */
module Runs {
  import opened Primitives
  import opened Types
  import opened Database
  import opened TransactionStore
  import opened ShareStore
  import opened Organise

  datatype Call =
    | AddShareCall(share: ShareBlock, height: nat, chainWork: nat, confirmTxs: bool)
    | AddTxsCall(txs: seq<Transaction>, onMainChain: bool)
    | MakeCandidateCall(hash: BlockHash, height: nat)
    | MakeConfirmedCall(hash: BlockHash, height: nat)
    | AddToUnclesIndexCall(uncle: BlockHash, nephew: BlockHash)
    | MarkValidCall(txid: Txid)

  type Run = seq<seq<Call>>

  function CallOps(db: Db, call: Call): seq<WriteOp> {
    match call
    case AddShareCall(share, height, work, confirmTxs) => ShareOps(share, height, work, confirmTxs)
    case AddTxsCall(txs, onMainChain) => TxsOps(txs, onMainChain)
    case MakeCandidateCall(hash, height) => CandidateOps(db, hash, height)
    case MakeConfirmedCall(hash, height) => ConfirmOps(db, hash, height)
    case AddToUnclesIndexCall(uncle, nephew) => [Merge(NephewsKey(uncle), nephew)]
    case MarkValidCall(txid) => MarkOps(db, txid)
  }

  function BatchOps(db: Db, calls: seq<Call>): seq<WriteOp> {
    if calls == [] then [] else BatchOps(db, calls[..|calls| - 1]) + CallOps(db, calls[|calls| - 1])
  }

  function After(db: Db, run: Run): Db {
    if run == [] then db
    else
      var before := After(db, run[..|run| - 1]);
      Commit(before, BatchOps(before, run[|run| - 1]))
  }

  lemma AfterPush(db: Db, run: Run, calls: seq<Call>)
    ensures After(db, run + [calls]) == Commit(After(db, run), BatchOps(After(db, run), calls))
  {
    assert (run + [calls])[..|run + [calls]| - 1] == run;
  }

  lemma {:induction false} AfterConcat(db: Db, a: Run, b: Run)
    ensures After(db, a + b) == After(After(db, a), b)
  {
    if b == [] {
      assert a + b == a;
    } else {
      var init, last := b[..|b| - 1], b[|b| - 1];
      assert b == init + [last] && a + b == (a + init) + [last];
      AfterConcat(db, a, init);
      AfterPush(db, a + init, last);
      AfterPush(After(db, a), init, last);
    }
  }

  function Calls(run: Run): seq<Call> {
    if run == [] then [] else Calls(run[..|run| - 1]) + run[|run| - 1]
  }

  /** All operations of a run in commit order. */
  function AllOps(db: Db, run: Run): seq<WriteOp> {
    if run == [] then []
    else AllOps(db, run[..|run| - 1]) + BatchOps(After(db, run[..|run| - 1]), run[|run| - 1])
  }

  /** One call of the writer, as the store's methods perform it on a pending batch. */
  method Perform(db: Db, call: Call, batch: WriteBatch)
    modifies batch
    ensures batch.ops == old(batch.ops) + CallOps(db, call)
  {
    match call {
      case AddShareCall(share, height, work, confirmTxs) => AddShare(share, height, work, confirmTxs, batch);
      case AddTxsCall(txs, onMainChain) => var _ := AddSharechainTxs(txs, onMainChain, batch);
      case MakeCandidateCall(hash, height) => MakeCandidate(db, hash, height, batch);
      case MakeConfirmedCall(hash, height) => MakeConfirmed(db, hash, height, batch);
      case AddToUnclesIndexCall(uncle, nephew) => batch.MergeCf(NephewsKey(uncle), nephew);
      case MarkValidCall(txid) =>
        if TxKey(txid) in db && db[TxKey(txid)].TxMeta? {
          batch.PutCf(TxKey(txid), TxMeta(db[TxKey(txid)].tx.(validated := true)));
        }
    }
  }

  /** One command of the writer: a fresh batch, the calls that build it, and its commit. */
  method CommitCalls(db: Db, calls: seq<Call>) returns (next: Db)
    ensures next == After(db, [calls])
  {
    var batch := new WriteBatch();
    for i := 0 to |calls|
      invariant batch.ops == BatchOps(db, calls[..i])
    {
      assert calls[..i + 1][..i] == calls[..i];
      Perform(db, calls[i], batch);
    }
    assert calls[..|calls|] == calls;
    next := Commit(db, batch.ops);
    assert [] + [calls] == [calls];
    AfterPush(db, [], calls);
  }

  /** Splitting a run into batches only matters to the guards: the state is one commit of all operations. */
  lemma {:induction false} AfterIsOneCommit(db: Db, run: Run)
    ensures After(db, run) == Commit(db, AllOps(db, run))
  {
    if run == [] {
    } else {
      AfterIsOneCommit(db, run[..|run| - 1]);
      CommitConcat(db, AllOps(db, run[..|run| - 1]), BatchOps(After(db, run[..|run| - 1]), run[|run| - 1]));
    }
  }

  // ----- lists are only merged into, all other keys are only put -----

  predicate IsListKey(key: Key) {
    key.ChildrenKey? || key.HeightKey? || key.TxBlocksKey? || key.NephewsKey?
  }

  predicate IsOrganiseKey(key: Key) {
    key.CandidateKey? || key.ConfirmedKey? || key.TopCandidateKey? || key.TopConfirmedKey?
  }

  ghost predicate Kinded(ops: seq<WriteOp>) {
    forall op :: op in ops ==> (op.Merge? <==> IsListKey(op.key))
  }

  lemma TxOpKind(txs: seq<Transaction>, onMainChain: bool, op: WriteOp)
    requires HasTxOp(txs, onMainChain, op)
    ensures op.Put? && IsTxKeyed(op.key)
  {
  }

  lemma ShareOpKind(share: ShareBlock, height: nat, chainWork: nat, op: WriteOp)
    requires IsIndexOp(share, op) || op in RecordOps(share, height, chainWork)
    ensures (op.Merge? <==> IsListKey(op.key)) && !IsTxKeyed(op.key) && !IsOrganiseKey(op.key)
  {
    var r := RecordOps(share, height, chainWork);
    if op in r {
      assert op == r[0] || op == r[1] || op == r[2];
    }
  }

  lemma CallOpKind(db: Db, call: Call, op: WriteOp)
    requires op in CallOps(db, call)
    ensures op.Merge? <==> IsListKey(op.key)
  {
    match call
    case AddShareCall(share, height, work, confirmTxs) =>
      ShareOpsAre(share, height, work, confirmTxs, op);
      if IsIndexOp(share, op) || op in RecordOps(share, height, work) {
        ShareOpKind(share, height, work, op);
      } else {
        TxOpKind(share.transactions, confirmTxs, op);
      }
    case AddTxsCall(txs, onMainChain) =>
      TxsOpsAre(txs, onMainChain, op);
      TxOpKind(txs, onMainChain, op);
    case _ => OtherOpKind(db, call, op);
  }

  lemma OtherOpKind(db: Db, call: Call, op: WriteOp)
    requires !call.AddShareCall? && !call.AddTxsCall? && op in CallOps(db, call)
    ensures op.Merge? <==> IsListKey(op.key)
  {
  }

  lemma CallOpsKinded(db: Db, call: Call)
    ensures Kinded(CallOps(db, call))
  {
    forall op | op in CallOps(db, call) ensures op.Merge? <==> IsListKey(op.key) {
      CallOpKind(db, call, op);
    }
  }

  lemma {:induction false} BatchOpsKinded(db: Db, calls: seq<Call>)
    ensures Kinded(BatchOps(db, calls))
  {
    if calls == [] {
    } else {
      BatchOpsKinded(db, calls[..|calls| - 1]);
      CallOpsKinded(db, calls[|calls| - 1]);
    }
  }

  lemma {:induction false} AllOpsKinded(db: Db, run: Run)
    ensures Kinded(AllOps(db, run))
  {
    if run == [] {
    } else {
      AllOpsKinded(db, run[..|run| - 1]);
      BatchOpsKinded(After(db, run[..|run| - 1]), run[|run| - 1]);
    }
  }

  // ----- merged lists over a run -----

  /** Adding the share sends its hash to the list under `key`. */
  ghost predicate ShareMerges(share: ShareBlock, height: nat, key: Key) {
    || key == HeightKey(height)
    || (key.ChildrenKey? && key.hash in Parents(share.header))
    || (key.TxBlocksKey? && key.txid in Txids(share.transactions))
  }

  /** `call` sends operand `h` to the list under `key`. */
  ghost predicate CallMerges(call: Call, key: Key, h: BlockHash) {
    match call
    case AddShareCall(share, height, _, _) => h == share.Hash() && ShareMerges(share, height, key)
    case AddToUnclesIndexCall(uncle, nephew) => key == NephewsKey(uncle) && h == nephew
    case _ => false
  }

  lemma NoTxMerge(txs: seq<Transaction>, onMainChain: bool, key: Key, h: BlockHash)
    ensures !HasTxOp(txs, onMainChain, Merge(key, h))
  {
    if HasTxOp(txs, onMainChain, Merge(key, h)) {
      TxOpKind(txs, onMainChain, Merge(key, h));
      assert false;
    }
  }

  lemma ShareMergesIs(share: ShareBlock, height: nat, work: nat, confirmTxs: bool, key: Key, h: BlockHash)
    ensures Merge(key, h) in ShareOps(share, height, work, confirmTxs) <==>
              h == share.Hash() && ShareMerges(share, height, key)
  {
    ShareOpsAre(share, height, work, confirmTxs, Merge(key, h));
    NoTxMerge(share.transactions, confirmTxs, key, h);
    var r := RecordOps(share, height, work);
    assert Merge(key, h) in r <==> Merge(key, h) == r[0];
  }

  lemma CallMergesIs(db: Db, call: Call, key: Key, h: BlockHash)
    ensures Merge(key, h) in CallOps(db, call) <==> CallMerges(call, key, h)
  {
    match call
    case AddShareCall(share, height, work, confirmTxs) => ShareMergesIs(share, height, work, confirmTxs, key, h);
    case AddTxsCall(txs, onMainChain) =>
      TxsOpsAre(txs, onMainChain, Merge(key, h));
      NoTxMerge(txs, onMainChain, key, h);
    case _ =>
  }

  ghost predicate SomeMerges(calls: seq<Call>, key: Key, h: BlockHash) {
    exists c :: c in calls && CallMerges(c, key, h)
  }

  lemma SomeMergesConcat(a: seq<Call>, b: seq<Call>, key: Key, h: BlockHash)
    ensures SomeMerges(a + b, key, h) <==> SomeMerges(a, key, h) || SomeMerges(b, key, h)
  {
    if SomeMerges(a, key, h) {
      var c :| c in a && CallMerges(c, key, h);
      assert c in a + b;
    } else if SomeMerges(b, key, h) {
      var c :| c in b && CallMerges(c, key, h);
      assert c in a + b;
    }
  }

  lemma BatchOpsPush(db: Db, calls: seq<Call>, last: Call, op: WriteOp)
    ensures op in BatchOps(db, calls + [last]) <==> op in BatchOps(db, calls) || op in CallOps(db, last)
  {
    assert (calls + [last])[..|calls + [last]| - 1] == calls;
  }

  /** A property that each call either has or not holds of a list exactly when some call has it. */
  lemma {:induction false} SomeCall(holds: seq<Call> -> bool, has: Call -> bool, calls: seq<Call>)
    requires !holds([])
    requires forall xs, c {:trigger holds(xs + [c])} :: holds(xs + [c]) <==> holds(xs) || has(c)
    ensures holds(calls) <==> exists c :: c in calls && has(c)
  {
    if calls == [] {
    } else {
      var init, last := calls[..|calls| - 1], calls[|calls| - 1];
      assert calls == init + [last];
      SomeCall(holds, has, init);
      assert holds(init + [last]) <==> holds(init) || has(last);
    }
  }

  lemma BatchMerges(db: Db, calls: seq<Call>, key: Key, h: BlockHash)
    ensures Merge(key, h) in BatchOps(db, calls) <==> SomeMerges(calls, key, h)
  {
    var holds := (xs: seq<Call>) => Merge(key, h) in BatchOps(db, xs);
    var has := (c: Call) => CallMerges(c, key, h);
    forall xs, c ensures holds(xs + [c]) <==> holds(xs) || has(c) {
      BatchOpsPush(db, xs, c, Merge(key, h));
      CallMergesIs(db, c, key, h);
    }
    SomeCall(holds, has, calls);
  }

  lemma {:induction false} RunMerges(db: Db, run: Run, key: Key, h: BlockHash)
    ensures Merge(key, h) in AllOps(db, run) <==> SomeMerges(Calls(run), key, h)
  {
    if run == [] {
    } else {
      RunMerges(db, run[..|run| - 1], key, h);
      BatchMerges(After(db, run[..|run| - 1]), run[|run| - 1], key, h);
      SomeMergesConcat(Calls(run[..|run| - 1]), run[|run| - 1], key, h);
    }
  }

  /** After any run a merged list holds exactly the operands sent to it, each once, and is never empty. */
  lemma RunList(run: Run, key: Key)
    requires IsListKey(key)
    ensures var db := After(map[], run);
            && NoDup(ListAt(db, key))
            && (key in db ==> db[key].Hashes?)
            && (key in db <==> ListAt(db, key) != [])
            && forall h :: h in ListAt(db, key) <==> exists c :: c in Calls(run) && CallMerges(c, key, h)
  {
    var db, ops := After(map[], run), AllOps(map[], run);
    AfterIsOneCommit(map[], run);
    AllOpsKinded(map[], run);
    assert MergeOnly(ops, key);
    CommitMerge(map[], ops, key);
    forall h ensures h in ListAt(db, key) <==> exists c :: c in Calls(run) && CallMerges(c, key, h) {
      RunMerges(map[], run, key, h);
    }
    if key in db {
      var h :| Merge(key, h) in ops;
      assert h in ListAt(db, key);
    }
  }

  // ----- put keys over a run -----

  /** Keys whose puts depend on the call alone, not on what the store held. */
  predicate IsStaticKey(key: Key) {
    !IsListKey(key) && !IsOrganiseKey(key) && !key.TxKey?
  }

  /** What the call leaves under a static key. */
  function CallPut(call: Call, key: Key): Option<Value> {
    LastPut(CallOps(map[], call), key)
  }

  function RunPut(calls: seq<Call>, key: Key): Option<Value> {
    if calls == [] then None
    else
      var last := CallPut(calls[|calls| - 1], key);
      if last.Some? then last else RunPut(calls[..|calls| - 1], key)
  }

  lemma CallPutStatic(db: Db, call: Call, key: Key)
    requires IsStaticKey(key)
    ensures LastPut(CallOps(db, call), key) == CallPut(call, key)
  {
    if !call.AddShareCall? && !call.AddTxsCall? {
      LastPutFacts(CallOps(db, call), key);
      LastPutFacts(CallOps(map[], call), key);
    }
  }

  lemma {:induction false} BatchPut(db: Db, calls: seq<Call>, key: Key)
    requires IsStaticKey(key)
    ensures LastPut(BatchOps(db, calls), key) == RunPut(calls, key)
  {
    if calls == [] {
    } else {
      var init, last := calls[..|calls| - 1], calls[|calls| - 1];
      BatchPut(db, init, key);
      CallPutStatic(db, last, key);
      LastPutConcat(BatchOps(db, init), CallOps(db, last), key);
    }
  }

  lemma {:induction false} RunPutConcat(a: seq<Call>, b: seq<Call>, key: Key)
    ensures RunPut(a + b, key) == if RunPut(b, key).Some? then RunPut(b, key) else RunPut(a, key)
  {
    if b == [] {
      assert a + b == a;
    } else {
      var init, last := b[..|b| - 1], b[|b| - 1];
      assert b == init + [last] && a + b == (a + init) + [last];
      RunPutConcat(a, init, key);
      RunPutPush(a + init, last, key);
      RunPutPush(init, last, key);
    }
  }

  lemma RunPutPush(calls: seq<Call>, last: Call, key: Key)
    ensures RunPut(calls + [last], key) == if CallPut(last, key).Some? then CallPut(last, key) else RunPut(calls, key)
  {
    assert (calls + [last])[..|calls + [last]| - 1] == calls;
  }

  lemma {:induction false} AllOpsPut(db: Db, run: Run, key: Key)
    requires IsStaticKey(key)
    ensures LastPut(AllOps(db, run), key) == RunPut(Calls(run), key)
  {
    if run == [] {
    } else {
      var init := run[..|run| - 1];
      AllOpsPut(db, init, key);
      BatchPut(After(db, init), run[|run| - 1], key);
      LastPutConcat(AllOps(db, init), BatchOps(After(db, init), run[|run| - 1]), key);
      RunPutConcat(Calls(init), run[|run| - 1], key);
    }
  }

  /** After any run a static key holds what the last call that wrote it put there. */
  lemma RunValue(run: Run, key: Key)
    requires IsStaticKey(key)
    ensures var db := After(map[], run);
            && (key in db <==> RunPut(Calls(run), key).Some?)
            && (key in db ==> db[key] == RunPut(Calls(run), key).value)
  {
    AfterIsOneCommit(map[], run);
    AllOpsKinded(map[], run);
    AllOpsPut(map[], run, key);
    CommitPut(map[], AllOps(map[], run), key);
  }

  // ----- transactions over a run -----

  ghost predicate HasTx(txs: seq<Transaction>, t: Txid) {
    exists tx :: tx in txs && ComputeTxid(tx) == t
  }

  /** The transactions a call stores. */
  function CallTxs(call: Call): seq<Transaction> {
    match call
    case AddShareCall(share, _, _, _) => share.transactions
    case AddTxsCall(txs, _) => txs
    case _ => []
  }

  predicate OnMain(call: Call) {
    match call
    case AddShareCall(_, _, _, confirmTxs) => confirmTxs
    case AddTxsCall(_, onMainChain) => onMainChain
    case _ => false
  }

  predicate IsTxKeyed(key: Key) {
    key.TxKey? || key.InputKey? || key.OutputKey? || key.SpendKey?
  }

  /** On transaction keys a call contributes the operations of its transactions, or the mark. */
  lemma CallTxOps(db: Db, call: Call, op: WriteOp)
    requires IsTxKeyed(op.key)
    ensures op in CallOps(db, call) <==>
              HasTxOp(CallTxs(call), OnMain(call), op) || (call.MarkValidCall? && op in MarkOps(db, call.txid))
  {
    match call
    case AddShareCall(share, height, work, confirmTxs) =>
      ShareOpsAre(share, height, work, confirmTxs, op);
      if IsIndexOp(share, op) || op in RecordOps(share, height, work) {
        ShareOpKind(share, height, work, op);
      }
    case AddTxsCall(txs, onMainChain) =>
      TxsOpsAre(txs, onMainChain, op);
    case MakeCandidateCall(hash, height) =>
      assert forall o :: o in CandidateOps(db, hash, height) ==> o.key.CandidateKey? || o.key.TopCandidateKey?;
    case MakeConfirmedCall(hash, height) =>
      assert forall o :: o in ConfirmOps(db, hash, height) ==> o.key.ConfirmedKey? || o.key.TopConfirmedKey?;
    case AddToUnclesIndexCall(uncle, nephew) =>
    case MarkValidCall(txid) =>
  }

  lemma TxKeyOp(tx: Transaction, onMainChain: bool, t: Txid, v: Value)
    requires IsTxOp(tx, onMainChain, Put(TxKey(t), v))
    ensures ComputeTxid(tx) == t && v == TxMeta(MetadataOf(tx, false))
  {
  }

  /** A metadata record is put for a stored transaction, or by marking one valid. */
  lemma CallTxKeyPut(db: Db, call: Call, t: Txid, v: Value)
    requires Put(TxKey(t), v) in CallOps(db, call)
    ensures (exists tx :: tx in CallTxs(call) && ComputeTxid(tx) == t && v == TxMeta(MetadataOf(tx, false)))
            || (call.MarkValidCall? && Put(TxKey(t), v) in MarkOps(db, call.txid))
  {
    CallTxOps(db, call, Put(TxKey(t), v));
    if HasTxOp(CallTxs(call), OnMain(call), Put(TxKey(t), v)) {
      var tx :| tx in CallTxs(call) && IsTxOp(tx, OnMain(call), Put(TxKey(t), v));
      TxKeyOp(tx, OnMain(call), t, v);
    }
  }

  lemma CallMetaPuts(db: Db, call: Call, t: Txid, v: Value)
    requires TxInv(db) && Put(TxKey(t), v) in CallOps(db, call)
    ensures MetaFor(t, v) && (PartsWritten(CallOps(db, call), t) || TxKey(t) in db)
  {
    CallTxKeyPut(db, call, t, v);
    if tx :| tx in CallTxs(call) && ComputeTxid(tx) == t && v == TxMeta(MetadataOf(tx, false)) {
      CallWritesParts(db, call, tx);
    } else {
      MarkKeepsMeta(db, call.txid, t, v);
    }
  }

  lemma MarkKeepsMeta(db: Db, txid: Txid, t: Txid, v: Value)
    requires TxInv(db) && Put(TxKey(t), v) in MarkOps(db, txid)
    ensures MetaFor(t, v) && TxKey(t) in db
  {
  }

  lemma TxPartPut(tx: Transaction, onMainChain: bool, t: Txid, i: nat, v: Value)
    ensures IsTxOp(tx, onMainChain, Put(InputKey(t, i), v)) ==>
              t.TxidOf? && i < |t.tx.input| && v == Input(t.tx.input[i])
    ensures IsTxOp(tx, onMainChain, Put(OutputKey(t, i), v)) ==>
              t.TxidOf? && i < |t.tx.output| && v == Output(t.tx.output[i])
  {
  }

  lemma CallPartPuts(db: Db, call: Call, t: Txid, i: nat, v: Value)
    ensures Put(InputKey(t, i), v) in CallOps(db, call) ==> t.TxidOf? && i < |t.tx.input| && v == Input(t.tx.input[i])
    ensures Put(OutputKey(t, i), v) in CallOps(db, call) ==>
              t.TxidOf? && i < |t.tx.output| && v == Output(t.tx.output[i])
  {
    if Put(InputKey(t, i), v) in CallOps(db, call) {
      CallTxOps(db, call, Put(InputKey(t, i), v));
      var tx :| tx in CallTxs(call) && IsTxOp(tx, OnMain(call), Put(InputKey(t, i), v));
      TxPartPut(tx, OnMain(call), t, i, v);
    }
    if Put(OutputKey(t, i), v) in CallOps(db, call) {
      CallTxOps(db, call, Put(OutputKey(t, i), v));
      var tx :| tx in CallTxs(call) && IsTxOp(tx, OnMain(call), Put(OutputKey(t, i), v));
      TxPartPut(tx, OnMain(call), t, i, v);
    }
  }

  lemma CallDiscipline(db: Db, call: Call)
    requires TxInv(db)
    ensures TxDiscipline(db, CallOps(db, call))
  {
    var ops := CallOps(db, call);
    CallOpsKinded(db, call);
    forall t, v | Put(TxKey(t), v) in ops ensures MetaFor(t, v) && (PartsWritten(ops, t) || TxKey(t) in db) {
      CallMetaPuts(db, call, t, v);
    }
    forall t, i: nat, v | Put(InputKey(t, i), v) in ops
      ensures t.TxidOf? && i < |t.tx.input| && v == Input(t.tx.input[i])
    {
      CallPartPuts(db, call, t, i, v);
    }
    forall t, i: nat, v | Put(OutputKey(t, i), v) in ops
      ensures t.TxidOf? && i < |t.tx.output| && v == Output(t.tx.output[i])
    {
      CallPartPuts(db, call, t, i, v);
    }
    KindedPutOnly(ops);
  }

  lemma KindedPutOnly(ops: seq<WriteOp>)
    requires Kinded(ops)
    ensures forall key :: !IsListKey(key) ==> PutOnly(ops, key)
    ensures forall key :: IsListKey(key) ==> MergeOnly(ops, key)
  {
  }

  lemma CallWritesParts(db: Db, call: Call, tx: Transaction)
    requires tx in CallTxs(call)
    ensures PartsWritten(CallOps(db, call), ComputeTxid(tx))
  {
    var t := ComputeTxid(tx);
    forall i | 0 <= i < |t.tx.input| ensures Put(InputKey(t, i), Input(t.tx.input[i])) in CallOps(db, call) {
      assert IsTxOp(tx, OnMain(call), InputOp(tx, i)) && HasTxOp(CallTxs(call), OnMain(call), InputOp(tx, i));
      CallTxOps(db, call, InputOp(tx, i));
    }
    forall i | 0 <= i < |t.tx.output| ensures Put(OutputKey(t, i), Output(t.tx.output[i])) in CallOps(db, call) {
      assert IsTxOp(tx, OnMain(call), OutputOp(tx, i)) && HasTxOp(CallTxs(call), OnMain(call), OutputOp(tx, i));
      CallTxOps(db, call, OutputOp(tx, i));
    }
  }

  lemma DisciplineConcat(db: Db, a: seq<WriteOp>, b: seq<WriteOp>)
    requires TxDiscipline(db, a) && TxDiscipline(db, b)
    ensures TxDiscipline(db, a + b)
  {
    var ops := a + b;
    forall t, v | Put(TxKey(t), v) in ops ensures MetaFor(t, v) && (PartsWritten(ops, t) || TxKey(t) in db) {
      if Put(TxKey(t), v) in a {
        assert PartsWritten(a, t) ==> PartsWritten(ops, t);
      } else {
        assert PartsWritten(b, t) ==> PartsWritten(ops, t);
      }
    }
  }

  lemma {:induction false} BatchDiscipline(db: Db, calls: seq<Call>)
    requires TxInv(db)
    ensures TxDiscipline(db, BatchOps(db, calls))
  {
    if calls == [] {
    } else {
      BatchDiscipline(db, calls[..|calls| - 1]);
      CallDiscipline(db, calls[|calls| - 1]);
      DisciplineConcat(db, BatchOps(db, calls[..|calls| - 1]), CallOps(db, calls[|calls| - 1]));
    }
  }

  /** In every reachable store each stored transaction can be put back together. */
  lemma {:induction false} RunTxInv(run: Run)
    ensures TxInv(After(map[], run))
  {
    if run == [] {
    } else {
      var before := After(map[], run[..|run| - 1]);
      RunTxInv(run[..|run| - 1]);
      BatchDiscipline(before, run[|run| - 1]);
      TxInvCommit(before, BatchOps(before, run[|run| - 1]));
    }
  }
}
