/** Transactions, shares and spends after every run. */
module TxTheorems {
  import opened Primitives
  import opened Types
  import opened Database
  import opened TransactionStore
  import opened ShareStore
  import opened Runs
  import opened IndexTheorems

  // ----- which transactions are stored -----

  ghost predicate Stores(calls: seq<Call>, t: Txid) {
    exists c, tx :: c in calls && tx in CallTxs(c) && ComputeTxid(tx) == t
  }

  lemma CallStores(db: Db, call: Call, tx: Transaction)
    requires tx in CallTxs(call)
    ensures Put(TxKey(ComputeTxid(tx)), TxMeta(MetadataOf(tx, false))) in CallOps(db, call)
  {
    var op := Put(TxKey(ComputeTxid(tx)), TxMeta(MetadataOf(tx, false)));
    assert IsTxOp(tx, OnMain(call), op) && HasTxOp(CallTxs(call), OnMain(call), op);
    CallTxOps(db, call, op);
  }

  lemma {:induction false} BatchStores(db: Db, calls: seq<Call>, t: Txid)
    ensures Stores(calls, t) ==> LastPut(BatchOps(db, calls), TxKey(t)).Some?
    ensures LastPut(BatchOps(db, calls), TxKey(t)).Some? ==> Stores(calls, t) || TxKey(t) in db
  {
    if calls == [] {
    } else {
      var init, last := calls[..|calls| - 1], calls[|calls| - 1];
      assert calls == init + [last];
      BatchStores(db, init, t);
      LastPutConcat(BatchOps(db, init), CallOps(db, last), TxKey(t));
      CallStoresLast(db, last, t);
      StoresPush(init, last, t);
    }
  }

  lemma CallStoresLast(db: Db, call: Call, t: Txid)
    ensures HasTx(CallTxs(call), t) ==> LastPut(CallOps(db, call), TxKey(t)).Some?
    ensures LastPut(CallOps(db, call), TxKey(t)).Some? ==> HasTx(CallTxs(call), t) || TxKey(t) in db
  {
    var ops := CallOps(db, call);
    LastPutFacts(ops, TxKey(t));
    if tx :| tx in CallTxs(call) && ComputeTxid(tx) == t {
      CallStores(db, call, tx);
    }
    if LastPut(ops, TxKey(t)).Some? {
      CallTxKeyPut(db, call, t, LastPut(ops, TxKey(t)).value);
    }
  }

  lemma StoresPush(calls: seq<Call>, last: Call, t: Txid)
    ensures Stores(calls + [last], t) <==> Stores(calls, t) || HasTx(CallTxs(last), t)
  {
    StoresConcat(calls, [last], t);
    assert [last][0] == last;
  }

  /** After any run a transaction has a record exactly when some call stored it. */
  lemma {:induction false} StoredIff(run: Run, t: Txid)
    ensures TxKey(t) in After(map[], run) <==> Stores(Calls(run), t)
  {
    if run == [] {
    } else {
      var init, last := run[..|run| - 1], run[|run| - 1];
      var before := After(map[], init);
      StoredIff(init, t);
      BatchStores(before, last, t);
      BatchOpsKinded(before, last);
      CommitPut(before, BatchOps(before, last), TxKey(t));
      StoresConcat(Calls(init), last, t);
    }
  }

  lemma StoresConcat(a: seq<Call>, b: seq<Call>, t: Txid)
    ensures Stores(a + b, t) <==> Stores(a, t) || Stores(b, t)
  {
  }

  /**
    After any run `get_tx` finds exactly the transactions some call stored, and returns what was stored
    without witnesses, whole whenever the counts fit 32 bits.
   */
  lemma RunGetTx(run: Run, tx: Transaction)
    ensures GetTx(After(map[], run), ComputeTxid(tx)).Found? <==> Stores(Calls(run), ComputeTxid(tx))
    ensures !GetTx(After(map[], run), ComputeTxid(tx)).Panicked?
    ensures Stores(Calls(run), ComputeTxid(tx)) && |tx.input| < U32 && |tx.output| < U32 ==>
              GetTx(After(map[], run), ComputeTxid(tx)) == Found(Strip(tx))
  {
    RunTxInv(run);
    StoredIff(run, ComputeTxid(tx));
    GetTxNeverPanics(After(map[], run), ComputeTxid(tx));
    if Stores(Calls(run), ComputeTxid(tx)) {
      GetTxRoundTrip(After(map[], run), tx);
    }
  }

  // ----- shares -----

  lemma {:induction false} StoredOnlyAll(db: Db, txs: seq<Transaction>)
    requires forall tx :: tx in txs ==> TxKey(ComputeTxid(tx)) in db
    ensures StoredOnly(db, txs) == txs
  {
    if txs == [] {
    } else {
      var init, last := txs[..|txs| - 1], txs[|txs| - 1];
      assert txs == init + [last];
      StoredOnlyAll(db, init);
    }
  }

  /** What can be read back of a share: no witnesses, and of the bitcoin transactions only those with a record. */
  function AsRead(db: Db, share: ShareBlock): ShareBlock {
    ShareBlock(share.header, StripAll(share.transactions), StripAll(StoredOnly(db, share.bitcoinTransactions)))
  }

  /**
    `get_share` returns the header and all share-chain transactions of the last addition, and of the bitcoin
    transactions exactly those that were also stored as share-chain transactions by some call.
   */
  lemma RunGetShare(run: Run, b: BlockHash)
    requires LastAdd(Calls(run), b).Some? ==>
               var c := LastAdd(Calls(run), b).value;
               c.AddShareCall? ==> CountsFit(c.share.transactions) && CountsFit(c.share.bitcoinTransactions)
    ensures var db, last := After(map[], run), LastAdd(Calls(run), b);
            && (last.None? ==> GetShare(db, b) == None)
            && (last.Some? ==> last.value.AddShareCall? && GetShare(db, b) == Some(AsRead(db, last.value.share)))
  {
    var db, last := After(map[], run), LastAdd(Calls(run), b);
    LastAddFacts(Calls(run), b);
    RunRecord(run, BlockKey(b));
    RunRecord(run, BlockTxidsKey(b));
    RunRecord(run, BitcoinTxidsKey(b));
    if last.Some? {
      var share := last.value.share;
      RunTxInv(run);
      GetTxsStored(db, share.transactions);
      GetTxsStored(db, share.bitcoinTransactions);
      forall tx | tx in share.transactions ensures TxKey(ComputeTxid(tx)) in db {
        assert tx in CallTxs(last.value);
        StoredIff(run, ComputeTxid(tx));
      }
      StoredOnlyAll(db, share.transactions);
    }
  }

  // ----- spends -----

  /** One main-chain write of the spends index: output `spent` is spent by input `index` of `tx`. */
  datatype SpendWrite = SpendWrite(spent: OutPoint, tx: Transaction, index: nat)

  function TxSpends(tx: Transaction, n: nat): seq<SpendWrite>
    requires n <= |tx.input|
  {
    if n == 0 then [] else TxSpends(tx, n - 1) + [SpendWrite(tx.input[n - 1].previousOutput, tx, n - 1)]
  }

  function TxsSpends(txs: seq<Transaction>): seq<SpendWrite> {
    if txs == [] then [] else TxsSpends(txs[..|txs| - 1]) + TxSpends(txs[|txs| - 1], |txs[|txs| - 1].input|)
  }

  /** All main-chain spends of a list of calls, in the order they were written. */
  function SpendWrites(calls: seq<Call>): seq<SpendWrite> {
    if calls == [] then []
    else
      var last := calls[|calls| - 1];
      SpendWrites(calls[..|calls| - 1]) + (if OnMain(last) then TxsSpends(CallTxs(last)) else [])
  }

  /** The last main-chain input that spends `o`. */
  function LastSpend(writes: seq<SpendWrite>, o: OutPoint): Option<OutPoint> {
    if writes == [] then None
    else
      var w := writes[|writes| - 1];
      if w.spent == o then Some(OutPoint(ComputeTxid(w.tx), w.index % U32)) else LastSpend(writes[..|writes| - 1], o)
  }

  lemma {:induction false} LastSpendConcat(a: seq<SpendWrite>, b: seq<SpendWrite>, o: OutPoint)
    ensures LastSpend(a + b, o) == if LastSpend(b, o).Some? then LastSpend(b, o) else LastSpend(a, o)
  {
    if b == [] {
      assert a + b == a;
    } else {
      assert (a + b)[..|a + b| - 1] == a + b[..|b| - 1];
      LastSpendConcat(a, b[..|b| - 1], o);
    }
  }

  function SpendValue(r: Option<OutPoint>): Option<Value> {
    if r.Some? then Some(Spend(r.value)) else None
  }

  lemma {:induction false} InputSpends(tx: Transaction, n: nat, onMain: bool, o: OutPoint)
    requires n <= |tx.input|
    ensures LastPut(InputOps(tx, n, onMain), SpendKey(o)) == if onMain
            then SpendValue(LastSpend(TxSpends(tx, n), o)) else None
  {
    if n == 0 {
    } else {
      InputSpends(tx, n - 1, onMain, o);
      LastInputSpends(tx, n - 1, onMain, o);
      LastSpendOf(tx, n - 1, o);
    }
  }

  /** What input `i` contributes. */
  function OneSpend(tx: Transaction, i: nat, o: OutPoint): Option<OutPoint>
    requires i < |tx.input|
  {
    if tx.input[i].previousOutput == o then Some(OutPoint(ComputeTxid(tx), i % U32)) else None
  }

  lemma LastSpendOf(tx: Transaction, i: nat, o: OutPoint)
    requires i < |tx.input|
    ensures LastSpend(TxSpends(tx, i + 1), o) == if OneSpend(tx, i, o).Some? then OneSpend(tx, i, o)
            else LastSpend(TxSpends(tx, i), o)
  {
    var w := SpendWrite(tx.input[i].previousOutput, tx, i);
    assert (TxSpends(tx, i) + [w])[..|TxSpends(tx, i) + [w]| - 1] == TxSpends(tx, i);
  }

  lemma LastInputSpends(tx: Transaction, i: nat, onMain: bool, o: OutPoint)
    requires i < |tx.input|
    ensures LastPut(InputOps(tx, i + 1, onMain), SpendKey(o))
         == if onMain && OneSpend(tx, i, o).Some? then SpendValue(OneSpend(tx, i, o))
            else LastPut(InputOps(tx, i, onMain), SpendKey(o))
  {
    var init, rest := InputOps(tx, i, onMain), OneInput(tx, i, onMain);
    assert InputOps(tx, i + 1, onMain) == init + rest;
    LastPutConcat(init, rest, SpendKey(o));
    OneInputSpends(tx, i, onMain, o);
  }

  function OneInput(tx: Transaction, i: nat, onMain: bool): seq<WriteOp>
    requires i < |tx.input|
  {
    [InputOp(tx, i)] + (if onMain then [SpendOp(tx, i)] else [])
  }

  lemma OneInputSpends(tx: Transaction, i: nat, onMain: bool, o: OutPoint)
    requires i < |tx.input|
    ensures LastPut(OneInput(tx, i, onMain), SpendKey(o)) == if onMain then SpendValue(OneSpend(tx, i, o)) else None
  {
    LastPutConcat([InputOp(tx, i)], if onMain then [SpendOp(tx, i)] else [], SpendKey(o));
  }

  lemma TxSpendsPut(tx: Transaction, onMain: bool, o: OutPoint)
    ensures LastPut(TxOps(tx, onMain), SpendKey(o)) == if onMain
            then SpendValue(LastSpend(TxSpends(tx, |tx.input|), o)) else None
  {
    var meta := [Put(TxKey(ComputeTxid(tx)), TxMeta(MetadataOf(tx, false)))];
    var ins, outs := InputOps(tx, |tx.input|, onMain), OutputOps(tx, |tx.output|);
    LastPutConcat(meta + ins, outs, SpendKey(o));
    LastPutConcat(meta, ins, SpendKey(o));
    InputSpends(tx, |tx.input|, onMain, o);
    LastPutFacts(outs, SpendKey(o));
    if LastPut(outs, SpendKey(o)).Some? {
      OutputOpsAre(tx, |tx.output|, Put(SpendKey(o), LastPut(outs, SpendKey(o)).value));
    }
  }

  lemma {:induction false} TxsSpendsPut(txs: seq<Transaction>, onMain: bool, o: OutPoint)
    ensures LastPut(TxsOps(txs, onMain), SpendKey(o)) == if onMain then SpendValue(LastSpend(TxsSpends(txs), o))
            else None
  {
    if txs == [] {
    } else {
      var init, last := txs[..|txs| - 1], txs[|txs| - 1];
      TxsSpendsPut(init, onMain, o);
      TxSpendsPut(last, onMain, o);
      LastPutConcat(TxsOps(init, onMain), TxOps(last, onMain), SpendKey(o));
      LastSpendConcat(TxsSpends(init), TxSpends(last, |last.input|), o);
    }
  }

  lemma CallSpends(call: Call, o: OutPoint)
    ensures CallPut(call, SpendKey(o)) == if OnMain(call) then SpendValue(LastSpend(TxsSpends(CallTxs(call)), o))
            else None
  {
    match call
    case AddShareCall(share, height, work, confirmTxs) =>
      TxsSpendsPut(share.transactions, confirmTxs, o);
      var txs, index, record := TxsOps(share.transactions, confirmTxs), IndexOps(share), RecordOps(share, height, work);
      LastPutConcat(txs + index, record, SpendKey(o));
      LastPutConcat(txs, index, SpendKey(o));
      LastPutFacts(index, SpendKey(o));
      if LastPut(index, SpendKey(o)).Some? {
        IndexOpsAre(share, Put(SpendKey(o), LastPut(index, SpendKey(o)).value));
      }
      LastPutFacts(record, SpendKey(o));
    case AddTxsCall(txs, onMainChain) =>
      TxsSpendsPut(txs, onMainChain, o);
    case _ =>
      LastPutFacts(CallOps(map[], call), SpendKey(o));
  }

  lemma {:induction false} RunPutSpends(calls: seq<Call>, o: OutPoint)
    ensures RunPut(calls, SpendKey(o)) == SpendValue(LastSpend(SpendWrites(calls), o))
  {
    if calls == [] {
    } else {
      var init, last := calls[..|calls| - 1], calls[|calls| - 1];
      RunPutSpends(init, o);
      CallSpends(last, o);
      LastSpendConcat(SpendWrites(init), if OnMain(last) then TxsSpends(CallTxs(last)) else [], o);
    }
  }

  /** After any run, reorganisations included, `is_spent` is the last main-chain input that spent the output. */
  lemma SpentIsLastWrite(run: Run, o: OutPoint)
    ensures IsSpent(After(map[], run), o) == LastSpend(SpendWrites(Calls(run)), o)
  {
    RunValue(run, SpendKey(o));
    RunPutSpends(Calls(run), o);
  }

  lemma {:induction false} TxSpendsMembers(tx: Transaction, n: nat, w: SpendWrite)
    requires n <= |tx.input|
    ensures w in TxSpends(tx, n) <==> w.tx == tx && w.index < n && w.spent == tx.input[w.index].previousOutput
  {
    if n == 0 {
    } else {
      TxSpendsMembers(tx, n - 1, w);
    }
  }

  lemma {:induction false} TxsSpendsMembers(txs: seq<Transaction>, w: SpendWrite)
    ensures w in TxsSpends(txs) <==>
            w.tx in txs && w.index < |w.tx.input| && w.spent == w.tx.input[w.index].previousOutput
  {
    if txs == [] {
    } else {
      var init, last := txs[..|txs| - 1], txs[|txs| - 1];
      assert txs == init + [last];
      TxsSpendsMembers(init, w);
      TxSpendsMembers(last, |last.input|, w);
    }
  }

  /** `w` records input `w.index` of a transaction that some main-chain call stored. */
  ghost predicate MainSpend(calls: seq<Call>, w: SpendWrite) {
    && w.index < |w.tx.input| && w.spent == w.tx.input[w.index].previousOutput
    && exists c :: c in calls && OnMain(c) && w.tx in CallTxs(c)
  }

  lemma {:induction false} SpendWritesMembers(calls: seq<Call>, w: SpendWrite)
    ensures w in SpendWrites(calls) <==> MainSpend(calls, w)
  {
    if calls == [] {
    } else {
      var init, last := calls[..|calls| - 1], calls[|calls| - 1];
      assert calls == init + [last];
      SpendWritesMembers(init, w);
      TxsSpendsMembers(CallTxs(last), w);
      assert last in calls;
    }
  }

  lemma {:induction false} LastSpendFacts(writes: seq<SpendWrite>, o: OutPoint)
    ensures LastSpend(writes, o).None? <==> forall w :: w in writes ==> w.spent != o
    ensures LastSpend(writes, o).Some? ==>
              exists w :: w in writes && w.spent == o && LastSpend(writes, o).value
                  == OutPoint(ComputeTxid(w.tx), w.index % U32)
  {
    if writes == [] {
    } else {
      LastSpendFacts(writes[..|writes| - 1], o);
      assert writes == writes[..|writes| - 1] + [writes[|writes| - 1]];
      assert writes[|writes| - 1] in writes;
    }
  }

  /**
    A spends entry names a stored transaction and its input that spends the output; none means nobody ever spent
    it.
   */
  lemma SpentSound(run: Run, o: OutPoint)
    ensures IsSpent(After(map[], run), o).None? <==> forall w :: MainSpend(Calls(run), w) ==> w.spent != o
    ensures IsSpent(After(map[], run), o).Some? ==>
              exists w :: MainSpend(Calls(run), w) && w.spent == o
                          && IsSpent(After(map[], run), o).value == OutPoint(ComputeTxid(w.tx), w.index % U32)
                          && TxKey(ComputeTxid(w.tx)) in After(map[], run)
  {
    SpentIsLastWrite(run, o);
    var writes := SpendWrites(Calls(run));
    LastSpendFacts(writes, o);
    forall w ensures w in writes <==> MainSpend(Calls(run), w) {
      SpendWritesMembers(Calls(run), w);
    }
    if LastSpend(writes, o).Some? {
      var w :| w in writes && w.spent == o && LastSpend(writes, o).value == OutPoint(ComputeTxid(w.tx), w.index % U32);
      assert MainSpend(Calls(run), w);
      StoredIff(run, ComputeTxid(w.tx));
    }
  }
}
