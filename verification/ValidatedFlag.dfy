/** The validated flag of a stored transaction, over batches and runs. */
module ValidatedFlag {
  import opened Primitives
  import opened Types
  import opened Database
  import opened TransactionStore
  import opened Runs
  import opened TxTheorems

  predicate Validated(db: Db, t: Txid) {
    TxKey(t) in db && db[TxKey(t)].TxMeta? && db[TxKey(t)].tx.validated
  }

  // ----- one call -----

  /** What a call does to the flag: `Some(true)` sets it, `Some(false)` clears it. Marking needs a stored record. */
  ghost function Touch(stored: bool, call: Call, t: Txid): Option<bool> {
    if HasTx(CallTxs(call), t) then Some(false)
    else if call == MarkValidCall(t) && stored then Some(true)
    else None
  }

  predicate HasRecord(db: Db, t: Txid) {
    TxKey(t) in db && db[TxKey(t)].TxMeta?
  }

  lemma CallFlag(db: Db, call: Call, t: Txid, v: Value)
    requires Put(TxKey(t), v) in CallOps(db, call)
    ensures v.TxMeta? && Touch(HasRecord(db, t), call, t) == Some(v.tx.validated)
  {
    CallTxKeyPut(db, call, t, v);
  }

  lemma TouchPuts(db: Db, call: Call, t: Txid) returns (v: Value)
    requires Touch(HasRecord(db, t), call, t).Some?
    ensures Put(TxKey(t), v) in CallOps(db, call)
  {
    if HasTx(CallTxs(call), t) {
      var tx :| tx in CallTxs(call) && ComputeTxid(tx) == t;
      CallStores(db, call, tx);
      v := TxMeta(MetadataOf(tx, false));
    } else {
      v := TxMeta(db[TxKey(t)].tx.(validated := true));
      assert CallOps(db, call) == [Put(TxKey(t), v)];
    }
  }

  /** `put` is what a list of operations with effect `touch` on the flag leaves under the record key. */
  predicate Carries(put: Option<Value>, touch: Option<bool>) {
    match touch
    case None => put.None?
    case Some(flag) => put.Some? && put.value.TxMeta? && put.value.tx.validated == flag
  }

  lemma CallCarries(db: Db, call: Call, t: Txid)
    ensures Carries(LastPut(CallOps(db, call), TxKey(t)), Touch(HasRecord(db, t), call, t))
  {
    var ops := CallOps(db, call);
    LastPutFacts(ops, TxKey(t));
    if LastPut(ops, TxKey(t)).Some? {
      CallFlag(db, call, t, LastPut(ops, TxKey(t)).value);
    } else if Touch(HasRecord(db, t), call, t).Some? {
      var v := TouchPuts(db, call, t);
    }
  }

  // ----- a batch -----

  /** The last effect among the calls of a batch, which all read the record as it was before the batch. */
  ghost function LastTouch(stored: bool, calls: seq<Call>, t: Txid): Option<bool> {
    if calls == [] then None
    else
      var last := Touch(stored, calls[|calls| - 1], t);
      if last.Some? then last else LastTouch(stored, calls[..|calls| - 1], t)
  }

  lemma {:induction false} BatchCarries(db: Db, calls: seq<Call>, t: Txid)
    ensures Carries(LastPut(BatchOps(db, calls), TxKey(t)), LastTouch(HasRecord(db, t), calls, t))
  {
    if calls == [] {
    } else {
      var init, last := calls[..|calls| - 1], calls[|calls| - 1];
      BatchCarries(db, init, t);
      CallCarries(db, last, t);
      LastPutConcat(BatchOps(db, init), CallOps(db, last), TxKey(t));
    }
  }

  /** After a batch the flag is set exactly when its last effect set it, or it had none and the flag was set before. */
  lemma BatchValidatedIff(db: Db, calls: seq<Call>, t: Txid)
    ensures Validated(Commit(db, BatchOps(db, calls)), t) <==>
            match LastTouch(HasRecord(db, t), calls, t)
            case Some(flag) => flag
            case None => Validated(db, t)
  {
    BatchOpsKinded(db, calls);
    KindedPutOnly(BatchOps(db, calls));
    CommitPut(db, BatchOps(db, calls), TxKey(t));
    BatchCarries(db, calls, t);
  }

  // ----- runs -----

  /** The flag from the calls alone: the last batch that has an effect decides. */
  ghost predicate Flag(run: Run, t: Txid) {
    if run == [] then false
    else
      var init := run[..|run| - 1];
      match LastTouch(Stores(Calls(init), t), run[|run| - 1], t)
      case Some(flag) => flag
      case None => Flag(init, t)
  }

  lemma RecordIffStored(run: Run, t: Txid)
    ensures HasRecord(After(map[], run), t) <==> Stores(Calls(run), t)
  {
    StoredIff(run, t);
    RunTxInv(run);
  }

  /** After every run a transaction is valid exactly when the last batch with an effect on it last marked it. */
  lemma {:induction false} RunValidatedIff(run: Run, t: Txid)
    ensures Validated(After(map[], run), t) <==> Flag(run, t)
  {
    if run == [] {
    } else {
      var init, last := run[..|run| - 1], run[|run| - 1];
      RunValidatedIff(init, t);
      RecordIffStored(init, t);
      BatchValidatedIff(After(map[], init), last, t);
    }
  }

  /** The last batch with an effect on a stored transaction last marks it; true if there is none. */
  ghost predicate KeepsFlag(future: Run, t: Txid) {
    if future == [] then true
    else
      match LastTouch(true, future[|future| - 1], t)
      case Some(flag) => flag
      case None => KeepsFlag(future[..|future| - 1], t)
  }

  /**
    The source documents that a valid transaction is never made invalid again. It is still valid after any later
    batches exactly when the last of them that stores or marks it does so last by marking.
   */
  lemma {:induction false} ValidatedKeptIff(past: Run, future: Run, t: Txid)
    requires Validated(After(map[], past), t)
    ensures HasRecord(After(map[], past + future), t)
    ensures Validated(After(map[], past + future), t) <==> KeepsFlag(future, t)
  {
    if future == [] {
      assert past + future == past;
    } else {
      var init, last := future[..|future| - 1], future[|future| - 1];
      assert past + future == (past + init) + [last];
      ValidatedKeptIff(past, init, t);
      AfterPush(map[], past + init, last);
      BatchValidatedIff(After(map[], past + init), last, t);
      RecordStays(past + init, last, t);
    }
  }

  lemma RecordStays(run: Run, calls: seq<Call>, t: Txid)
    requires HasRecord(After(map[], run), t)
    ensures HasRecord(After(map[], run + [calls]), t)
  {
    RecordIffStored(run, t);
    RecordIffStored(run + [calls], t);
    assert (run + [calls])[..|run + [calls]| - 1] == run;
    StoresConcat(Calls(run), calls, t);
  }

  // ----- the promise broken -----

  /** Store, mark, store again: valid after the second batch, and no longer after the third. */
  lemma FlagIsLost(tx: Transaction, onMain: bool)
    ensures var store, t := AddTxsCall([tx], onMain), ComputeTxid(tx);
            && Validated(After(map[], [[store], [MarkValidCall(t)]]), t)
            && !Validated(After(map[], [[store], [MarkValidCall(t)], [store]]), t)
  {
    var store, t := AddTxsCall([tx], onMain), ComputeTxid(tx);
    var once, marked: Run := [[store]], [[store], [MarkValidCall(t)]];
    assert [tx][0] == tx && HasTx(CallTxs(store), t);
    assert Calls(once) == [store] by {
      assert once[..0] == [];
    }
    assert store in Calls(once) && Stores(Calls(once), t);
    assert marked[..1] == once;
    SoleTouch(true, MarkValidCall(t), t);
    RunValidatedIff(marked, t);
    var again: Run := [[store]];
    SoleTouch(true, store, t);
    assert again[..0] == [];
    ValidatedKeptIff(marked, again, t);
    assert marked + again == [[store], [MarkValidCall(t)], [store]];
  }

  lemma SoleTouch(stored: bool, call: Call, t: Txid)
    ensures LastTouch(stored, [call], t) == Touch(stored, call, t)
  {
    var none: seq<Call> := [];
    assert [call][..0] == none;
  }
}
