/** The candidate index over batches and runs: every slot is its last write, the top rises one by one. */
module Candidates {
  import opened Primitives
  import opened Types
  import opened Database
  import opened TransactionStore
  import opened ShareStore
  import opened Organise
  import opened Runs

  /** The last call that makes a block the candidate at `h`. */
  function LastCandidate(calls: seq<Call>, h: nat): Option<BlockHash> {
    if calls == [] then None
    else
      var c := calls[|calls| - 1];
      if c.MakeCandidateCall? && c.height == h then Some(c.hash) else LastCandidate(calls[..|calls| - 1], h)
  }

  /** The top a batch leaves: the last height that is the first of all, or one above the top the batch found. */
  function TopAfter(top: Option<nat>, calls: seq<Call>): Option<nat> {
    if calls == [] then top
    else
      var c := calls[|calls| - 1];
      if c.MakeCandidateCall? && (top.None? || c.height == top.value + 1) then Some(c.height)
      else TopAfter(top, calls[..|calls| - 1])
  }

  predicate IsCandidateKey(key: Key) {
    key.CandidateKey? || key.TopCandidateKey?
  }

  lemma OtherOps(db: Db, call: Call, op: WriteOp)
    requires !call.MakeCandidateCall? && op in CallOps(db, call)
    ensures !IsCandidateKey(op.key)
  {
    match call
    case AddShareCall(share, height, work, confirmTxs) =>
      ShareOpsAre(share, height, work, confirmTxs, op);
      if HasTxOp(share.transactions, confirmTxs, op) {
        TxOpKind(share.transactions, confirmTxs, op);
      } else {
        ShareOpKind(share, height, work, op);
      }
    case AddTxsCall(txs, onMainChain) =>
      TxsOpsAre(txs, onMainChain, op);
      TxOpKind(txs, onMainChain, op);
    case _ =>
  }

  /** Only `make_candidate` writes to the candidate index. */
  lemma OthersWriteNone(db: Db, call: Call, key: Key)
    requires IsCandidateKey(key) && !call.MakeCandidateCall?
    ensures LastPut(CallOps(db, call), key) == None
  {
    var ops := CallOps(db, call);
    LastPutFacts(ops, key);
    if LastPut(ops, key).Some? {
      OtherOps(db, call, Put(key, LastPut(ops, key).value));
      assert false;
    }
  }

  lemma CandidateOpsPut(db: Db, hash: BlockHash, height: nat, h: nat)
    ensures var ops, top := CandidateOps(db, hash, height), GetTopCandidateHeight(db);
            && LastPut(ops, CandidateKey(h)) == (if h == height then Some(OneHash(hash)) else None)
            && LastPut(ops, TopCandidateKey)
               == (if top.None? || height == top.value + 1 then Some(Height(height)) else None)
  {
    var first := [Put(CandidateKey(height), OneHash(hash))];
    var rest := if NextAfter(GetTopCandidateHeight(db), height) then [Put(TopCandidateKey, Height(height))] else [];
    LastPutConcat(first, rest, CandidateKey(h));
    LastPutConcat(first, rest, TopCandidateKey);
    LastOfOne(first[0], CandidateKey(h));
    LastOfOne(first[0], TopCandidateKey);
    if rest != [] {
      LastOfOne(rest[0], CandidateKey(h));
      LastOfOne(rest[0], TopCandidateKey);
    }
  }

  lemma LastOfOne(op: WriteOp, key: Key)
    requires op.Put?
    ensures LastPut([op], key) == if op.key == key then Some(op.value) else None
  {
    assert [op][..0] == [];
  }

  lemma {:induction false} BatchCandidates(db: Db, calls: seq<Call>, h: nat)
    ensures LastPut(BatchOps(db, calls), CandidateKey(h)) ==
              if LastCandidate(calls, h).Some? then Some(OneHash(LastCandidate(calls, h).value)) else None
  {
    if calls == [] {
    } else {
      var init, last := calls[..|calls| - 1], calls[|calls| - 1];
      BatchCandidates(db, init, h);
      LastPutConcat(BatchOps(db, init), CallOps(db, last), CandidateKey(h));
      if last.MakeCandidateCall? {
        CandidateOpsPut(db, last.hash, last.height, h);
      } else {
        OthersWriteNone(db, last, CandidateKey(h));
      }
    }
  }

  lemma {:induction false} BatchTop(db: Db, calls: seq<Call>)
    ensures var put, top := LastPut(BatchOps(db, calls), TopCandidateKey), GetTopCandidateHeight(db);
            if put.Some? then put.value.Height? && TopAfter(top, calls) == Some(put.value.height)
            else TopAfter(top, calls) == top
  {
    if calls == [] {
    } else {
      var init, last := calls[..|calls| - 1], calls[|calls| - 1];
      BatchTop(db, init);
      LastPutConcat(BatchOps(db, init), CallOps(db, last), TopCandidateKey);
      if last.MakeCandidateCall? {
        CandidateOpsPut(db, last.hash, last.height, 0);
      } else {
        OthersWriteNone(db, last, TopCandidateKey);
      }
    }
  }

  /** What a batch does to the candidate index, whatever calls it groups. */
  lemma BatchEffect(db: Db, calls: seq<Call>, h: nat)
    ensures GetCandidateAtHeight(Commit(db, BatchOps(db, calls)), h) ==
              if LastCandidate(calls, h).Some? then LastCandidate(calls, h) else GetCandidateAtHeight(db, h)
    ensures GetTopCandidateHeight(Commit(db, BatchOps(db, calls))) == TopAfter(GetTopCandidateHeight(db), calls)
  {
    BatchCandidates(db, calls, h);
    BatchTop(db, calls);
    BatchOpsKinded(db, calls);
    KindedPutOnly(BatchOps(db, calls));
    CommitPut(db, BatchOps(db, calls), CandidateKey(h));
    CommitPut(db, BatchOps(db, calls), TopCandidateKey);
  }

  lemma {:induction false} LastCandidateConcat(a: seq<Call>, b: seq<Call>, h: nat)
    ensures LastCandidate(a + b, h) == if LastCandidate(b, h).Some? then LastCandidate(b, h) else LastCandidate(a, h)
  {
    if b == [] {
      assert a + b == a;
    } else {
      assert (a + b)[..|a + b| - 1] == a + b[..|b| - 1];
      LastCandidateConcat(a, b[..|b| - 1], h);
    }
  }

  /** After every run a candidate slot holds the block of the last call for it. */
  lemma {:induction false} CandidateIsLast(run: Run, h: nat)
    ensures GetCandidateAtHeight(After(map[], run), h) == LastCandidate(Calls(run), h)
  {
    if run == [] {
    } else {
      var init, last := run[..|run| - 1], run[|run| - 1];
      CandidateIsLast(init, h);
      BatchEffect(After(map[], init), last, h);
      LastCandidateConcat(Calls(init), last, h);
    }
  }

  /** Some call is to make a candidate at `h`. */
  ghost predicate AsksFor(calls: seq<Call>, h: nat) {
    exists c :: c in calls && c.MakeCandidateCall? && c.height == h
  }

  lemma {:induction false} LastCandidateIff(calls: seq<Call>, h: nat)
    ensures LastCandidate(calls, h).Some? <==> AsksFor(calls, h)
  {
    if calls == [] {
    } else {
      var init, last := calls[..|calls| - 1], calls[|calls| - 1];
      LastCandidateIff(init, h);
      assert calls == init + [last];
    }
  }

  lemma {:induction false} TopAfterNext(top: nat, calls: seq<Call>)
    ensures TopAfter(Some(top), calls) == Some(if LastCandidate(calls, top + 1).Some? then top + 1 else top)
  {
    if calls == [] {
    } else {
      TopAfterNext(top, calls[..|calls| - 1]);
    }
  }

  lemma {:induction false} TopAfterFirst(calls: seq<Call>)
    ensures var next := TopAfter(None, calls);
            && (next.Some? ==> LastCandidate(calls, next.value).Some?)
            && (next.Some? <==> exists c :: c in calls && c.MakeCandidateCall?)
  {
    if calls == [] {
    } else {
      var init, last := calls[..|calls| - 1], calls[|calls| - 1];
      TopAfterFirst(init);
      assert calls == init + [last];
    }
  }

  /**
    Once there is a top, a batch raises it by one exactly when one of its calls is for the height above it, and
    otherwise leaves it.
   */
  lemma TopRisesIff(db: Db, calls: seq<Call>, top: nat)
    requires GetTopCandidateHeight(db) == Some(top)
    ensures GetTopCandidateHeight(Commit(db, BatchOps(db, calls)))
         == Some(if AsksFor(calls, top + 1) then top + 1 else top)
  {
    BatchEffect(db, calls, 0);
    TopAfterNext(top, calls);
    LastCandidateIff(calls, top + 1);
  }

  lemma TopStep(top: Option<nat>, calls: seq<Call>)
    ensures var next := TopAfter(top, calls);
            && (next.Some? ==> next == top || LastCandidate(calls, next.value).Some?)
            && (next.Some? <==> top.Some? || exists c :: c in calls && c.MakeCandidateCall?)
  {
    if top.Some? {
      TopAfterNext(top.value, calls);
    } else {
      TopAfterFirst(calls);
    }
  }

  /** After every run there is a top exactly when some call made a candidate, and its slot is taken. */
  lemma {:induction false} TopHasCandidate(run: Run)
    ensures var db := After(map[], run);
            var top := GetTopCandidateHeight(db);
            && (top.Some? <==> exists c :: c in Calls(run) && c.MakeCandidateCall?)
            && (top.Some? ==> GetCandidateAtHeight(db, top.value).Some?)
  {
    if run == [] {
    } else {
      var init, last := run[..|run| - 1], run[|run| - 1];
      var before := After(map[], init);
      TopHasCandidate(init);
      TopStep(GetTopCandidateHeight(before), last);
      BatchEffect(before, last, 0);
      var top := GetTopCandidateHeight(After(map[], run));
      if top.Some? {
        BatchEffect(before, last, top.value);
      }
      assert Calls(run) == Calls(init) + last;
    }
  }
}
