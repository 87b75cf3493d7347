/** The confirmed index over runs: gap free, append only, one slot a batch. */
module Confirmations {
  import opened Primitives
  import opened Types
  import opened Database
  import opened TransactionStore
  import opened ShareStore
  import opened Organise
  import opened Runs
  import opened IndexTheorems

  /** The last call of the batch that asks to confirm a block at `h`. */
  function LastConfirm(calls: seq<Call>, h: nat): Option<BlockHash> {
    if calls == [] then None
    else
      var c := calls[|calls| - 1];
      if c.MakeConfirmedCall? && c.height == h then Some(c.hash) else LastConfirm(calls[..|calls| - 1], h)
  }

  /** The height of the last call that passes the guard set by the committed top. */
  function LastTop(top: Option<nat>, calls: seq<Call>): Option<nat> {
    if calls == [] then None
    else
      var c := calls[|calls| - 1];
      if c.MakeConfirmedCall? && NextAfter(top, c.height) then Some(c.height) else LastTop(top, calls[..|calls| - 1])
  }

  predicate IsConfirmKey(key: Key) {
    key.ConfirmedKey? || key.TopConfirmedKey?
  }

  lemma OtherOps(db: Db, call: Call, op: WriteOp)
    requires !call.MakeConfirmedCall? && op in CallOps(db, call)
    ensures !IsConfirmKey(op.key)
  {
    match call
    case AddShareCall(share, height, work, confirmTxs) =>
      ShareOpsAre(share, height, work, confirmTxs, op);
      if HasTxOp(share.transactions, confirmTxs, op) {
        TxOpKind(share.transactions, confirmTxs, op);
      } else {
        ShareOpKind(share, height, work, op);
      }
    case AddTxsCall(txs, onMainChain) =>
      TxsOpsAre(txs, onMainChain, op);
      TxOpKind(txs, onMainChain, op);
    case _ =>
  }

  /** Only `make_confirmed` writes to the confirmed index. */
  lemma OthersDoNotConfirm(db: Db, call: Call, key: Key)
    requires IsConfirmKey(key) && !call.MakeConfirmedCall?
    ensures LastPut(CallOps(db, call), key) == None
  {
    var ops := CallOps(db, call);
    LastPutFacts(ops, key);
    if LastPut(ops, key).Some? {
      OtherOps(db, call, Put(key, LastPut(ops, key).value));
      assert false;
    }
  }

  lemma ConfirmOpsPut(db: Db, hash: BlockHash, height: nat, h: nat)
    ensures var next := NextAfter(GetTopConfirmedHeight(db), height);
            && LastPut(ConfirmOps(db, hash, height), ConfirmedKey(h))
               == (if next && h == height then Some(OneHash(hash)) else None)
            && LastPut(ConfirmOps(db, hash, height), TopConfirmedKey) == (if next then Some(Height(height)) else None)
  {
    var ops := ConfirmOps(db, hash, height);
    if ops != [] {
      var first := ops[..1];
      assert LastPut(ops, ConfirmedKey(h)) == LastPut(first, ConfirmedKey(h));
      assert first[0] == Put(ConfirmedKey(height), OneHash(hash)) && first[..0] == [];
      assert LastPut(first, ConfirmedKey(h)) == if h == height then Some(OneHash(hash))
             else LastPut([], ConfirmedKey(h));
    }
  }

  lemma {:induction false} BatchConfirms(db: Db, calls: seq<Call>, h: nat)
    ensures LastPut(BatchOps(db, calls), ConfirmedKey(h)) ==
              if NextAfter(GetTopConfirmedHeight(db), h) && LastConfirm(calls, h).Some?
              then Some(OneHash(LastConfirm(calls, h).value)) else None
  {
    if calls == [] {
    } else {
      var init, last := calls[..|calls| - 1], calls[|calls| - 1];
      BatchConfirms(db, init, h);
      LastPutConcat(BatchOps(db, init), CallOps(db, last), ConfirmedKey(h));
      if last.MakeConfirmedCall? {
        ConfirmOpsPut(db, last.hash, last.height, h);
      } else {
        OthersDoNotConfirm(db, last, ConfirmedKey(h));
      }
    }
  }

  lemma {:induction false} BatchTop(db: Db, calls: seq<Call>)
    ensures LastPut(BatchOps(db, calls), TopConfirmedKey) ==
              if LastTop(GetTopConfirmedHeight(db), calls).Some?
              then Some(Height(LastTop(GetTopConfirmedHeight(db), calls).value)) else None
  {
    if calls == [] {
    } else {
      var init, last := calls[..|calls| - 1], calls[|calls| - 1];
      BatchTop(db, init);
      LastPutConcat(BatchOps(db, init), CallOps(db, last), TopConfirmedKey);
      if last.MakeConfirmedCall? {
        ConfirmOpsPut(db, last.hash, last.height, 0);
      } else {
        OthersDoNotConfirm(db, last, TopConfirmedKey);
      }
    }
  }

  function AfterBatch(db: Db, calls: seq<Call>): Db {
    Commit(db, BatchOps(db, calls))
  }

  /** What a batch does to the confirmed index, whatever calls it groups. */
  lemma BatchEffect(db: Db, calls: seq<Call>, h: nat)
    ensures GetConfirmedAtHeight(AfterBatch(db, calls), h) ==
              if NextAfter(GetTopConfirmedHeight(db), h) && LastConfirm(calls, h).Some? then LastConfirm(calls, h)
              else GetConfirmedAtHeight(db, h)
    ensures GetTopConfirmedHeight(AfterBatch(db, calls)) ==
              if LastTop(GetTopConfirmedHeight(db), calls).Some? then LastTop(GetTopConfirmedHeight(db), calls)
              else GetTopConfirmedHeight(db)
  {
    BatchConfirms(db, calls, h);
    BatchTop(db, calls);
    BatchOpsKinded(db, calls);
    KindedPutOnly(BatchOps(db, calls));
    CommitPut(db, BatchOps(db, calls), ConfirmedKey(h));
    CommitPut(db, BatchOps(db, calls), TopConfirmedKey);
  }

  lemma {:induction false} LastTopIsNext(top: nat, calls: seq<Call>)
    ensures LastTop(Some(top), calls) == if LastConfirm(calls, top + 1).Some? then Some(top + 1) else None
  {
    if calls == [] {
    } else {
      LastTopIsNext(top, calls[..|calls| - 1]);
    }
  }

  /** The confirmed slots are exactly the heights from `lo` to the top. */
  ghost predicate GapFree(db: Db, lo: nat, hi: nat) {
    && lo <= hi && GetTopConfirmedHeight(db) == Some(hi)
    && forall h: nat :: GetConfirmedAtHeight(db, h).Some? <==> lo <= h <= hi
  }

  /** `db'` extends `db`: no slot up to `hi` was rewritten. */
  ghost predicate KeepsSlots(db: Db, db': Db, hi: nat) {
    forall h: nat :: h <= hi ==> GetConfirmedAtHeight(db', h) == GetConfirmedAtHeight(db, h)
  }

  /** Once a block is confirmed, a batch writes at most the slot above the top and raises the top by at most one. */
  lemma BatchKeepsGapFree(db: Db, calls: seq<Call>, lo: nat, hi: nat)
    requires GapFree(db, lo, hi)
    ensures var db', next := AfterBatch(db, calls), LastConfirm(calls, hi + 1);
            && KeepsSlots(db, db', hi)
            && GapFree(db', lo, if next.Some? then hi + 1 else hi)
            && (next.Some? ==> GetConfirmedAtHeight(db', hi + 1) == next)
  {
    var db', next := AfterBatch(db, calls), LastConfirm(calls, hi + 1);
    forall h: nat ensures SlotMoves(db, db', hi, next, h) {
      BatchMovesSlot(db, calls, hi, h);
    }
    GapFreeMoves(db, db', lo, hi, next);
  }

  /** Slot `h` and the top after at most slot `hi + 1` was written, with `next`. */
  ghost predicate SlotMoves(db: Db, db': Db, hi: nat, next: Option<BlockHash>, h: nat) {
    && GetConfirmedAtHeight(db', h) == (if h == hi + 1 && next.Some? then next else GetConfirmedAtHeight(db, h))
    && GetTopConfirmedHeight(db') == Some(if next.Some? then hi + 1 else hi)
  }

  lemma BatchMovesSlot(db: Db, calls: seq<Call>, hi: nat, h: nat)
    requires GetTopConfirmedHeight(db) == Some(hi)
    ensures SlotMoves(db, AfterBatch(db, calls), hi, LastConfirm(calls, hi + 1), h)
  {
    LastTopIsNext(hi, calls);
    BatchEffect(db, calls, h);
  }

  lemma GapFreeMoves(db: Db, db': Db, lo: nat, hi: nat, next: Option<BlockHash>)
    requires GapFree(db, lo, hi) && forall h: nat :: SlotMoves(db, db', hi, next, h)
    ensures KeepsSlots(db, db', hi) && GapFree(db', lo, if next.Some? then hi + 1 else hi)
    ensures next.Some? ==> GetConfirmedAtHeight(db', hi + 1) == next
  {
    forall h: nat
      ensures h <= hi ==> GetConfirmedAtHeight(db', h) == GetConfirmedAtHeight(db, h)
      ensures GetConfirmedAtHeight(db', h).Some? <==> lo <= h <= (if next.Some? then hi + 1 else hi)
      ensures h == hi + 1 && next.Some? ==> GetConfirmedAtHeight(db', h) == next
    {
      assert SlotMoves(db, db', hi, next, h);
    }
    assert SlotMoves(db, db', hi, next, 0);
  }

  /** However calls are grouped into batches, every run keeps all earlier slots and the interval without gaps. */
  lemma {:induction false} RunKeepsGapFree(db: Db, run: Run, lo: nat, hi: nat) returns (top: nat)
    requires GapFree(db, lo, hi)
    ensures hi <= top <= hi + |run|
    ensures GapFree(After(db, run), lo, top) && KeepsSlots(db, After(db, run), hi)
  {
    if run == [] {
      top := hi;
    } else {
      var before := After(db, run[..|run| - 1]);
      top := RunKeepsGapFree(db, run[..|run| - 1], lo, hi);
      BatchKeepsGapFree(before, run[|run| - 1], lo, top);
      top := if LastConfirm(run[|run| - 1], top + 1).Some? then top + 1 else top;
    }
  }

  // ----- the first confirming batch -----

  function ConfirmHeights(calls: seq<Call>): seq<nat> {
    if calls == [] then []
    else
      var c := calls[|calls| - 1];
      ConfirmHeights(calls[..|calls| - 1]) + (if c.MakeConfirmedCall? then [c.height] else [])
  }

  lemma {:induction false} ConfirmHeightsFacts(calls: seq<Call>, h: nat)
    ensures h in ConfirmHeights(calls) <==> LastConfirm(calls, h).Some?
    ensures LastTop(None, calls) ==
              if ConfirmHeights(calls) == [] then None else Some(ConfirmHeights(calls)[|ConfirmHeights(calls)| - 1])
  {
    if calls == [] {
    } else {
      ConfirmHeightsFacts(calls[..|calls| - 1], h);
    }
  }

  /**
    With nothing confirmed yet the guard lets every call through, so the first batch is gap free exactly when
    the heights it confirms are an interval that ends at the last call's height.
   */
  lemma FirstBatchGapFreeIff(db: Db, calls: seq<Call>, lo: nat, hi: nat)
    requires GetTopConfirmedHeight(db) == None && forall h: nat :: GetConfirmedAtHeight(db, h) == None
    ensures var hs := ConfirmHeights(calls);
            GapFree(AfterBatch(db, calls), lo, hi)
            <==> lo <= hi && hs != [] && hs[|hs| - 1] == hi && forall h: nat :: h in hs <==> lo <= h <= hi
  {
    var hs, db' := ConfirmHeights(calls), AfterBatch(db, calls);
    BatchEffect(db, calls, 0);
    ConfirmHeightsFacts(calls, 0);
    forall h: nat ensures GetConfirmedAtHeight(db', h).Some? <==> h in hs {
      BatchEffect(db, calls, h);
      ConfirmHeightsFacts(calls, h);
    }
  }

  /** `setup_genesis`: add the genesis share and confirm it, in one batch. */
  function GenesisBatch(genesis: ShareBlock, work: nat): seq<Call> {
    [AddShareCall(genesis, 0, work, true), MakeConfirmedCall(genesis.Hash(), 0)]
  }

  lemma GenesisGapFree(genesis: ShareBlock, work: nat)
    ensures GapFree(After(map[], [GenesisBatch(genesis, work)]), 0, 0)
    ensures GetConfirmedAtHeight(After(map[], [GenesisBatch(genesis, work)]), 0) == Some(genesis.Hash())
  {
    var calls := GenesisBatch(genesis, work);
    var run: Run := [calls];
    assert run[..0] == [];
    assert After(map[], run) == AfterBatch(map[], calls);
    assert calls[..1] == [calls[0]] && calls[..1][..0] == [];
    assert ConfirmHeights(calls[..1]) == [];
    assert ConfirmHeights(calls) == [0];
    FirstBatchGapFreeIff(map[], calls, 0, 0);
    assert LastConfirm(calls, 0) == Some(genesis.Hash());
    BatchEffect(map[], calls, 0);
  }

  /**
    Any continuation of a set-up store: slots 0 to top, genesis first, and nothing an earlier state held is
    rewritten.
   */
  lemma ConfirmedChain(genesis: ShareBlock, work: nat, past: Run, future: Run) returns (mid: nat, top: nat)
    ensures var start := [GenesisBatch(genesis, work)];
            && mid <= top
            && GapFree(After(map[], start + past), 0, mid) && GapFree(After(map[], start + past + future), 0, top)
            && KeepsSlots(After(map[], start + past), After(map[], start + past + future), mid)
            && GetConfirmedAtHeight(After(map[], start + past + future), 0) == Some(genesis.Hash())
  {
    var start := [GenesisBatch(genesis, work)];
    GenesisGapFree(genesis, work);
    AfterConcat(map[], start, past);
    AfterConcat(map[], start + past, future);
    mid := RunKeepsGapFree(After(map[], start), past, 0, 0);
    top := RunKeepsGapFree(After(map[], start + past), future, 0, mid);
  }

  // ----- is_confirmed -----

  lemma {:induction false} LastConfirmFacts(calls: seq<Call>, h: nat)
    ensures LastConfirm(calls, h).Some? ==> MakeConfirmedCall(LastConfirm(calls, h).value, h) in calls
  {
    if calls == [] {
    } else {
      LastConfirmFacts(calls[..|calls| - 1], h);
    }
  }

  lemma {:induction false} SlotComesFromCall(run: Run, h: nat)
    ensures var r := GetConfirmedAtHeight(After(map[], run), h); r.Some? ==> MakeConfirmedCall(r.value, h) in Calls(run)
  {
    if run == [] {
    } else {
      var init, last := run[..|run| - 1], run[|run| - 1];
      SlotComesFromCall(init, h);
      BatchEffect(After(map[], init), last, h);
      LastConfirmFacts(last, h);
    }
  }

  /** Every confirmation names a share of the run, at the height the share is recorded with. */
  ghost predicate ConfirmsRecorded(calls: seq<Call>) {
    forall b, h: nat :: MakeConfirmedCall(b, h) in calls ==>
      LastAdd(calls, b).Some? && LastAdd(calls, b).value.AddShareCall? && LastAdd(calls, b).value.height == h
  }

  /** `b` holds the confirmed slot of the height it was last added at. */
  ghost predicate HoldsOwnSlot(run: Run, b: BlockHash) {
    var last := LastAdd(Calls(run), b);
    && last.Some? && last.value.AddShareCall?
    && GetConfirmedAtHeight(After(map[], run), last.value.height) == Some(b)
  }

  lemma ConfirmedIsOwnSlot(run: Run, b: BlockHash)
    ensures IsConfirmed(After(map[], run), b) <==> HoldsOwnSlot(run, b)
  {
    MetadataHeightIs(run, b);
  }

  /** `is_confirmed` is occupying a slot, for every block, exactly when every block in a slot also holds its own. */
  lemma ConfirmedIffSlotIff(run: Run)
    ensures (forall b :: IsConfirmed(After(map[], run), b) <==> OccupiesSlot(After(map[], run), b)) <==>
            (forall h, b :: GetConfirmedAtHeight(After(map[], run), h) == Some(b) ==> HoldsOwnSlot(run, b))
  {
    var db := After(map[], run);
    if forall b :: IsConfirmed(db, b) <==> OccupiesSlot(db, b) {
      forall h, b | GetConfirmedAtHeight(db, h) == Some(b) ensures HoldsOwnSlot(run, b) {
        assert OccupiesSlot(db, b);
        ConfirmedIsOwnSlot(run, b);
      }
    }
    if forall h, b :: GetConfirmedAtHeight(db, h) == Some(b) ==> HoldsOwnSlot(run, b) {
      forall b ensures IsConfirmed(db, b) <==> OccupiesSlot(db, b) {
        ConfirmedIsOwnSlot(run, b);
      }
    }
  }

  /** A share recorded at one height and, as the first of all, confirmed at another: in a slot, yet not confirmed. */
  lemma ConfirmedElsewhere(share: ShareBlock, height: nat, h: nat, work: nat, confirmTxs: bool)
    requires height != h
    ensures var run := [[AddShareCall(share, height, work, confirmTxs), MakeConfirmedCall(share.Hash(), h)]];
            OccupiesSlot(After(map[], run), share.Hash()) && !IsConfirmed(After(map[], run), share.Hash())
  {
    var add, confirm := AddShareCall(share, height, work, confirmTxs), MakeConfirmedCall(share.Hash(), h);
    var calls := [add, confirm];
    var run: Run := [calls];
    assert run[..0] == [] && After(map[], run) == AfterBatch(map[], calls);
    assert Calls(run[..0]) + calls == calls;
    assert calls[..1] == [add] && LastConfirm([add], height) == None;
    BatchEffect(map[], calls, h);
    BatchEffect(map[], calls, height);
    MetadataHeightIs(run, share.Hash());
    assert LastAdd(calls, share.Hash()) == LastAdd([add], share.Hash()) == Some(add);
  }

  /** When confirmations use recorded heights, `is_confirmed` is occupying a confirmed slot. */
  lemma IsConfirmedIffSlot(run: Run, b: BlockHash)
    requires ConfirmsRecorded(Calls(run))
    ensures IsConfirmed(After(map[], run), b) <==> OccupiesSlot(After(map[], run), b)
  {
    var db := After(map[], run);
    if OccupiesSlot(db, b) {
      var h :| GetConfirmedAtHeight(db, h) == Some(b);
      SlotComesFromCall(run, h);
      MetadataHeightIs(run, b);
    }
  }
}
