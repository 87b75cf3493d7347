/**
  The chain as it is kept in memory while shares arrive: height and work from the parent, the tip set, and the
  choice of chain tip.
 */
module LiveChain {
  import opened Primitives
  import opened Types
  import opened Graph
  import opened Database
  import opened ShareStore
  import opened Organise
  import opened Runs
  import opened IndexTheorems
  import opened ChainState
  import opened Confirmations
  import opened CommonAncestor
  import DagWalk

  const PPLNS_WINDOW: nat := 2160

  /** The committed batches so far, the chain tip and the tip set. */
  datatype Live = Live(run: Run, tip: BlockHash, tips: set<BlockHash>)

  datatype Arrival = Arrival(share: ShareBlock, confirmTxs: bool)

  function HeadersOf(db: Db): Headers {
    map k | k in db && k.BlockKey? && db[k].Share? :: k.hash := db[k].header
  }

  /** Height and chain work of a share, from the record of its parent. */
  function PlaceOf(db: Db, header: ShareHeader, work: ShareHeader -> nat): (nat, nat) {
    var m := GetMetadata(db, header.prevShareBlockhash);
    if m.None? then (1, work(header))
    else ((if m.value.expectedHeight.Some? then m.value.expectedHeight.value else 0) + 1, m.value.chainWork
         + work(header))
  }

  function SumWork(headers: Headers, hashes: seq<BlockHash>, work: ShareHeader -> nat): nat {
    if hashes == [] then 0
    else
      var b := hashes[|hashes| - 1];
      SumWork(headers, hashes[..|hashes| - 1], work) + (if b in headers then work(headers[b]) else 0)
  }

  function WindowWork(db: Db, b: BlockHash, work: ShareHeader -> nat): nat {
    SumWork(HeadersOf(db), Dag(HeadersOf(db), b, PPLNS_WINDOW), work)
  }

  function Ancestor(db: Db, b: BlockHash, tip: BlockHash): Option<BlockHash> {
    CommonAncestorWithin(HeadersOf(db), b, tip, COMMON_ANCESTOR_DEPTH)
  }

  /** Whether the stored share becomes the chain tip: by total work over a shared past, else by work over the window. */
  predicate Switches(db: Db, header: ShareHeader, newWork: nat, tip: BlockHash, work: ShareHeader -> nat) {
    if Ancestor(db, HashOf(header), tip).Some? then newWork > ChainWork(db, tip)
    else
      var window := WindowWork(db, HashOf(header), work);
      (if window == 0 then work(header) else window) > WindowWork(db, tip, work)
  }

  function ShareCalls(db: Db, a: Arrival, work: ShareHeader -> nat): seq<Call> {
    var (height, chainWork) := PlaceOf(db, a.share.header, work);
    [AddShareCall(a.share, height, chainWork, a.confirmTxs)]
  }

  function ParentSet(header: ShareHeader): set<BlockHash> {
    set p | p in Parents(header)
  }

  /** `reorg`, once the share is stored; an error if the chain tip has no record. */
  function Reorged(live: Live, header: ShareHeader, newWork: nat, work: ShareHeader -> nat): Live {
    var db := After(map[], live.run);
    if GetMetadata(db, live.tip).None? then live
    else Live(live.run, if Switches(db, header, newWork, live.tip, work) then HashOf(header) else live.tip,
              live.tips + {HashOf(header)} - ParentSet(header))
  }

  /** `add_share`; without a tip the share is taken as genesis. */
  function Arrive(live: Live, a: Arrival, work: ShareHeader -> nat): Live {
    if live.tips == {}
    then Live(live.run + [GenesisBatch(a.share, work(a.share.header))], a.share.Hash(), {a.share.Hash()})
    else
      var before := After(map[], live.run);
      Reorged(live.(run := live.run + [ShareCalls(before, a, work)]), a.share.header,
              PlaceOf(before, a.share.header, work).1, work)
  }

  function LiveAfter(arrivals: seq<Arrival>, work: ShareHeader -> nat): Live {
    if arrivals == [] then Live([], ALL_ZEROS, {})
    else Arrive(LiveAfter(arrivals[..|arrivals| - 1], work), arrivals[|arrivals| - 1], work)
  }

  function DbAfter(arrivals: seq<Arrival>, work: ShareHeader -> nat): Db {
    After(map[], LiveAfter(arrivals, work).run)
  }

  // ----- the methods -----

  ghost predicate Shows(live: Live, db: Db, chainTip: BlockHash, tips: set<BlockHash>) {
    db == After(map[], live.run) && chainTip == live.tip && tips == live.tips
  }

  lemma BatchOfOne(db: Db, share: ShareBlock, height: nat, chainWork: nat, confirmTxs: bool)
    ensures BatchOps(db, [AddShareCall(share, height, chainWork, confirmTxs)])
            == ShareOps(share, height, chainWork, confirmTxs)
  {
    var none: seq<Call> := [];
    assert [AddShareCall(share, height, chainWork, confirmTxs)][..0] == none;
    var before := BatchOps(db, none);
    assert before == [];
    assert before + ShareOps(share, height, chainWork, confirmTxs) == ShareOps(share, height, chainWork, confirmTxs);
  }

  lemma BatchOfGenesis(db: Db, share: ShareBlock, work: ShareHeader -> nat)
    ensures BatchOps(db, GenesisBatch(share, work(share.header))) == ShareOps(share, 0, work(share.header), true)
            + ConfirmOps(db, share.Hash(), 0)
  {
    assert GenesisBatch(share, work(share.header))[..1] == [AddShareCall(share, 0, work(share.header), true)];
    BatchOfOne(db, share, 0, work(share.header), true);
  }

  /** The loop at the end of `reorg`. */
  method RemoveTips(tips: set<BlockHash>, header: ShareHeader) returns (r: set<BlockHash>)
    ensures r == tips - ParentSet(header)
  {
    r := tips - {header.prevShareBlockhash};
    for i := 0 to |header.uncles|
      invariant r == tips - {header.prevShareBlockhash} - (set u | u in header.uncles[..i])
    {
      r := r - {header.uncles[i]};
    }
    assert header.uncles[..|header.uncles|] == header.uncles;
  }

  /** `work_over_pplns_window`. */
  method WorkOverPplnsWindow(db: Db, b: BlockHash, work: ShareHeader -> nat) returns (sum: nat)
    ensures sum == WindowWork(db, b, work)
  {
    var headers := HeadersOf(db);
    var hashes := DagWalk.GetDagForDepth(headers, b, PPLNS_WINDOW);
    sum := 0;
    for i := 0 to |hashes|
      invariant sum == SumWork(headers, hashes[..i], work)
    {
      assert hashes[..i + 1][..i] == hashes[..i];
      if hashes[i] in headers {
        sum := sum + work(headers[hashes[i]]);
      }
    }
    assert hashes[..|hashes|] == hashes;
  }

  method SetupGenesisShare(store: Store, share: ShareBlock, work: ShareHeader -> nat, ghost live: Live)
    requires Shows(live, store.db, store.chainTip, store.tips) && store.tips == {}
    modifies store
    ensures Shows(Live(live.run + [GenesisBatch(share, work(share.header))], share.Hash(), {share.Hash()}), store.db,
            store.chainTip, store.tips)
  {
    var batch := new WriteBatch();
    store.SetupGenesis(share, work(share.header), batch);
    assert batch.ops == ShareOps(share, 0, work(share.header), true) + ConfirmOps(store.db, share.Hash(), 0);
    BatchOfGenesis(store.db, share, work);
    AfterPush(map[], live.run, GenesisBatch(share, work(share.header)));
    store.CommitBatch(batch);
  }

  /** `reorg` once the share is stored. */
  method Reorg(store: Store, header: ShareHeader, newWork: nat, work: ShareHeader -> nat, ghost live: Live)
    requires Shows(live, store.db, store.chainTip, store.tips)
    modifies store`chainTip, store`tips
    ensures Shows(Reorged(live, header, newWork, work), store.db, store.chainTip, store.tips)
  {
    var total := store.GetTotalWork();
    if total.Err? {
      return;
    }
    var tip := store.chainTip;
    var ancestor := GetCommonAncestor(HeadersOf(store.db), HashOf(header), tip);
    if ancestor.Some? {
      if newWork > total.value {
        store.chainTip := HashOf(header);
      }
    } else {
      var oldWindow := WorkOverPplnsWindow(store.db, tip, work);
      var newWindow := WorkOverPplnsWindow(store.db, HashOf(header), work);
      if newWindow == 0 {
        newWindow := work(header);
      }
      if newWindow > oldWindow {
        store.chainTip := HashOf(header);
      }
    }
    store.tips := store.tips + {HashOf(header)};
    var rest := RemoveTips(store.tips, header);
    store.tips := rest;
  }

  /** `ChainStoreHandle::add_share`. */
  method AddShareToChain(store: Store, a: Arrival, work: ShareHeader -> nat, ghost live: Live)
    requires Shows(live, store.db, store.chainTip, store.tips)
    modifies store
    ensures Shows(Arrive(live, a, work), store.db, store.chainTip, store.tips)
  {
    if store.tips == {} {
      SetupGenesisShare(store, a.share, work, live);
      return;
    }
    var (height, chainWork) := PlaceOf(store.db, a.share.header, work);
    StoreShare(store, a, height, chainWork, live);
    var calls := [AddShareCall(a.share, height, chainWork, a.confirmTxs)];
    Reorg(store, a.share.header, chainWork, work, live.(run := live.run + [calls]));
  }

  /** The writer's part of `add_share`: one batch, committed. */
  method StoreShare(store: Store, a: Arrival, height: nat, chainWork: nat, ghost live: Live)
    requires Shows(live, store.db, store.chainTip, store.tips)
    modifies store
    ensures var calls := [AddShareCall(a.share, height, chainWork, a.confirmTxs)];
            Shows(live.(run := live.run + [calls]), store.db, store.chainTip, store.tips)
  {
    var batch := new WriteBatch();
    AddShare(a.share, height, chainWork, a.confirmTxs, batch);
    BatchOfOne(store.db, a.share, height, chainWork, a.confirmTxs);
    AfterPush(map[], live.run, [AddShareCall(a.share, height, chainWork, a.confirmTxs)]);
    store.CommitBatch(batch);
  }

  /** Induction over arrivals: what holds of any first share and is kept by each good arrival holds throughout. */
  lemma {:induction false} ByArrivals(good: seq<Arrival> -> bool, holds: seq<Arrival> -> bool, arrivals: seq<Arrival>)
    requires arrivals != [] && good(arrivals)
    requires forall xs, a {:trigger good(xs + [a])} :: xs != [] && good(xs + [a]) ==> good(xs)
    requires forall a {:trigger holds([a])} :: holds([a])
    requires forall xs, a {:trigger holds(xs + [a])} :: xs != [] && good(xs + [a]) && holds(xs) ==> holds(xs + [a])
    ensures holds(arrivals)
  {
    var init, a := arrivals[..|arrivals| - 1], arrivals[|arrivals| - 1];
    assert arrivals == init + [a];
    if init == [] {
      assert arrivals == [a] && holds([a]);
    } else {
      assert good(init + [a]);
      ByArrivals(good, holds, init);
      assert holds(init + [a]);
    }
  }

  // ----- which shares are stored -----

  ghost predicate Arrived(arrivals: seq<Arrival>, b: BlockHash) {
    exists i :: 0 <= i < |arrivals| && arrivals[i].share.Hash() == b
  }

  lemma ArrivedPush(arrivals: seq<Arrival>, a: Arrival, b: BlockHash)
    ensures Arrived(arrivals + [a], b) <==> Arrived(arrivals, b) || a.share.Hash() == b
  {
    if Arrived(arrivals, b) {
      var i :| 0 <= i < |arrivals| && arrivals[i].share.Hash() == b;
      assert (arrivals + [a])[i] == arrivals[i];
    }
    assert (arrivals + [a])[|arrivals|] == a;
  }

  /** Every arrival adds one batch, whose only addition is that of its share. */
  lemma ArrivalBatch(live: Live, a: Arrival, work: ShareHeader -> nat) returns (calls: seq<Call>)
    ensures Arrive(live, a, work).run == live.run + [calls]
    ensures calls != [] && Adds(calls[0], a.share.Hash()) && forall i :: 0 < i < |calls| ==> !calls[i].AddShareCall?
    ensures live.tips != {} ==> calls == ShareCalls(After(map[], live.run), a, work)
  {
    calls := if live.tips == {} then GenesisBatch(a.share, work(a.share.header))
        else ShareCalls(After(map[], live.run), a, work);
  }

  lemma CallsPush(run: Run, calls: seq<Call>)
    ensures Calls(run + [calls]) == Calls(run) + calls
  {
    assert (run + [calls])[..|run + [calls]| - 1] == run;
  }

  lemma LiveAfterPush(arrivals: seq<Arrival>, a: Arrival, work: ShareHeader -> nat)
    ensures LiveAfter(arrivals + [a], work) == Arrive(LiveAfter(arrivals, work), a, work)
  {
    assert (arrivals + [a])[..|arrivals + [a]| - 1] == arrivals;
  }

  ghost predicate AddedAgrees(arrivals: seq<Arrival>, work: ShareHeader -> nat, b: BlockHash) {
    Added(Calls(LiveAfter(arrivals, work).run), b) <==> Arrived(arrivals, b)
  }

  lemma AddedAgreesPush(arrivals: seq<Arrival>, a: Arrival, work: ShareHeader -> nat, b: BlockHash)
    requires AddedAgrees(arrivals, work, b)
    ensures AddedAgrees(arrivals + [a], work, b)
  {
    LiveAfterPush(arrivals, a, work);
    ArrivedPush(arrivals, a, b);
    var live := LiveAfter(arrivals, work);
    var calls := ArrivalBatch(live, a, work);
    CallsPush(live.run, calls);
    AddedByBatch(Calls(live.run), calls, a.share.Hash(), b);
  }

  lemma AddedIsArrived(arrivals: seq<Arrival>, work: ShareHeader -> nat, b: BlockHash)
    ensures Added(Calls(LiveAfter(arrivals, work).run), b) <==> Arrived(arrivals, b)
  {
    if arrivals != [] {
      var holds := (xs: seq<Arrival>) => AddedAgrees(xs, work, b);
      forall a ensures holds([a]) {
        var none: seq<Arrival> := [];
        assert AddedAgrees(none, work, b) && none + [a] == [a];
        AddedAgreesPush(none, a, work, b);
      }
      forall xs, a | xs != [] && holds(xs) ensures holds(xs + [a]) {
        AddedAgreesPush(xs, a, work, b);
      }
      ByArrivals(_ => true, holds, arrivals);
    }
  }

  lemma AddedByBatch(before: seq<Call>, calls: seq<Call>, h: BlockHash, b: BlockHash)
    requires calls != [] && Adds(calls[0], h) && forall i :: 0 < i < |calls| ==> !calls[i].AddShareCall?
    ensures Added(before + calls, b) <==> Added(before, b) || b == h
  {
    if Added(before, b) {
      var c :| c in before && Adds(c, b);
      assert c in before + calls;
    } else if b == h {
      assert calls[0] in before + calls;
    } else {
      forall c | c in before + calls ensures !Adds(c, b) {
        if c in before {
          assert !Adds(c, b);
        }
      }
    }
  }

  /** A share never is its own parent. */
  lemma NotOwnParent(header: ShareHeader)
    ensures HashOf(header) !in Parents(header)
  {
    if HashOf(header) in Parents(header) {
      ParentShallower(header, HashOf(header));
    }
  }

  lemma ArriveSets(live: Live, a: Arrival, work: ShareHeader -> nat)
    ensures var next := Arrive(live, a, work);
            next.tips != {} && (next.tip == a.share.Hash() || (live.tips != {} && next.tip == live.tip))
  {
    NotOwnParent(a.share.header);
    assert a.share.Hash() in live.tips + {a.share.Hash()} - ParentSet(a.share.header);
  }

  /** Once a share has arrived there are tips, and the chain tip has arrived. */
  lemma {:induction false} LiveIsSet(arrivals: seq<Arrival>, work: ShareHeader -> nat)
    requires arrivals != []
    ensures LiveAfter(arrivals, work).tips != {} && Arrived(arrivals, LiveAfter(arrivals, work).tip)
  {
    var init, a := arrivals[..|arrivals| - 1], arrivals[|arrivals| - 1];
    var live := LiveAfter(init, work);
    assert arrivals == init + [a];
    ArriveSets(live, a, work);
    ArrivedPush(init, a, Arrive(live, a, work).tip);
    if init == [] {
    } else {
      LiveIsSet(init, work);
    }
  }

  lemma TipHasRecord(arrivals: seq<Arrival>, work: ShareHeader -> nat, a: Arrival)
    requires arrivals != []
    ensures GetMetadata(DbAfter(arrivals + [a], work), LiveAfter(arrivals, work).tip).Some?
  {
    LiveIsSet(arrivals, work);
    ArrivedPush(arrivals, a, LiveAfter(arrivals, work).tip);
    AddedIsArrived(arrivals + [a], work, LiveAfter(arrivals, work).tip);
    AddedHasMetadata(LiveAfter(arrivals + [a], work).run, LiveAfter(arrivals, work).tip);
  }

  /** So a later arrival always goes through the choice of tip. */
  lemma NextArrival(arrivals: seq<Arrival>, a: Arrival, work: ShareHeader -> nat)
    requires arrivals != []
    ensures var live, next, header := LiveAfter(arrivals, work), LiveAfter(arrivals + [a], work), a.share.header;
            && next.run == live.run + [ShareCalls(DbAfter(arrivals, work), a, work)]
            && next.tips == live.tips + {a.share.Hash()} - ParentSet(header)
            && next.tip == if Switches(DbAfter(arrivals + [a], work), header,
               PlaceOf(DbAfter(arrivals, work), header, work).1, live.tip, work)
                           then a.share.Hash() else live.tip
  {
    assert (arrivals + [a])[..|arrivals + [a]| - 1] == arrivals;
    LiveIsSet(arrivals, work);
    TipHasRecord(arrivals, work, a);
  }

  // ----- the tip set -----

  /** Nothing that came after arrival `i` names `t` as a parent. */
  ghost predicate UnnamedSince(arrivals: seq<Arrival>, i: nat, t: BlockHash) {
    forall j :: i < j < |arrivals| ==> t !in Parents(arrivals[j].share.header)
  }

  /** `t` arrived, and nothing that came later names it as a parent. */
  ghost predicate Open(arrivals: seq<Arrival>, t: BlockHash) {
    exists i :: 0 <= i < |arrivals| && arrivals[i].share.Hash() == t && UnnamedSince(arrivals, i, t)
  }

  lemma OpenPush(arrivals: seq<Arrival>, a: Arrival, t: BlockHash)
    ensures Open(arrivals + [a], t) <==> t == a.share.Hash() || (Open(arrivals, t) && t !in Parents(a.share.header))
  {
    var all := arrivals + [a];
    assert all[|arrivals|] == a && UnnamedSince(all, |arrivals|, t);
    forall i | 0 <= i < |arrivals|
      ensures all[i] == arrivals[i]
      ensures UnnamedSince(all, i, t) <==> UnnamedSince(arrivals, i, t) && t !in Parents(a.share.header)
    {
      UnnamedPush(arrivals, a, i, t);
    }
  }

  lemma UnnamedPush(arrivals: seq<Arrival>, a: Arrival, i: nat, t: BlockHash)
    requires i < |arrivals|
    ensures UnnamedSince(arrivals + [a], i, t) <==> UnnamedSince(arrivals, i, t) && t !in Parents(a.share.header)
  {
    var all := arrivals + [a];
    assert all[|arrivals|] == a;
    assert forall j :: 0 <= j < |arrivals| ==> all[j] == arrivals[j];
  }

  ghost predicate TipsAreOpen(arrivals: seq<Arrival>, work: ShareHeader -> nat, t: BlockHash) {
    t in LiveAfter(arrivals, work).tips <==> Open(arrivals, t)
  }

  lemma FirstTip(a: Arrival, work: ShareHeader -> nat, t: BlockHash)
    ensures TipsAreOpen([a], work, t)
  {
    var none: seq<Arrival> := [];
    assert [a] == none + [a] && [a][..0] == none;
    OpenPush(none, a, t);
  }

  lemma NextTips(arrivals: seq<Arrival>, a: Arrival, work: ShareHeader -> nat, t: BlockHash)
    requires arrivals != [] && TipsAreOpen(arrivals, work, t)
    ensures TipsAreOpen(arrivals + [a], work, t)
  {
    OpenPush(arrivals, a, t);
    TipsPush(arrivals, a, work, t);
  }

  lemma TipsPush(arrivals: seq<Arrival>, a: Arrival, work: ShareHeader -> nat, t: BlockHash)
    requires arrivals != []
    ensures t in LiveAfter(arrivals + [a], work).tips <==>
            t == a.share.Hash() || (t in LiveAfter(arrivals, work).tips && t !in Parents(a.share.header))
  {
    NextArrival(arrivals, a, work);
    JoinsTips(LiveAfter(arrivals, work).tips, a.share.header, t);
  }

  lemma JoinsTips(tips: set<BlockHash>, header: ShareHeader, t: BlockHash)
    ensures t in tips + {HashOf(header)} - ParentSet(header) <==>
            t == HashOf(header) || (t in tips && t !in Parents(header))
  {
    NotOwnParent(header);
  }

  /** The tip set holds exactly the open shares, whatever arrived in whatever order. */
  lemma LiveTipsAre(arrivals: seq<Arrival>, work: ShareHeader -> nat, t: BlockHash)
    ensures t in LiveAfter(arrivals, work).tips <==> Open(arrivals, t)
  {
    if arrivals != [] {
      var holds := (xs: seq<Arrival>) => TipsAreOpen(xs, work, t);
      forall a ensures holds([a]) {
        FirstTip(a, work, t);
      }
      forall xs, a | xs != [] && holds(xs) ensures holds(xs + [a]) {
        NextTips(xs, a, work, t);
      }
      ByArrivals(_ => true, holds, arrivals);
    }
  }

  /** Some arrival names `t` as a parent. */
  ghost predicate Named(arrivals: seq<Arrival>, t: BlockHash) {
    exists j :: 0 <= j < |arrivals| && t in Parents(arrivals[j].share.header)
  }

  lemma IndexedIsNamed(arrivals: seq<Arrival>, work: ShareHeader -> nat, t: BlockHash)
    ensures t in BlockIndexOf(DbAfter(arrivals, work)) <==> Named(arrivals, t)
  {
    var run, db := LiveAfter(arrivals, work).run, DbAfter(arrivals, work);
    BlockIndexEntry(db, t);
    RunList(run, ChildrenKey(t));
    var children := ListAt(db, ChildrenKey(t));
    if children != [] {
      var c := children[0];
      ChildrenAgree(run, t, c);
      AddedIsArrived(arrivals, work, c);
      var j :| 0 <= j < |arrivals| && arrivals[j].share.Hash() == c;
      assert t in Parents(arrivals[j].share.header);
    }
    if j :| 0 <= j < |arrivals| && t in Parents(arrivals[j].share.header) {
      var c := arrivals[j].share.Hash();
      AddedIsArrived(arrivals, work, c);
      ChildrenAgree(run, t, c);
    }
  }

  lemma ReachableArrived(arrivals: seq<Arrival>, work: ShareHeader -> nat, genesis: BlockHash, t: BlockHash)
    requires Arrived(arrivals, genesis) && Reachable(BlockIndexOf(DbAfter(arrivals, work)), genesis, t)
    ensures Arrived(arrivals, t)
  {
    AddedIsArrived(arrivals, work, genesis);
    ReachableIsAdded(LiveAfter(arrivals, work).run, genesis, t);
    AddedIsArrived(arrivals, work, t);
  }

  /** Whatever a restart reloads as a tip was a live tip. */
  lemma ReloadedTipsWereLive(arrivals: seq<Arrival>, work: ShareHeader -> nat, genesis: BlockHash, t: BlockHash)
    requires Arrived(arrivals, genesis) && IsTip(DbAfter(arrivals, work), genesis, t)
    ensures t in LiveAfter(arrivals, work).tips
  {
    ReachableArrived(arrivals, work, genesis, t);
    IndexedIsNamed(arrivals, work, t);
    LiveTipsAre(arrivals, work, t);
    var i :| 0 <= i < |arrivals| && arrivals[i].share.Hash() == t;
    assert UnnamedSince(arrivals, i, t);
  }

  /** A restart treats `t` alike exactly when, if `t` is open, it hangs together with genesis and was never named. */
  lemma TipSurvivesIff(arrivals: seq<Arrival>, work: ShareHeader -> nat, genesis: BlockHash, t: BlockHash)
    requires Arrived(arrivals, genesis)
    ensures var db, tips := DbAfter(arrivals, work), LiveAfter(arrivals, work).tips;
            (t in tips <==> IsTip(db, genesis, t)) <==>
            (Open(arrivals, t) ==> Reachable(BlockIndexOf(db), genesis, t) && !Named(arrivals, t))
  {
    LiveTipsAre(arrivals, work, t);
    IndexedIsNamed(arrivals, work, t);
    if IsTip(DbAfter(arrivals, work), genesis, t) {
      ReloadedTipsWereLive(arrivals, work, genesis, t);
    }
  }

  // ----- orderly arrivals: genesis first, then each share once and after its parents -----

  ghost predicate Once(arrivals: seq<Arrival>) {
    forall i, j :: 0 <= i < j < |arrivals| ==> arrivals[i].share.Hash() != arrivals[j].share.Hash()
  }

  lemma OnceInit(arrivals: seq<Arrival>, a: Arrival)
    requires Once(arrivals + [a])
    ensures Once(arrivals) && !Arrived(arrivals, a.share.Hash())
  {
    var all := arrivals + [a];
    assert forall i :: 0 <= i < |arrivals| ==> all[i] == arrivals[i];
    assert all[|arrivals|] == a;
  }

  ghost predicate Orderly(arrivals: seq<Arrival>) {
    && arrivals != [] && Parents(arrivals[0].share.header) == [ALL_ZEROS]
    && Once(arrivals)
    && (forall i, p :: 0 < i < |arrivals| && p in Parents(arrivals[i].share.header) ==> Arrived(arrivals[..i], p))
  }

  lemma OrderlyInit(arrivals: seq<Arrival>, a: Arrival)
    requires arrivals != [] && Orderly(arrivals + [a])
    ensures Orderly(arrivals) && Once(arrivals + [a])
    ensures forall p :: p in Parents(a.share.header) ==> Arrived(arrivals, p)
  {
    var all := arrivals + [a];
    assert forall i :: 0 <= i < |arrivals| ==> all[i] == arrivals[i] && all[..i] == arrivals[..i];
    assert all[|arrivals|] == a && all[..|arrivals|] == arrivals;
  }

  function Genesis(arrivals: seq<Arrival>): BlockHash
    requires arrivals != []
  {
    arrivals[0].share.Hash()
  }

  lemma {:induction false} OrderlyReachable(arrivals: seq<Arrival>, work: ShareHeader -> nat, i: nat)
    requires Orderly(arrivals) && i < |arrivals|
    ensures Reachable(BlockIndexOf(DbAfter(arrivals, work)), Genesis(arrivals), arrivals[i].share.Hash())
  {
    var g := BlockIndexOf(DbAfter(arrivals, work));
    if i == 0 {
      ReachableSelf(g, Genesis(arrivals));
    } else {
      var p, b := arrivals[i].share.header.prevShareBlockhash, arrivals[i].share.Hash();
      assert p in Parents(arrivals[i].share.header);
      var k := ParentAt(arrivals, i, p);
      OrderlyReachable(arrivals, work, k);
      ParentEdge(arrivals, work, i, p);
      ReachableStep(g, Genesis(arrivals), p, b);
    }
  }

  lemma ParentEdge(arrivals: seq<Arrival>, work: ShareHeader -> nat, i: nat, p: BlockHash)
    requires i < |arrivals| && p in Parents(arrivals[i].share.header)
    ensures Edge(BlockIndexOf(DbAfter(arrivals, work)), p, arrivals[i].share.Hash())
  {
    var b := arrivals[i].share.Hash();
    AddedIsArrived(arrivals, work, b);
    ChildrenAgree(LiveAfter(arrivals, work).run, p, b);
    BlockIndexEntry(DbAfter(arrivals, work), p);
    IndexedIsNamed(arrivals, work, p);
  }

  /** An arrival is not named by anything that came before it. */
  lemma NotNamedEarly(arrivals: seq<Arrival>, i: nat, j: nat)
    requires Orderly(arrivals) && j <= i < |arrivals|
    ensures arrivals[i].share.Hash() !in Parents(arrivals[j].share.header)
  {
    var t := arrivals[i].share.Hash();
    if j > 0 && t in Parents(arrivals[j].share.header) {
      var k := ParentAt(arrivals, j, t);
      assert false;
    }
  }

  lemma ParentAt(arrivals: seq<Arrival>, j: nat, p: BlockHash) returns (k: nat)
    requires Orderly(arrivals) && 0 < j < |arrivals| && p in Parents(arrivals[j].share.header)
    ensures k < j && arrivals[k].share.Hash() == p
  {
    assert Arrived(arrivals[..j], p);
    k :| k < j && arrivals[..j][k].share.Hash() == p;
  }

  /** After orderly arrivals a restart reloads the very tip set that was live. */
  lemma TipsSurvive(arrivals: seq<Arrival>, work: ShareHeader -> nat, t: BlockHash)
    requires Orderly(arrivals)
    ensures t in LiveAfter(arrivals, work).tips <==> IsTip(DbAfter(arrivals, work), Genesis(arrivals), t)
  {
    assert Arrived(arrivals, Genesis(arrivals));
    LiveTipsAre(arrivals, work, t);
    IndexedIsNamed(arrivals, work, t);
    if Open(arrivals, t) {
      var i :| 0 <= i < |arrivals| && arrivals[i].share.Hash() == t && UnnamedSince(arrivals, i, t);
      OrderlyReachable(arrivals, work, i);
      forall j | 0 <= j < |arrivals| ensures t !in Parents(arrivals[j].share.header) {
        if j <= i {
          NotNamedEarly(arrivals, i, j);
        }
      }
    } else if IsTip(DbAfter(arrivals, work), Genesis(arrivals), t) {
      ReloadedTipsWereLive(arrivals, work, Genesis(arrivals), t);
    }
  }
}
