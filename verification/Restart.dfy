/** What a restart, which reloads tips and tip set from the database, makes of the live chain. */
module Restart {
  import opened Types
  import opened Graph
  import opened Database
  import opened IndexTheorems
  import opened ChainState
  import opened LiveChain
  import opened LiveWork
  import opened SharedPast

  /** Every share but genesis adds its own work to that of its parent. */
  ghost predicate WorkAddsUp(arrivals: seq<Arrival>, work: ShareHeader -> nat) {
    forall i :: 0 < i < |arrivals| ==>
      ChainWork(DbAfter(arrivals, work), arrivals[i].share.Hash())
      == ChainWork(DbAfter(arrivals, work), arrivals[i].share.header.prevShareBlockhash)
         + work(arrivals[i].share.header)
  }

  lemma PlaceIsSum(arrivals: seq<Arrival>, header: ShareHeader, work: ShareHeader -> nat)
    requires Arrived(arrivals, header.prevShareBlockhash)
    ensures PlaceOf(DbAfter(arrivals, work), header, work).1
            == ChainWork(DbAfter(arrivals, work), header.prevShareBlockhash) + work(header)
  {
    AddedIsArrived(arrivals, work, header.prevShareBlockhash);
    AddedHasMetadata(LiveAfter(arrivals, work).run, header.prevShareBlockhash);
  }

  lemma OrderlyWorkAddsUp(arrivals: seq<Arrival>, work: ShareHeader -> nat)
    requires Orderly(arrivals)
    ensures WorkAddsUp(arrivals, work)
  {
    var good := (xs: seq<Arrival>) => Orderly(xs);
    var holds := (xs: seq<Arrival>) => WorkAddsUp(xs, work);
    forall xs, a | xs != [] && good(xs + [a]) ensures good(xs) {
      OrderlyInit(xs, a);
    }
    forall xs, a | xs != [] && good(xs + [a]) && holds(xs) ensures holds(xs + [a]) {
      WorkAddsUpPush(xs, a, work);
    }
    ByArrivals(good, holds, arrivals);
  }

  lemma WorkAddsUpPush(arrivals: seq<Arrival>, a: Arrival, work: ShareHeader -> nat)
    requires arrivals != [] && Orderly(arrivals + [a]) && WorkAddsUp(arrivals, work)
    ensures WorkAddsUp(arrivals + [a], work)
  {
    forall i | 0 < i < |arrivals + [a]|
      ensures var db, share := DbAfter(arrivals + [a], work), (arrivals + [a])[i].share;
              ChainWork(db, share.Hash()) == ChainWork(db, share.header.prevShareBlockhash) + work(share.header)
    {
      WorkAddsUpStep(arrivals, a, work, i);
    }
  }

  lemma WorkAddsUpStep(arrivals: seq<Arrival>, a: Arrival, work: ShareHeader -> nat, i: nat)
    requires arrivals != [] && Orderly(arrivals + [a]) && WorkAddsUp(arrivals, work) && 0 < i <= |arrivals|
    ensures var db, share := DbAfter(arrivals + [a], work), (arrivals + [a])[i].share;
            ChainWork(db, share.Hash()) == ChainWork(db, share.header.prevShareBlockhash) + work(share.header)
  {
    var share := (arrivals + [a])[i].share;
    var prev := share.header.prevShareBlockhash;
    TipRecordKept(arrivals, a, work);
    OrderlyInit(arrivals, a);
    RecordAfter(arrivals, a, work, share.Hash());
    RecordAfter(arrivals, a, work, prev);
    assert prev in Parents(share.header);
    if i == |arrivals| {
      PlaceIsSum(arrivals, share.header, work);
    } else {
      EarlierDiffers(arrivals, a, i, prev);
    }
  }

  lemma EarlierDiffers(arrivals: seq<Arrival>, a: Arrival, i: nat, p: BlockHash)
    requires arrivals != [] && Orderly(arrivals + [a]) && i < |arrivals| && p in Parents(arrivals[i].share.header)
             && i > 0
    ensures p != a.share.Hash() && arrivals[i].share.Hash() != a.share.Hash()
  {
    var all := arrivals + [a];
    assert all[i] == arrivals[i] && all[|arrivals|] == a;
    NotNamedEarly(all, |arrivals|, i);
  }

  /** No share is lighter than an uncle it names. */
  ghost predicate UnclesLighter(arrivals: seq<Arrival>, work: ShareHeader -> nat) {
    forall i, u :: 0 <= i < |arrivals| && u in arrivals[i].share.header.uncles ==>
      ChainWork(DbAfter(arrivals, work), u) <= ChainWork(DbAfter(arrivals, work), arrivals[i].share.Hash())
  }

  lemma OrderlyWorkGrows(arrivals: seq<Arrival>, work: ShareHeader -> nat)
    requires Orderly(arrivals) && UnclesLighter(arrivals, work)
    ensures WorkGrows(DbAfter(arrivals, work), Genesis(arrivals))
  {
    OrderlyWorkAddsUp(arrivals, work);
    var db := DbAfter(arrivals, work);
    forall a, b | Reachable(BlockIndexOf(db), Genesis(arrivals), a) && Edge(BlockIndexOf(db), a, b)
      ensures ChainWork(db, a) <= ChainWork(db, b)
    {
      EdgeWork(arrivals, work, a, b);
    }
  }

  lemma EdgeArrival(arrivals: seq<Arrival>, work: ShareHeader -> nat, a: BlockHash, b: BlockHash) returns (i: nat)
    requires Orderly(arrivals) && Edge(BlockIndexOf(DbAfter(arrivals, work)), a, b)
    ensures i < |arrivals| && arrivals[i].share.Hash() == b && a in Parents(arrivals[i].share.header)
  {
    var run := LiveAfter(arrivals, work).run;
    ChildIsAdded(run, a, b);
    AddedIsArrived(arrivals, work, b);
    BlockIndexEntry(DbAfter(arrivals, work), a);
    ChildrenAgree(run, a, b);
    i :| 0 <= i < |arrivals| && arrivals[i].share.Hash() == b;
  }

  lemma EdgeWork(arrivals: seq<Arrival>, work: ShareHeader -> nat, a: BlockHash, b: BlockHash)
    requires Orderly(arrivals) && UnclesLighter(arrivals, work) && WorkAddsUp(arrivals, work)
    requires Reachable(BlockIndexOf(DbAfter(arrivals, work)), Genesis(arrivals), a)
             && Edge(BlockIndexOf(DbAfter(arrivals, work)), a, b)
    ensures ChainWork(DbAfter(arrivals, work), a) <= ChainWork(DbAfter(arrivals, work), b)
  {
    assert Arrived(arrivals, Genesis(arrivals));
    ReachableArrived(arrivals, work, Genesis(arrivals), a);
    var i := EdgeArrival(arrivals, work, a, b);
    ParentWork(arrivals, DbAfter(arrivals, work), work, i, a);
  }

  lemma ParentWork(arrivals: seq<Arrival>, db: Db, work: ShareHeader -> nat, i: nat, a: BlockHash)
    requires Orderly(arrivals) && i < |arrivals| && a in Parents(arrivals[i].share.header) && Arrived(arrivals, a)
    requires i > 0 ==>
               ChainWork(db, arrivals[i].share.Hash())
               == ChainWork(db, arrivals[i].share.header.prevShareBlockhash) + work(arrivals[i].share.header)
    requires a in arrivals[i].share.header.uncles ==> ChainWork(db, a) <= ChainWork(db, arrivals[i].share.Hash())
    ensures ChainWork(db, a) <= ChainWork(db, arrivals[i].share.Hash())
  {
    assert a != ALL_ZEROS;
  }

  /**
    Reloading a store after orderly arrivals: the tip set is the live one. If arrivals shared a past with the tip
    they met, the reloaded total is at most the live one, and equals it exactly when some live tip attains it, as
    when no uncle outweighs its nephew.
   */
  method Restart(store: Store, genesis: BlockHash, ghost arrivals: seq<Arrival>, ghost work: ShareHeader -> nat)
    returns (total: nat)
    requires Orderly(arrivals) && genesis == Genesis(arrivals)
    requires Shows(LiveAfter(arrivals, work), store.db, store.chainTip, store.tips)
    modifies store
    ensures store.db == old(store.db) && store.tips == old(store.tips)
    ensures store.chainTip in store.tips && total == ChainWork(store.db, store.chainTip)
    ensures forall t :: t in store.tips ==> ChainWork(store.db, t) <= total
    ensures SharesPast(arrivals, work) ==>
              && total <= ChainWork(store.db, old(store.chainTip))
              && (total == ChainWork(store.db, old(store.chainTip)) <==>
                  exists t :: t in store.tips && ChainWork(store.db, t) == ChainWork(store.db, old(store.chainTip)))
              && (UnclesLighter(arrivals, work) ==> total == ChainWork(store.db, old(store.chainTip)))
  {
    ghost var run, tip := LiveAfter(arrivals, work).run, store.chainTip;
    assert Arrived(arrivals, genesis);
    AddedIsArrived(arrivals, work, genesis);
    total := ReloadAfterRun(store, run, genesis);
    SameTips(arrivals, work, store.tips);
    if SharesPast(arrivals, work) {
      TipIsHeaviest(arrivals, work);
      LiveOutweighs(arrivals, work, store.tips);
      if UnclesLighter(arrivals, work) {
        OrderlyWorkGrows(arrivals, work);
        LiveIsSet(arrivals, work);
        ArrivedReachable(arrivals, work, tip);
      }
    }
  }

  lemma SameTips(arrivals: seq<Arrival>, work: ShareHeader -> nat, tips: set<BlockHash>)
    requires Orderly(arrivals) && forall t :: t in tips <==> IsTip(DbAfter(arrivals, work), Genesis(arrivals), t)
    ensures tips == LiveAfter(arrivals, work).tips
  {
    forall t ensures t in tips <==> t in LiveAfter(arrivals, work).tips {
      TipsSurvive(arrivals, work, t);
    }
  }

  lemma LiveOutweighs(arrivals: seq<Arrival>, work: ShareHeader -> nat, tips: set<BlockHash>)
    requires Heaviest(arrivals, work) && tips == LiveAfter(arrivals, work).tips
    ensures forall t :: t in tips ==>
            ChainWork(DbAfter(arrivals, work), t) <= ChainWork(DbAfter(arrivals, work), LiveAfter(arrivals, work).tip)
  {
    forall t | t in tips
      ensures ChainWork(DbAfter(arrivals, work), t) <= ChainWork(DbAfter(arrivals, work), LiveAfter(arrivals, work).tip)
    {
      LiveTipsAre(arrivals, work, t);
      assert Arrived(arrivals, t);
    }
  }

  lemma ArrivedReachable(arrivals: seq<Arrival>, work: ShareHeader -> nat, b: BlockHash)
    requires Orderly(arrivals) && Arrived(arrivals, b)
    ensures Reachable(BlockIndexOf(DbAfter(arrivals, work)), Genesis(arrivals), b)
  {
    var i :| 0 <= i < |arrivals| && arrivals[i].share.Hash() == b;
    OrderlyReachable(arrivals, work, i);
  }

  // ----- a restart that loses work -----

  /** Genesis, a heavy child of it, and a lighter child of it that names the heavy one as uncle. */
  ghost predicate HeavyUncleStory(g: Arrival, t: Arrival, a: Arrival, work: ShareHeader -> nat) {
    && Parents(g.share.header) == [ALL_ZEROS]
    && t.share.header.prevShareBlockhash == g.share.Hash() && t.share.header.uncles == []
    && a.share.header.prevShareBlockhash == g.share.Hash() && a.share.header.uncles == [t.share.Hash()]
    && work(a.share.header) < work(t.share.header)
  }

  lemma StoryIsTame(g: Arrival, t: Arrival, a: Arrival, work: ShareHeader -> nat)
    requires HeavyUncleStory(g, t, a, work)
    ensures Tame([g, t, a])
  {
    var arrivals := [g, t, a];
    var hg, ht, ha := g.share.Hash(), t.share.Hash(), a.share.Hash();
    GenesisParents(g.share.header);
    ParentShallower(t.share.header, hg);
    ParentShallower(a.share.header, hg);
    ParentShallower(a.share.header, ht);
    assert arrivals[..1] == [g] && arrivals[..2] == [g, t];
    assert [g][0] == g && [g, t][0] == g && [g, t][1] == t;
    assert Parents(t.share.header) == [hg] && Parents(a.share.header) == [hg, ht];
    assert Arrived([g], hg) && Arrived([g, t], hg) && Arrived([g, t], ht);
    assert Generation(hg) == 1 && Generation(ht) == 2 && Generation(ha) == 2;
    assert !Ancestral(ALL_ZEROS, ht);
    assert !Ancestral(hg, ht);
    assert !Ancestral(ha, ht);
  }

  /** Every tip a restart can reload is lighter than the live chain tip, so the total falls. */
  lemma RestartLosesWork(g: Arrival, t: Arrival, a: Arrival, work: ShareHeader -> nat, x: BlockHash)
    requires HeavyUncleStory(g, t, a, work)
    ensures var arrivals := [g, t, a];
            var db, live := DbAfter(arrivals, work), LiveAfter(arrivals, work);
            && Orderly(arrivals) && SharesPast(arrivals, work)
            && (IsTip(db, g.share.Hash(), x) ==> ChainWork(db, x) < ChainWork(db, live.tip))
  {
    var arrivals := [g, t, a];
    StoryIsTame(g, t, a, work);
    TameSharesPast(arrivals, work);
    TipIsHeaviest(arrivals, work);
    OrderlyWorkAddsUp(arrivals, work);
    assert arrivals[1] == t && arrivals[2] == a && arrivals[0] == g;
    assert Arrived(arrivals, t.share.Hash());
    TipsSurvive(arrivals, work, x);
    LiveTipsAre(arrivals, work, x);
    if Open(arrivals, x) {
      OnlyLastIsOpen(g, t, a, work, x);
    }
  }

  lemma OnlyLastIsOpen(g: Arrival, t: Arrival, a: Arrival, work: ShareHeader -> nat, x: BlockHash)
    requires HeavyUncleStory(g, t, a, work) && Open([g, t, a], x)
    ensures x == a.share.Hash()
  {
    var arrivals := [g, t, a];
    assert g.share.Hash() in Parents(arrivals[1].share.header) && t.share.Hash() in Parents(arrivals[2].share.header);
  }

  /** Such shares exist, so the total of a store does fall. */
  lemma StoryHappens() returns (g: Arrival, t: Arrival, a: Arrival, work: ShareHeader -> nat)
    ensures HeavyUncleStory(g, t, a, work)
  {
    var gh := ShareHeader(ALL_ZEROS, [], 0, 0, 0, 1, 0);
    var th := ShareHeader(HashOf(gh), [], 1, 0, 0, 5, 0);
    var ah := ShareHeader(HashOf(gh), [HashOf(th)], 2, 0, 0, 1, 0);
    g, t, a := Arrival(ShareBlock(gh, [], []), true), Arrival(ShareBlock(th, [], []), false),
        Arrival(ShareBlock(ah, [], []), false);
    work := (h: ShareHeader) => h.bits;
  }
}
