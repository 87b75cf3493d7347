/** What the work over the PPLNS window comes to, and when it decides the chain tip. */
module Window {
  import opened Primitives
  import opened Types
  import opened Database
  import opened IndexTheorems
  import opened ChainState
  import opened CommonAncestor
  import opened LiveChain
  import opened LiveWork
  import opened SharedPast
  import opened Restart
  import Confirmations
  import DagWalk
  import Runs

  /** The work of one block, nothing if it is not stored. */
  function WorkOf(headers: Headers, b: BlockHash, work: ShareHeader -> nat): nat {
    if b in headers then work(headers[b]) else 0
  }

  // ----- the sum over a set of blocks -----

  /** The work of a set of blocks, each counted once. */
  ghost function TotalWork(headers: Headers, s: set<BlockHash>, work: ShareHeader -> nat): nat {
    if s == {} then 0
    else
      var b :| b in s;
      WorkOf(headers, b, work) + TotalWork(headers, s - {b}, work)
  }

  /** Any block may be counted first. */
  lemma {:induction false} TotalWithout(headers: Headers, s: set<BlockHash>, work: ShareHeader -> nat, b: BlockHash)
    requires b in s
    ensures TotalWork(headers, s, work) == WorkOf(headers, b, work) + TotalWork(headers, s - {b}, work)
    decreases |s|
  {
    var c :| c in s && TotalWork(headers, s, work) == WorkOf(headers, c, work) + TotalWork(headers, s - {c}, work);
    if c != b {
      TotalWithout(headers, s - {c}, work, b);
      TotalWithout(headers, s - {b}, work, c);
      assert s - {c} - {b} == s - {b} - {c};
    }
  }

  /** The loop over a list without repeats adds up the work of its blocks. */
  lemma {:induction false} SumIsTotal(headers: Headers, hashes: seq<BlockHash>, work: ShareHeader -> nat)
    requires NoDup(hashes)
    ensures SumWork(headers, hashes, work) == TotalWork(headers, Elements(hashes), work)
  {
    if hashes == [] {
    } else {
      var init, b := hashes[..|hashes| - 1], hashes[|hashes| - 1];
      SumIsTotal(headers, init, work);
      assert hashes == init + [b];
      assert Elements(hashes) - {b} == Elements(init);
      TotalWithout(headers, Elements(hashes), work, b);
    }
  }

  /** `x` is a main-chain block met within 2160 of `b`, or an uncle of one. */
  ghost predicate InWindow(headers: Headers, b: BlockHash, x: BlockHash) {
    var met := DagWalk.Met(headers, b, 2160);
    x in met || exists i :: 0 <= i < |met| && met[i] in headers && x in headers[met[i]].uncles
  }

  ghost function Blocks(headers: Headers, b: BlockHash): set<BlockHash> {
    set x | x in headers && InWindow(headers, b, x)
  }

  lemma DagIsWindow(headers: Headers, genesis: BlockHash, b: BlockHash, x: BlockHash)
    requires DagWalk.WellFormed(headers, genesis)
    ensures x in Dag(headers, b, 2160) <==> InWindow(headers, b, x)
  {
    DagWalk.WalkMembers(headers, genesis, b, 2160);
    var met := DagWalk.Met(headers, b, 2160);
    assert forall i :: 0 <= i < |met| ==> met[i] in met;
  }

  lemma InWindowStored(headers: Headers, genesis: BlockHash, b: BlockHash, x: BlockHash)
    requires DagWalk.WellFormed(headers, genesis) && InWindow(headers, b, x)
    ensures x in headers
  {
    var met := DagWalk.Met(headers, b, 2160);
    if x in met {
      var i :| 0 <= i < |met| && met[i] == x;
      assert DagWalk.MainChain(headers, b, 2160)[i] in DagWalk.MainChain(headers, b, 2160);
    }
  }

  /** The window work is the work of exactly the main-chain blocks met and their uncles, each once. */
  lemma WindowWorkIs(headers: Headers, genesis: BlockHash, db: Db, b: BlockHash, work: ShareHeader -> nat)
    requires headers == HeadersOf(db) && DagWalk.WellFormed(headers, genesis)
    ensures WindowWork(db, b, work) == TotalWork(headers, Blocks(headers, b), work)
  {
    var dag := Dag(headers, b, 2160);
    DagWalk.WalkMembers(headers, genesis, b, 2160);
    SumIsTotal(headers, dag, work);
    forall x ensures x in Elements(dag) <==> x in Blocks(headers, b) {
      DagIsWindow(headers, genesis, b, x);
      if InWindow(headers, b, x) {
        InWindowStored(headers, genesis, b, x);
      }
    }
    assert Elements(dag) == Blocks(headers, b);
  }

  // ----- without uncles -----

  /** The hash below the first `n` blocks of the main chain from `b`. */
  function Below(headers: Headers, b: BlockHash, n: nat): BlockHash
    decreases n
  {
    if n == 0 || b !in headers then b else Below(headers, headers[b].prevShareBlockhash, n - 1)
  }

  lemma {:induction false} SumHead(headers: Headers, b: BlockHash, hashes: seq<BlockHash>, work: ShareHeader -> nat)
    ensures SumWork(headers, [b] + hashes, work) == WorkOf(headers, b, work) + SumWork(headers, hashes, work)
  {
    if hashes == [] {
      assert [b] + hashes == [b] && [b][..0] == [];
    } else {
      var init := hashes[..|hashes| - 1];
      SumHead(headers, b, init, work);
      assert ([b] + hashes)[..|hashes|] == [b] + init;
    }
  }

  /** Every stored share has the work of its parent and its own. */
  ghost predicate AddsUp(headers: Headers, db: Db, work: ShareHeader -> nat) {
    forall b :: b in headers ==>
      ChainWork(db, b) == ChainWork(db, headers[b].prevShareBlockhash) + work(headers[b])
  }

  /** The chain work of a block is that of its main chain and of what lies below. */
  lemma {:induction false} ChainWorkIs(headers: Headers, db: Db, work: ShareHeader -> nat, b: BlockHash, n: nat)
    requires AddsUp(headers, db, work)
    ensures ChainWork(db, b)
         == SumWork(headers, DagWalk.MainChain(headers, b, n), work) + ChainWork(db, Below(headers, b, n))
    decreases n
  {
    if n == 0 || b !in headers {
    } else {
      var prev := headers[b].prevShareBlockhash;
      ChainWorkIs(headers, db, work, prev, n - 1);
      SumHead(headers, b, DagWalk.MainChain(headers, prev, n - 1), work);
    }
  }

  lemma NoRecord(arrivals: seq<Arrival>, work: ShareHeader -> nat, b: BlockHash)
    requires !Arrived(arrivals, b)
    ensures ChainWork(DbAfter(arrivals, work), b) == 0
  {
    AddedIsArrived(arrivals, work, b);
    LastAddFacts(Runs.Calls(LiveAfter(arrivals, work).run), b);
    RecordIsLast(LiveAfter(arrivals, work).run, b);
  }

  ghost predicate GenesisWeighed(arrivals: seq<Arrival>, work: ShareHeader -> nat) {
    arrivals != [] ==> ChainWork(DbAfter(arrivals, work), Genesis(arrivals)) == work(arrivals[0].share.header)
  }

  lemma FirstCalls(a: Arrival, work: ShareHeader -> nat)
    ensures Runs.Calls(LiveAfter([a], work).run) == Confirmations.GenesisBatch(a.share, work(a.share.header))
  {
    var none: seq<Arrival> := [];
    assert none + [a] == [a];
    LiveAfterPush(none, a, work);
    CallsPush([], Confirmations.GenesisBatch(a.share, work(a.share.header)));
  }

  lemma GenesisRecord(calls: seq<Runs.Call>, share: ShareBlock, chainWork: nat)
    requires calls == Confirmations.GenesisBatch(share, chainWork)
    ensures LastRecord(calls, share.Hash()) == Some(BlockMetadata(Some(0), chainWork))
  {
    LastIsFirst(calls, share.Hash());
  }

  lemma FirstWork(a: Arrival, work: ShareHeader -> nat)
    ensures GenesisWeighed([a], work)
  {
    FirstCalls(a, work);
    var run := LiveAfter([a], work).run;
    GenesisRecord(Runs.Calls(run), a.share, work(a.share.header));
    RecordIsLast(run, a.share.Hash());
  }

  lemma GenesisWorkPush(arrivals: seq<Arrival>, a: Arrival, work: ShareHeader -> nat)
    requires arrivals != [] && Orderly(arrivals + [a]) && GenesisWeighed(arrivals, work)
    ensures GenesisWeighed(arrivals + [a], work)
  {
    OrderlyInit(arrivals, a);
    OnceInit(arrivals, a);
    assert Arrived(arrivals, Genesis(arrivals));
    RecordAfter(arrivals, a, work, Genesis(arrivals));
    assert (arrivals + [a])[0] == arrivals[0];
  }

  lemma GenesisWork(arrivals: seq<Arrival>, work: ShareHeader -> nat)
    requires Orderly(arrivals)
    ensures GenesisWeighed(arrivals, work)
  {
    var good := (xs: seq<Arrival>) => Orderly(xs);
    var holds := (xs: seq<Arrival>) => GenesisWeighed(xs, work);
    forall xs, a | xs != [] && good(xs + [a]) ensures good(xs) {
      OrderlyInit(xs, a);
    }
    forall a ensures holds([a]) {
      FirstWork(a, work);
    }
    forall xs, a | xs != [] && good(xs + [a]) && holds(xs) ensures holds(xs + [a]) {
      GenesisWorkPush(xs, a, work);
    }
    ByArrivals(good, holds, arrivals);
  }

  lemma OrderlyAddsUp(arrivals: seq<Arrival>, work: ShareHeader -> nat)
    requires Orderly(arrivals)
    ensures AddsUp(HeadersOf(DbAfter(arrivals, work)), DbAfter(arrivals, work), work)
  {
    var db := DbAfter(arrivals, work);
    var headers := HeadersOf(db);
    OrderlyWorkAddsUp(arrivals, work);
    GenesisWork(arrivals, work);
    forall b | b in headers
      ensures ChainWork(db, b) == ChainWork(db, headers[b].prevShareBlockhash) + work(headers[b])
    {
      HeaderIffArrived(arrivals, work, b);
      var i :| 0 <= i < |arrivals| && arrivals[i].share.Hash() == b;
      assert headers[b] == arrivals[i].share.header;
      if i == 0 {
        GenesisParents(arrivals[0].share.header);
        assert !Arrived(arrivals, ALL_ZEROS);
        NoRecord(arrivals, work, ALL_ZEROS);
      }
    }
  }

  /** Beyond its generation a main chain has ended. */
  lemma {:induction false} BelowIsMissing(headers: Headers, b: BlockHash, n: nat)
    requires DagWalk.Keyed(headers) && Generation(b) <= n
    ensures Below(headers, b, n) !in headers
    decreases n
  {
    if b in headers {
      assert b == HashOf(headers[b]);
      BelowIsMissing(headers, headers[b].prevShareBlockhash, n - 1);
    }
  }

  lemma UncleFreeDag(headers: Headers, genesis: BlockHash, b: BlockHash)
    requires DagWalk.WellFormed(headers, genesis) && forall x :: x in headers ==> headers[x].uncles == []
    ensures Dag(headers, b, 2160) == DagWalk.MainChain(headers, b, 2160)
  {
    UncleFreeWalk(headers, genesis, b, 2160);
    DagWalk.WalkMainOrder(headers, genesis, b, 2160);
    AllOnChain(DagWalk.MainChain(headers, b, 2160), Dag(headers, b, 2160));
  }

  lemma {:induction false} AllOnChain(ms: seq<BlockHash>, s: seq<BlockHash>)
    requires forall x :: x in s ==> x in ms
    ensures DagWalk.OnChain(ms, s) == s
  {
    if s == [] {
    } else {
      assert s == s[..|s| - 1] + [s[|s| - 1]];
      AllOnChain(ms, s[..|s| - 1]);
    }
  }

  /**
    After orderly arrivals without uncles the window work of a share is its chain work less that of the block just
    below the window, and all of its chain work while the chain has at most 2160 blocks.
   */
  lemma UncleFreeWindow(arrivals: seq<Arrival>, work: ShareHeader -> nat, b: BlockHash)
    requires Orderly(arrivals) && forall i :: 0 <= i < |arrivals| ==> arrivals[i].share.header.uncles == []
    ensures var db := DbAfter(arrivals, work);
            && ChainWork(db, b) == WindowWork(db, b, work) + ChainWork(db, Below(HeadersOf(db), b, 2160))
            && (Generation(b) <= 2160 ==> ChainWork(db, b) == WindowWork(db, b, work))
  {
    var db := DbAfter(arrivals, work);
    var headers := HeadersOf(db);
    OrderlyWellFormed(arrivals, work);
    OrderlyAddsUp(arrivals, work);
    forall x | x in headers ensures headers[x].uncles == [] {
      HeaderIffArrived(arrivals, work, x);
      var i :| 0 <= i < |arrivals| && arrivals[i].share.Hash() == x;
    }
    UncleFreeDag(headers, Genesis(arrivals), b);
    ChainWorkIs(headers, db, work, b, 2160);
    if Generation(b) <= 2160 {
      BelowIsMissing(headers, b, 2160);
      HeaderIffArrived(arrivals, work, Below(headers, b, 2160));
      NoRecord(arrivals, work, Below(headers, b, 2160));
    }
  }

  // ----- shares whose parent is missing -----

  /** The walk from a share without a stored parent stops there, uncles or not. */
  lemma OrphanDag(headers: Headers, b: BlockHash, depth: nat)
    requires DagWalk.Keyed(headers) && b in headers && headers[b].prevShareBlockhash !in headers && depth >= 2
    ensures Dag(headers, b, depth) == [b]
  {
    var s := DagWalk.Start(b, depth);
    var t := DagWalk.Step(headers, s);
    ParentShallower(headers[b], headers[b].prevShareBlockhash);
    assert t.results == [b];
    assert t.queue[0] == DagWalk.Visit(headers[b].prevShareBlockhash, true);
    assert DagWalk.Stopped(headers, t) && DagWalk.Walk(headers, t) == [b];
  }

  /** So its window work is its own work. */
  lemma OrphanWindow(db: Db, b: BlockHash, work: ShareHeader -> nat)
    requires var headers := HeadersOf(db);
             DagWalk.Keyed(headers) && b in headers && headers[b].prevShareBlockhash !in headers
    ensures WindowWork(db, b, work) == work(HeadersOf(db)[b])
  {
    OrphanDag(HeadersOf(db), b, 2160);
    var none: seq<BlockHash> := [];
    SumHead(HeadersOf(db), b, none, work);
    assert [b] + none == [b];
  }

  // ----- what an arrival records, and when it becomes the chain tip -----

  /** Every arrived share, and no other, has a record, with a height. */
  lemma RecordIffArrived(arrivals: seq<Arrival>, work: ShareHeader -> nat, b: BlockHash)
    ensures var m := GetMetadata(DbAfter(arrivals, work), b);
            (m.Some? <==> Arrived(arrivals, b)) && (m.Some? ==> m.value.expectedHeight.Some?)
  {
    var run := LiveAfter(arrivals, work).run;
    AddedIsArrived(arrivals, work, b);
    LastAddFacts(Runs.Calls(run), b);
    RecordIsLast(run, b);
  }

  /** What is recorded of a share over its parent's record: one higher and its own work more, or at height 1 alone. */
  function OverParent(parent: Option<BlockMetadata>, ownWork: nat): BlockMetadata {
    match parent
    case None => BlockMetadata(Some(1), ownWork)
    case Some(m) =>
      BlockMetadata(Some(1 + (if m.expectedHeight.Some? then m.expectedHeight.value else 0)), m.chainWork + ownWork)
  }

  lemma PlaceIsOverParent(db: Db, header: ShareHeader, work: ShareHeader -> nat)
    ensures BlockMetadata(Some(PlaceOf(db, header, work).0), PlaceOf(db, header, work).1)
         == OverParent(GetMetadata(db, header.prevShareBlockhash), work(header))
  {
  }

  lemma PlaceRecorded(arrivals: seq<Arrival>, a: Arrival, work: ShareHeader -> nat)
    requires arrivals != []
    ensures var header := a.share.header;
            GetMetadata(DbAfter(arrivals + [a], work), a.share.Hash())
            == Some(OverParent(GetMetadata(DbAfter(arrivals, work), header.prevShareBlockhash), work(header)))
  {
    RecordAfter(arrivals, a, work, a.share.Hash());
    PlaceIsOverParent(DbAfter(arrivals, work), a.share.header, work);
  }

  /**
    A new share becomes the chain tip exactly when it has more chain work than the tip, if the two have a common
    ancestor, and otherwise exactly when it has more work over the window; with equal work the tip stays.
   */
  lemma NextTip(arrivals: seq<Arrival>, a: Arrival, work: ShareHeader -> nat)
    requires arrivals != [] && !Arrived(arrivals, a.share.Hash())
    ensures var db, tip, next := DbAfter(arrivals + [a], work), LiveAfter(arrivals, work).tip,
                                 LiveAfter(arrivals + [a], work).tip;
            && tip != a.share.Hash()
            && next == if (if MeetsTip(arrivals, a, work) then ChainWork(db, a.share.Hash()) > ChainWork(db, tip)
                           else JudgedWork(db, a.share.header, work) > WindowWork(db, tip, work))
                       then a.share.Hash() else tip
  {
    LiveIsSet(arrivals, work);
    NextArrival(arrivals, a, work);
    RecordAfter(arrivals, a, work, a.share.Hash());
  }

  lemma ArrivalsKeyed(arrivals: seq<Arrival>, work: ShareHeader -> nat)
    ensures DagWalk.Keyed(HeadersOf(DbAfter(arrivals, work)))
  {
    var headers := HeadersOf(DbAfter(arrivals, work));
    forall b | b in headers ensures HashOf(headers[b]) == b {
      HeaderIffArrived(arrivals, work, b);
    }
  }

  /** A share whose parent never came and that finds no common ancestor is weighed by its own work alone. */
  lemma OrphanBecomesTipIff(arrivals: seq<Arrival>, a: Arrival, work: ShareHeader -> nat)
    requires arrivals != [] && !Arrived(arrivals, a.share.Hash()) && !MeetsTip(arrivals, a, work)
    requires !Arrived(arrivals, a.share.header.prevShareBlockhash)
    ensures LiveAfter(arrivals + [a], work).tip == a.share.Hash() <==>
            work(a.share.header) > WindowWork(DbAfter(arrivals + [a], work), LiveAfter(arrivals, work).tip, work)
  {
    var all, db, prev := arrivals + [a], DbAfter(arrivals + [a], work), a.share.header.prevShareBlockhash;
    NextTip(arrivals, a, work);
    ArrivalsKeyed(all, work);
    NotOwnParent(a.share.header);
    assert prev in Parents(a.share.header);
    ArrivedPush(arrivals, a, prev);
    ArrivedPush(arrivals, a, a.share.Hash());
    HeaderIffArrived(all, work, prev);
    HeaderIffArrived(all, work, a.share.Hash());
    OrphanWindow(db, a.share.Hash(), work);
  }
}
