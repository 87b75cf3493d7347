/** Chain work while shares arrive: what each records, and when the chain tip is the heaviest share. */
module LiveWork {
  import opened Primitives
  import opened Types
  import opened Database
  import opened Runs
  import opened IndexTheorems
  import opened ChainState
  import opened CommonAncestor
  import opened LiveChain
  import DagWalk

  /** An arrival records its own place and leaves every other record alone. */
  lemma RecordAfter(arrivals: seq<Arrival>, a: Arrival, work: ShareHeader -> nat, b: BlockHash)
    requires arrivals != []
    ensures GetMetadata(DbAfter(arrivals + [a], work), b)
         == if b == a.share.Hash()
            then var (height, chainWork) := PlaceOf(DbAfter(arrivals, work), a.share.header, work);
                 Some(BlockMetadata(Some(height), chainWork))
            else GetMetadata(DbAfter(arrivals, work), b)
  {
    NextArrival(arrivals, a, work);
    var (height, chainWork) := PlaceOf(DbAfter(arrivals, work), a.share.header, work);
    RecordPush(LiveAfter(arrivals, work).run, AddShareCall(a.share, height, chainWork, a.confirmTxs), b);
  }

  /** The record the last addition of `b` leaves. */
  function LastRecord(calls: seq<Call>, b: BlockHash): Option<BlockMetadata> {
    var last := LastAdd(calls, b);
    if last.Some? && last.value.AddShareCall?
        then Some(BlockMetadata(Some(last.value.height), last.value.chainWork)) else None
  }

  lemma RecordIsLast(run: Run, b: BlockHash)
    ensures GetMetadata(After(map[], run), b) == LastRecord(Calls(run), b)
  {
    RunRecord(run, MetadataKey(b));
    LastAddFacts(Calls(run), b);
  }

  lemma LastRecordPush(calls: seq<Call>, c: Call, b: BlockHash)
    requires c.AddShareCall?
    ensures LastRecord(calls + [c], b) == if Adds(c, b) then Some(BlockMetadata(Some(c.height), c.chainWork))
            else LastRecord(calls, b)
  {
    assert (calls + [c])[..|calls + [c]| - 1] == calls;
  }

  lemma RecordPush(run: Run, c: Call, b: BlockHash)
    requires c.AddShareCall?
    ensures GetMetadata(After(map[], run + [[c]]), b)
         == if Adds(c, b) then Some(BlockMetadata(Some(c.height), c.chainWork)) else GetMetadata(After(map[], run), b)
  {
    RecordIsLast(run, b);
    RecordIsLast(run + [[c]], b);
    CallsPush(run, [c]);
    LastRecordPush(Calls(run), c, b);
  }

  /** No arrived share has more chain work than `bound`. */
  ghost predicate AtMost(arrivals: seq<Arrival>, db: Db, bound: nat) {
    forall b :: Arrived(arrivals, b) ==> ChainWork(db, b) <= bound
  }

  ghost predicate SameElsewhere(db: Db, next: Db, h: BlockHash) {
    forall b :: b != h ==> ChainWork(next, b) == ChainWork(db, b)
  }

  lemma AtMostPush(arrivals: seq<Arrival>, a: Arrival, db: Db, next: Db, bound: nat)
    requires SameElsewhere(db, next, a.share.Hash()) && !Arrived(arrivals, a.share.Hash())
    ensures AtMost(arrivals + [a], next, bound) <==>
              AtMost(arrivals, db, bound) && ChainWork(next, a.share.Hash()) <= bound
  {
    forall b ensures Arrived(arrivals + [a], b) <==> Arrived(arrivals, b) || b == a.share.Hash() {
      ArrivedPush(arrivals, a, b);
    }
    if AtMost(arrivals + [a], next, bound) {
      assert Arrived(arrivals + [a], a.share.Hash());
      forall b | Arrived(arrivals, b) ensures ChainWork(db, b) <= bound {
        assert Arrived(arrivals + [a], b);
      }
    }
  }

  lemma AtMostIff(arrivals: seq<Arrival>, db: Db, tip: BlockHash, bound: nat)
    requires Arrived(arrivals, tip) && AtMost(arrivals, db, ChainWork(db, tip))
    ensures AtMost(arrivals, db, bound) <==> ChainWork(db, tip) <= bound
  {
  }

  ghost predicate Heaviest(arrivals: seq<Arrival>, work: ShareHeader -> nat) {
    AtMost(arrivals, DbAfter(arrivals, work), ChainWork(DbAfter(arrivals, work), LiveAfter(arrivals, work).tip))
  }

  lemma WorkAfter(arrivals: seq<Arrival>, a: Arrival, work: ShareHeader -> nat)
    requires arrivals != []
    ensures SameElsewhere(DbAfter(arrivals, work), DbAfter(arrivals + [a], work), a.share.Hash())
    ensures ChainWork(DbAfter(arrivals + [a], work), a.share.Hash())
            == PlaceOf(DbAfter(arrivals, work), a.share.header, work).1
  {
    var db, next := DbAfter(arrivals, work), DbAfter(arrivals + [a], work);
    forall b | b != a.share.Hash() ensures ChainWork(next, b) == ChainWork(db, b) {
      RecordAfter(arrivals, a, work, b);
    }
    RecordAfter(arrivals, a, work, a.share.Hash());
  }

  /** The choice a later arrival meets. */
  predicate ChoiceAt(arrivals: seq<Arrival>, a: Arrival, work: ShareHeader -> nat) {
    var newWork := PlaceOf(DbAfter(arrivals, work), a.share.header, work).1;
    Switches(DbAfter(arrivals + [a], work), a.share.header, newWork, LiveAfter(arrivals, work).tip, work)
  }

  /** The window work a share is judged by: its own work when its window sums to nothing. */
  function JudgedWork(db: Db, header: ShareHeader, work: ShareHeader -> nat): nat {
    var window := WindowWork(db, HashOf(header), work);
    if window == 0 then work(header) else window
  }

  /**
    With the tip heaviest before, it is heaviest after a new arrival exactly when the two share a past, or the work
    over the window orders the two as the chain work does.
   */
  lemma StaysHeaviestIff(arrivals: seq<Arrival>, a: Arrival, work: ShareHeader -> nat)
    requires arrivals != [] && Heaviest(arrivals, work) && !Arrived(arrivals, a.share.Hash())
    ensures var newWork := PlaceOf(DbAfter(arrivals, work), a.share.header, work).1;
            var total := ChainWork(DbAfter(arrivals, work), LiveAfter(arrivals, work).tip);
            var next, tip := DbAfter(arrivals + [a], work), LiveAfter(arrivals, work).tip;
            Heaviest(arrivals + [a], work) <==>
            || MeetsTip(arrivals, a, work)
            || if JudgedWork(next, a.share.header, work) > WindowWork(next, tip, work) then newWork >= total
                else newWork <= total
  {
    var db, next, tip := DbAfter(arrivals, work), DbAfter(arrivals + [a], work), LiveAfter(arrivals, work).tip;
    var newTip := LiveAfter(arrivals + [a], work).tip;
    LiveIsSet(arrivals, work);
    NextArrival(arrivals, a, work);
    assert newTip == if ChoiceAt(arrivals, a, work) then a.share.Hash() else tip;
    WorkAfter(arrivals, a, work);
    HeaviestMoves(arrivals, a, db, next, tip, newTip);
    assert ChainWork(next, tip) == ChainWork(db, tip);
  }

  lemma HeaviestMoves(arrivals: seq<Arrival>, a: Arrival, db: Db, next: Db, tip: BlockHash, newTip: BlockHash)
    requires Arrived(arrivals, tip) && AtMost(arrivals, db, ChainWork(db, tip)) && !Arrived(arrivals, a.share.Hash())
    requires SameElsewhere(db, next, a.share.Hash()) && (newTip == a.share.Hash() || newTip == tip)
    ensures AtMost(arrivals + [a], next, ChainWork(next, newTip)) <==>
            if newTip == a.share.Hash() then ChainWork(next, newTip) >= ChainWork(db, tip)
            else ChainWork(next, a.share.Hash()) <= ChainWork(db, tip)
  {
    AtMostPush(arrivals, a, db, next, ChainWork(next, newTip));
    AtMostIff(arrivals, db, tip, ChainWork(next, newTip));
  }

  /** Every arrival after the first shares a past, within the depth looked at, with the tip it meets. */
  ghost predicate SharesPast(arrivals: seq<Arrival>, work: ShareHeader -> nat) {
    |arrivals| <= 1 ||
    (SharesPast(arrivals[..|arrivals| - 1], work)
        && MeetsTip(arrivals[..|arrivals| - 1], arrivals[|arrivals| - 1], work))
  }

  ghost predicate MeetsTip(arrivals: seq<Arrival>, a: Arrival, work: ShareHeader -> nat) {
    Ancestor(DbAfter(arrivals + [a], work), a.share.Hash(), LiveAfter(arrivals, work).tip).Some?
  }

  lemma {:induction false} WalkKeepsResults(headers: Headers, s: DagWalk.State)
    ensures s.results <= DagWalk.Walk(headers, s)
    decreases |headers.Keys - s.visited|, |s.queue|
  {
    if !DagWalk.Stopped(headers, s) {
      DagWalk.StepShrinks(headers, s);
      WalkKeepsResults(headers, DagWalk.Step(headers, s));
    }
  }

  /** A walk of depth two or more starts with the block and then its parent. */
  lemma DagStarts(headers: Headers, b: BlockHash, depth: nat)
    requires b in headers && HashOf(headers[b]) == b && depth >= 2
    ensures b in Dag(headers, b, depth)
    ensures var p := headers[b].prevShareBlockhash; p in headers && HashOf(headers[p]) == p ==>
              p in Dag(headers, b, depth)
  {
    var s := DagWalk.Start(b, depth);
    var t := DagWalk.Step(headers, s);
    assert t.results == [b];
    WalkKeepsResults(headers, t);
    assert Dag(headers, b, depth)[0] == b;
    var p := headers[b].prevShareBlockhash;
    if p in headers && HashOf(headers[p]) == p {
      ParentShallower(headers[b], p);
      assert t.queue[0] == DagWalk.Visit(p, true) && p !in t.visited;
      var u := DagWalk.Step(headers, t);
      assert u.results == [b, p];
      WalkKeepsResults(headers, u);
      assert Dag(headers, b, depth)[1] == p;
    }
  }

  lemma StoredHeader(arrivals: seq<Arrival>, work: ShareHeader -> nat, b: BlockHash)
    requires Arrived(arrivals, b)
    ensures b in HeadersOf(DbAfter(arrivals, work)) && HashOf(HeadersOf(DbAfter(arrivals, work))[b]) == b
  {
    var run, db := LiveAfter(arrivals, work).run, DbAfter(arrivals, work);
    AddedIsArrived(arrivals, work, b);
    RunRecord(run, BlockKey(b));
    LastAddFacts(Calls(run), b);
    assert BlockKey(b) in db && db[BlockKey(b)].Share?;
  }

  /** A share that extends the chain tip always shares a past with it. */
  lemma ExtendingMeetsTip(arrivals: seq<Arrival>, a: Arrival, work: ShareHeader -> nat)
    requires arrivals != [] && a.share.header.prevShareBlockhash == LiveAfter(arrivals, work).tip
    ensures MeetsTip(arrivals, a, work)
  {
    var b, tip, headers := a.share.Hash(), LiveAfter(arrivals, work).tip, HeadersOf(DbAfter(arrivals + [a], work));
    LiveIsSet(arrivals, work);
    ArrivedPush(arrivals, a, b);
    ArrivedPush(arrivals, a, tip);
    StoredHeader(arrivals + [a], work, b);
    StoredHeader(arrivals + [a], work, tip);
    ExtendingShares(headers, b, tip);
  }

  lemma ExtendingShares(headers: Headers, b: BlockHash, tip: BlockHash)
    requires b in headers && HashOf(headers[b]) == b && tip in headers && HashOf(headers[tip]) == tip
    requires headers[b].prevShareBlockhash == tip
    ensures CommonAncestorWithin(headers, b, tip, COMMON_ANCESTOR_DEPTH).Some?
  {
    DagStarts(headers, b, COMMON_ANCESTOR_DEPTH);
    DagStarts(headers, tip, COMMON_ANCESTOR_DEPTH);
    NoneIffDisjoint(headers, b, tip, COMMON_ANCESTOR_DEPTH);
  }

  /**
    How the total can fall on restart: a share no heavier than the tip names the tip as uncle, which keeps it tip
    but closes it.
   */
  lemma HeavyUncle(arrivals: seq<Arrival>, a: Arrival, work: ShareHeader -> nat)
    requires arrivals != [] && !Arrived(arrivals, a.share.Hash()) && MeetsTip(arrivals, a, work)
    requires LiveAfter(arrivals, work).tip in a.share.header.uncles
    requires PlaceOf(DbAfter(arrivals, work), a.share.header, work).1
             <= ChainWork(DbAfter(arrivals, work), LiveAfter(arrivals, work).tip)
    ensures LiveAfter(arrivals + [a], work).tip == LiveAfter(arrivals, work).tip
    ensures LiveAfter(arrivals, work).tip !in LiveAfter(arrivals + [a], work).tips
  {
    LiveIsSet(arrivals, work);
    NextArrival(arrivals, a, work);
    WorkAfter(arrivals, a, work);
    assert ChainWork(DbAfter(arrivals + [a], work), LiveAfter(arrivals, work).tip)
           == ChainWork(DbAfter(arrivals, work), LiveAfter(arrivals, work).tip);
  }

  /** Each share arrives once, and shares a past with the tip it meets. */
  ghost predicate Steady(arrivals: seq<Arrival>, work: ShareHeader -> nat) {
    Once(arrivals) && SharesPast(arrivals, work)
  }

  lemma SteadyInit(arrivals: seq<Arrival>, a: Arrival, work: ShareHeader -> nat)
    requires arrivals != [] && Steady(arrivals + [a], work)
    ensures Steady(arrivals, work)
  {
    OnceInit(arrivals, a);
    PastOfInit(arrivals, a, work);
  }

  /** As long as arrivals share a past with the tip, the chain tip has the largest chain work of all shares. */
  lemma TipIsHeaviest(arrivals: seq<Arrival>, work: ShareHeader -> nat)
    requires arrivals != [] && Steady(arrivals, work)
    ensures Heaviest(arrivals, work)
  {
    var good := (xs: seq<Arrival>) => Steady(xs, work);
    var holds := (xs: seq<Arrival>) => Heaviest(xs, work);
    forall xs, a | xs != [] && good(xs + [a]) ensures good(xs) {
      SteadyInit(xs, a, work);
    }
    forall a ensures holds([a]) {
      AloneIsHeaviest([a], work);
    }
    forall xs, a | xs != [] && good(xs + [a]) && holds(xs) ensures holds(xs + [a]) {
      StepIsHeaviest(xs, a, work);
    }
    ByArrivals(good, holds, arrivals);
  }

  lemma PastOfInit(arrivals: seq<Arrival>, a: Arrival, work: ShareHeader -> nat)
    requires arrivals != [] && SharesPast(arrivals + [a], work)
    ensures SharesPast(arrivals, work) && MeetsTip(arrivals, a, work)
  {
    assert (arrivals + [a])[..|arrivals + [a]| - 1] == arrivals;
  }

  lemma AloneIsHeaviest(arrivals: seq<Arrival>, work: ShareHeader -> nat)
    requires |arrivals| == 1
    ensures Heaviest(arrivals, work)
  {
    assert arrivals[..0] == [];
    assert LiveAfter(arrivals, work).tip == arrivals[0].share.Hash();
  }

  lemma StepIsHeaviest(arrivals: seq<Arrival>, a: Arrival, work: ShareHeader -> nat)
    requires arrivals != [] && Steady(arrivals + [a], work) && Heaviest(arrivals, work)
    ensures Heaviest(arrivals + [a], work)
  {
    PastOfInit(arrivals, a, work);
    OnceInit(arrivals, a);
    StaysHeaviestIff(arrivals, a, work);
  }

  lemma TipRecordKept(arrivals: seq<Arrival>, a: Arrival, work: ShareHeader -> nat)
    requires arrivals != [] && Once(arrivals + [a])
    ensures !Arrived(arrivals, a.share.Hash())
    ensures ChainWork(DbAfter(arrivals + [a], work), LiveAfter(arrivals, work).tip)
            == ChainWork(DbAfter(arrivals, work), LiveAfter(arrivals, work).tip)
  {
    OnceInit(arrivals, a);
    LiveIsSet(arrivals, work);
    RecordAfter(arrivals, a, work, LiveAfter(arrivals, work).tip);
  }
}
