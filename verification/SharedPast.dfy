/** Orderly arrivals whose heights stay within the depth looked at always share a past with the tip they meet. */
module SharedPast {
  import opened Primitives
  import opened Types
  import opened Database
  import opened Runs
  import opened IndexTheorems
  import opened CommonAncestor
  import opened LiveChain
  import opened LiveWork
  import Confirmations
  import DagWalk

  /** How many headers lie between a hash and the start of its chain, itself included. */
  function Generation(b: BlockHash): nat {
    match b
    case RawHash(_) => 0
    case HashOf(h) => 1 + Generation(h.prevShareBlockhash)
  }

  /** `a` is a prev-ancestor of `b`; a header holds its parent's hash, so this is in the hash alone. */
  predicate Ancestral(b: BlockHash, a: BlockHash) {
    b.HashOf? && (b.header.prevShareBlockhash == a || Ancestral(b.header.prevShareBlockhash, a))
  }

  lemma {:induction false} AncestralTrans(c: BlockHash, b: BlockHash, a: BlockHash)
    requires Ancestral(c, b) && Ancestral(b, a)
    ensures Ancestral(c, a)
  {
    if c.header.prevShareBlockhash == b {
    } else {
      AncestralTrans(c.header.prevShareBlockhash, b, a);
    }
  }

  /** No share names its own prev-ancestor as an uncle. */
  ghost predicate NoShortcut(arrivals: seq<Arrival>) {
    forall i, u :: 0 <= i < |arrivals| && u in arrivals[i].share.header.uncles ==>
        !Ancestral(arrivals[i].share.Hash(), u)
  }

  ghost predicate Shallow(arrivals: seq<Arrival>) {
    forall i :: 0 <= i < |arrivals| ==> Generation(arrivals[i].share.Hash()) <= COMMON_ANCESTOR_DEPTH
  }

  // ----- the stored headers -----

  lemma HeaderIffArrived(arrivals: seq<Arrival>, work: ShareHeader -> nat, b: BlockHash)
    ensures b in HeadersOf(DbAfter(arrivals, work)) <==> Arrived(arrivals, b)
    ensures Arrived(arrivals, b) ==> HashOf(HeadersOf(DbAfter(arrivals, work))[b]) == b
  {
    AddedIsArrived(arrivals, work, b);
    RunRecord(LiveAfter(arrivals, work).run, BlockKey(b));
    if Arrived(arrivals, b) {
      StoredHeader(arrivals, work, b);
    }
  }

  lemma ArrivedEarlier(arrivals: seq<Arrival>, i: nat, p: BlockHash)
    requires i <= |arrivals| && Arrived(arrivals[..i], p)
    ensures Arrived(arrivals, p)
  {
    var k :| 0 <= k < i && arrivals[..i][k].share.Hash() == p;
    assert arrivals[k].share.Hash() == p;
  }

  lemma ParentsArrived(arrivals: seq<Arrival>, header: ShareHeader, p: BlockHash)
    requires Orderly(arrivals) && Arrived(arrivals, HashOf(header)) && p in Parents(header)
    ensures if HashOf(header) == Genesis(arrivals) then p == ALL_ZEROS else Arrived(arrivals, p)
  {
    var i :| 0 <= i < |arrivals| && arrivals[i].share.Hash() == HashOf(header);
    if i > 0 {
      assert arrivals[0].share.Hash() != arrivals[i].share.Hash();
      ArrivedEarlier(arrivals, i, p);
    }
  }

  /** The stored headers are a well-formed store. */
  lemma OrderlyWellFormed(arrivals: seq<Arrival>, work: ShareHeader -> nat)
    requires Orderly(arrivals)
    ensures DagWalk.WellFormed(HeadersOf(DbAfter(arrivals, work)), Genesis(arrivals))
  {
    var headers, genesis := HeadersOf(DbAfter(arrivals, work)), Genesis(arrivals);
    forall b ensures (b in headers <==> Arrived(arrivals, b)) && (b in headers ==> HashOf(headers[b]) == b) {
      HeaderIffArrived(arrivals, work, b);
    }
    forall b, p | b in headers && p in Parents(headers[b])
      ensures if b == genesis then p == ALL_ZEROS else p in headers
    {
      ParentsArrived(arrivals, headers[b], p);
    }
    forall b | b in headers ensures headers[b].prevShareBlockhash in Parents(headers[b]) {
    }
    forall b, u | b in headers && u in headers[b].uncles ensures u in Parents(headers[b]) {
    }
    assert Arrived(arrivals, genesis);
    assert headers[genesis] == arrivals[0].share.header;
    GenesisParents(arrivals[0].share.header);
    assert !Arrived(arrivals, ALL_ZEROS);
  }

  lemma GenesisParents(header: ShareHeader)
    requires Parents(header) == [ALL_ZEROS]
    ensures header.prevShareBlockhash == ALL_ZEROS && header.uncles == []
  {
    assert Parents(header)[0] == header.prevShareBlockhash;
    assert header.uncles == Parents(header)[1..];
  }

  // ----- both walks reach genesis -----

  lemma {:induction false} ReachesGenesis(arrivals: seq<Arrival>, work: ShareHeader -> nat, b: BlockHash, n: nat)
    requires Orderly(arrivals) && Arrived(arrivals, b) && Generation(b) <= n
    ensures Genesis(arrivals) in DagWalk.MainChain(HeadersOf(DbAfter(arrivals, work)), b, n)
    decreases n
  {
    var headers := HeadersOf(DbAfter(arrivals, work));
    HeaderIffArrived(arrivals, work, b);
    var p := headers[b].prevShareBlockhash;
    if b == Genesis(arrivals) {
      assert DagWalk.MainChain(headers, b, n)[0] == b;
    } else {
      assert p in Parents(headers[b]);
      ParentsArrived(arrivals, headers[b], p);
      ReachesGenesis(arrivals, work, p, n - 1);
    }
  }

  lemma {:induction false} ChainIsAncestral(headers: Headers, b: BlockHash, n: nat, i: nat, k: nat)
    requires DagWalk.Keyed(headers) && i < k < |DagWalk.MainChain(headers, b, n)|
    ensures Ancestral(DagWalk.MainChain(headers, b, n)[i], DagWalk.MainChain(headers, b, n)[k])
    decreases k
  {
    var ms := DagWalk.MainChain(headers, b, n);
    DagWalk.MainChainAt(headers, b, n, k - 1);
    assert ms[k - 1] in ms && Ancestral(ms[k - 1], ms[k]);
    if i < k - 1 {
      ChainIsAncestral(headers, b, n, i, k - 1);
      AncestralTrans(ms[i], ms[k - 1], ms[k]);
    }
  }

  lemma NoShortcutIsUncut(arrivals: seq<Arrival>, work: ShareHeader -> nat, b: BlockHash, n: nat)
    requires Orderly(arrivals) && NoShortcut(arrivals)
    ensures Uncut(HeadersOf(DbAfter(arrivals, work)), b, n)
  {
    var headers := HeadersOf(DbAfter(arrivals, work));
    var ms := DagWalk.MainChain(headers, b, n);
    OrderlyWellFormed(arrivals, work);
    forall i: nat, k: nat | i < k < |ms| ensures ms[k] !in DagWalk.UnclesAt(headers, ms, i) {
      assert ms[i] in ms;
      HeaderIffArrived(arrivals, work, ms[i]);
      var j :| 0 <= j < |arrivals| && arrivals[j].share.Hash() == ms[i];
      ChainIsAncestral(headers, b, n, i, k);
    }
  }

  lemma GenesisInDag(arrivals: seq<Arrival>, work: ShareHeader -> nat, b: BlockHash)
    requires Orderly(arrivals) && NoShortcut(arrivals) && Arrived(arrivals, b) && Generation(b) <= COMMON_ANCESTOR_DEPTH
    ensures Genesis(arrivals) in Dag(HeadersOf(DbAfter(arrivals, work)), b, COMMON_ANCESTOR_DEPTH)
  {
    var headers := HeadersOf(DbAfter(arrivals, work));
    OrderlyWellFormed(arrivals, work);
    ReachesGenesis(arrivals, work, b, COMMON_ANCESTOR_DEPTH);
    NoShortcutIsUncut(arrivals, work, b, COMMON_ANCESTOR_DEPTH);
    UncutIsMet(headers, b, COMMON_ANCESTOR_DEPTH);
    MainInDag(headers, Genesis(arrivals), b, COMMON_ANCESTOR_DEPTH, Genesis(arrivals));
  }

  /** What the arrivals so far must be like. */
  ghost predicate Tame(arrivals: seq<Arrival>) {
    Orderly(arrivals) && NoShortcut(arrivals) && Shallow(arrivals)
  }

  lemma TameInit(arrivals: seq<Arrival>, a: Arrival)
    requires arrivals != [] && Tame(arrivals + [a])
    ensures Tame(arrivals)
  {
    var all := arrivals + [a];
    OrderlyInit(arrivals, a);
    assert forall i :: 0 <= i < |arrivals| ==> all[i] == arrivals[i];
  }

  lemma ShallowAt(arrivals: seq<Arrival>, b: BlockHash)
    requires Shallow(arrivals) && Arrived(arrivals, b)
    ensures Generation(b) <= COMMON_ANCESTOR_DEPTH
  {
  }

  lemma TameMeetsTip(arrivals: seq<Arrival>, a: Arrival, work: ShareHeader -> nat)
    requires arrivals != [] && Tame(arrivals + [a])
    ensures MeetsTip(arrivals, a, work)
  {
    var all, b, tip := arrivals + [a], a.share.Hash(), LiveAfter(arrivals, work).tip;
    var headers := HeadersOf(DbAfter(all, work));
    LiveIsSet(arrivals, work);
    ArrivedPush(arrivals, a, b);
    ArrivedPush(arrivals, a, tip);
    ShallowAt(all, b);
    ShallowAt(all, tip);
    GenesisInDag(all, work, b);
    GenesisInDag(all, work, tip);
    NoneIffDisjoint(headers, b, tip, COMMON_ANCESTOR_DEPTH);
  }

  /** While no share names its own ancestor as uncle and heights stay below the depth, every arrival meets the tip. */
  lemma TameSharesPast(arrivals: seq<Arrival>, work: ShareHeader -> nat)
    requires Tame(arrivals)
    ensures SharesPast(arrivals, work)
  {
    var good := (xs: seq<Arrival>) => Tame(xs);
    var holds := (xs: seq<Arrival>) => SharesPast(xs, work);
    forall xs, a | xs != [] && good(xs + [a]) ensures good(xs) {
      TameInit(xs, a);
    }
    forall a ensures holds([a]) {
    }
    forall xs, a | xs != [] && good(xs + [a]) && holds(xs) ensures holds(xs + [a]) {
      TameMeetsTip(xs, a, work);
      assert (xs + [a])[..|xs + [a]| - 1] == xs;
    }
    ByArrivals(good, holds, arrivals);
  }

  // ----- recorded heights -----

  ghost predicate HeightsIn(arrivals: seq<Arrival>, db: Db) {
    forall b :: Arrived(arrivals, b) ==> MetadataHeight(db, b) == Some(Generation(b) - 1)
  }

  ghost predicate HeightsRecorded(arrivals: seq<Arrival>, work: ShareHeader -> nat) {
    HeightsIn(arrivals, DbAfter(arrivals, work))
  }

  lemma FirstHeight(a: Arrival, work: ShareHeader -> nat)
    requires Orderly([a])
    ensures HeightsRecorded([a], work)
  {
    var none: seq<Arrival>, run, calls := [], LiveAfter([a], work).run,
        Confirmations.GenesisBatch(a.share, work(a.share.header));
    GenesisParents(a.share.header);
    assert none + [a] == [a];
    LiveAfterPush(none, a, work);
    CallsPush([], calls);
    assert Calls(run) == calls;
    forall b | Arrived([a], b) ensures MetadataHeight(DbAfter([a], work), b) == Some(Generation(b) - 1) {
      MetadataHeightIs(run, b);
      LastIsFirst(calls, b);
    }
  }

  lemma LastIsFirst(calls: seq<Call>, b: BlockHash)
    requires |calls| == 2 && Adds(calls[0], b) && !calls[1].AddShareCall?
    ensures LastAdd(calls, b) == Some(calls[0])
  {
    assert calls[..1] == [calls[0]];
  }

  /** `next` records `header` one above its parent, and everything else as `db` does. */
  ghost predicate OneAbove(db: Db, next: Db, header: ShareHeader) {
    forall b ::
      MetadataHeight(next, b)
      == if b == HashOf(header) then Some(OrZero(MetadataHeight(db, header.prevShareBlockhash)) + 1)
         else MetadataHeight(db, b)
  }

  function OrZero(h: Option<nat>): nat {
    if h.Some? then h.value else 0
  }

  lemma PlaceHeight(db: Db, next: Db, header: ShareHeader, work: ShareHeader -> nat, b: BlockHash)
    requires MetadataHeight(db, header.prevShareBlockhash).Some?
    requires GetMetadata(next, b)
          == if b == HashOf(header)
             then var (height, chainWork) := PlaceOf(db, header, work); Some(BlockMetadata(Some(height), chainWork))
             else GetMetadata(db, b)
    ensures MetadataHeight(next, b)
         == if b == HashOf(header) then Some(OrZero(MetadataHeight(db, header.prevShareBlockhash)) + 1)
            else MetadataHeight(db, b)
  {
  }

  ghost predicate Recorded(db: Db, next: Db, header: ShareHeader, work: ShareHeader -> nat) {
    var (height, chainWork) := PlaceOf(db, header, work);
    forall b :: GetMetadata(next, b) == if b == HashOf(header) then Some(BlockMetadata(Some(height), chainWork))
        else GetMetadata(db, b)
  }

  lemma ArrivalRecorded(arrivals: seq<Arrival>, a: Arrival, work: ShareHeader -> nat)
    requires arrivals != []
    ensures Recorded(DbAfter(arrivals, work), DbAfter(arrivals + [a], work), a.share.header, work)
  {
    forall b { RecordAfter(arrivals, a, work, b); }
  }

  lemma RecordedIsOneAbove(db: Db, next: Db, header: ShareHeader, work: ShareHeader -> nat)
    requires Recorded(db, next, header, work) && MetadataHeight(db, header.prevShareBlockhash).Some?
    ensures OneAbove(db, next, header)
  {
    forall b { PlaceHeight(db, next, header, work, b); }
  }

  lemma HeightsMove(arrivals: seq<Arrival>, a: Arrival, db: Db, next: Db)
    requires HeightsIn(arrivals, db) && Arrived(arrivals, a.share.header.prevShareBlockhash)
    requires OneAbove(db, next, a.share.header)
    ensures HeightsIn(arrivals + [a], next)
  {
    forall b | Arrived(arrivals + [a], b) ensures MetadataHeight(next, b) == Some(Generation(b) - 1) {
      ArrivedPush(arrivals, a, b);
    }
  }

  lemma HeightPush(arrivals: seq<Arrival>, a: Arrival, work: ShareHeader -> nat)
    requires arrivals != [] && Orderly(arrivals + [a]) && HeightsRecorded(arrivals, work)
    ensures HeightsRecorded(arrivals + [a], work)
  {
    OrderlyInit(arrivals, a);
    assert a.share.header.prevShareBlockhash in Parents(a.share.header);
    assert Arrived(arrivals, a.share.header.prevShareBlockhash);
    ArrivalRecorded(arrivals, a, work);
    RecordedIsOneAbove(DbAfter(arrivals, work), DbAfter(arrivals + [a], work), a.share.header, work);
    HeightsMove(arrivals, a, DbAfter(arrivals, work), DbAfter(arrivals + [a], work));
  }

  /** Every share is recorded at the length of its chain below it. */
  lemma RecordedHeights(arrivals: seq<Arrival>, work: ShareHeader -> nat)
    requires Orderly(arrivals)
    ensures HeightsRecorded(arrivals, work)
  {
    var good := (xs: seq<Arrival>) => Orderly(xs);
    var holds := (xs: seq<Arrival>) => !Orderly(xs) || HeightsRecorded(xs, work);
    forall xs, a | xs != [] && good(xs + [a]) ensures good(xs) {
      OrderlyInit(xs, a);
    }
    forall a ensures holds([a]) {
      if Orderly([a]) {
        FirstHeight(a, work);
      }
    }
    forall xs, a | xs != [] && good(xs + [a]) && holds(xs) ensures holds(xs + [a]) {
      OrderlyInit(xs, a);
      HeightPush(xs, a, work);
    }
    ByArrivals(good, holds, arrivals);
  }

  /** The same, with the condition on the recorded heights: below the depth of 2160. */
  lemma LowSharesPast(arrivals: seq<Arrival>, work: ShareHeader -> nat)
    requires Orderly(arrivals) && NoShortcut(arrivals)
    requires forall b :: Arrived(arrivals, b) ==>
               var h := MetadataHeight(DbAfter(arrivals, work), b); h.Some? ==> h.value < 2160
    ensures SharesPast(arrivals, work)
  {
    RecordedHeights(arrivals, work);
    forall i | 0 <= i < |arrivals| ensures Generation(arrivals[i].share.Hash()) <= COMMON_ANCESTOR_DEPTH {
      assert Arrived(arrivals, arrivals[i].share.Hash());
    }
    TameSharesPast(arrivals, work);
  }
}
