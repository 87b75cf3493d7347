/**
  `Store::load_chain`: a breadth-first walk of the block index with no visited set.
  A block is put back on the queue every time one of its parents is expanded after it was popped.
 */
module LoadChain {
  import opened Primitives
  import opened Graph
  import opened Types
  import opened BreadthFirst

  type BlockIndex = Index<BlockHash>

  /** Push each item that is not already there: the inner loop's effect on the queue and on the chain. */
  function PushNew(s: seq<BlockHash>, items: seq<BlockHash>): seq<BlockHash> {
    if items == [] then s
    else
      var init := PushNew(s, items[..|items| - 1]);
      if items[|items| - 1] in init then init else init + [items[|items| - 1]]
  }

  lemma {:induction false} PushNewFacts(s: seq<BlockHash>, items: seq<BlockHash>)
    ensures s <= PushNew(s, items)
    ensures forall x :: x in PushNew(s, items) <==> x in s || x in items
    ensures NoDup(s) ==> NoDup(PushNew(s, items))
  {
    if items == [] {
    } else {
      PushNewFacts(s, items[..|items| - 1]);
      assert items == items[..|items| - 1] + [items[|items| - 1]];
    }
  }

  /** One turn of the outer loop, on the queue. */
  function Turn(g: BlockIndex, queue: seq<BlockHash>): seq<BlockHash>
    requires queue != []
  {
    if queue[0] in g then PushNew(queue[1..], g[queue[0]]) else queue[1..]
  }

  /** The queue after `n` turns; an empty queue ends the walk. */
  function QueueAfter(g: BlockIndex, genesis: BlockHash, n: nat): seq<BlockHash> {
    if n == 0 then [genesis]
    else
      var q := QueueAfter(g, genesis, n - 1);
      if q == [] then [] else Turn(g, q)
  }

  ghost predicate Halts(g: BlockIndex, genesis: BlockHash) {
    exists n :: QueueAfter(g, genesis, n) == []
  }

  ghost function ReachableKeys(g: BlockIndex, genesis: BlockHash): set<BlockHash> {
    set x | x in g && Reachable(g, genesis, x)
  }

  lemma ReachableKeysClosed(g: BlockIndex, genesis: BlockHash)
    ensures Closed(g, ReachableKeys(g, genesis))
  {
    var on := ReachableKeys(g, genesis);
    forall a, b | a in on && Edge(g, a, b) && b in g ensures b in on {
      ReachableStep(g, genesis, a, b);
    }
  }

  /** The walk's measure: the number of walks still to be made from the queue. */
  ghost function Total(g: BlockIndex, on: set<BlockHash>, rank: map<BlockHash, nat>, queue: seq<BlockHash>): nat
    requires Ranked(g, on, rank) && Closed(g, on)
  {
    if queue == [] then 0
    else Total(g, on, rank, queue[..|queue| - 1]) + Weight(g, on, rank, queue[|queue| - 1])
  }

  lemma {:induction false} TotalHead(g: BlockIndex, on: set<BlockHash>, rank: map<BlockHash, nat>,
                                     queue: seq<BlockHash>)
    requires Ranked(g, on, rank) && Closed(g, on) && queue != []
    ensures Total(g, on, rank, queue) == Weight(g, on, rank, queue[0]) + Total(g, on, rank, queue[1..])
  {
    if |queue| == 1 {
      assert queue[..0] == [] && queue[1..] == [];
    } else {
      TotalHead(g, on, rank, queue[..|queue| - 1]);
      assert queue[..|queue| - 1][1..] == queue[1..][..|queue| - 2];
    }
  }

  lemma {:induction false} TotalPushNew(g: BlockIndex, on: set<BlockHash>, rank: map<BlockHash, nat>,
                                        queue: seq<BlockHash>, parent: BlockHash, children: seq<BlockHash>)
    requires Ranked(g, on, rank) && Closed(g, on)
    requires parent in on && forall c :: c in children ==> Edge(g, parent, c)
    ensures Total(g, on, rank, PushNew(queue, children)) <= Total(g, on, rank, queue)
            + Weights(g, on, rank, parent, children)
  {
    if children == [] {
    } else {
      var init := children[..|children| - 1];
      TotalPushNew(g, on, rank, queue, parent, init);
      var q := PushNew(queue, init);
      var last := children[|children| - 1];
      assert (q + [last])[..|q + [last]| - 1] == q;
    }
  }

  /** Every turn spends at least one walk. */
  lemma TurnShrinks(g: BlockIndex, on: set<BlockHash>, rank: map<BlockHash, nat>, queue: seq<BlockHash>)
    requires Ranked(g, on, rank) && Closed(g, on) && queue != []
    requires queue[0] in g ==> queue[0] in on
    ensures Total(g, on, rank, Turn(g, queue)) < Total(g, on, rank, queue)
  {
    TotalHead(g, on, rank, queue);
    if queue[0] in g {
      TotalPushNew(g, on, rank, queue[1..], queue[0], g[queue[0]]);
    }
  }

  lemma TurnStaysReachable(g: BlockIndex, genesis: BlockHash, queue: seq<BlockHash>)
    requires queue != [] && forall x :: x in queue ==> Reachable(g, genesis, x)
    ensures forall x :: x in Turn(g, queue) ==> Reachable(g, genesis, x)
  {
    if queue[0] in g {
      PushNewFacts(queue[1..], g[queue[0]]);
      forall x | x in g[queue[0]] ensures Reachable(g, genesis, x) {
        ReachableStep(g, genesis, queue[0], x);
      }
    }
  }

  lemma {:induction false} HaltsFrom(g: BlockIndex, genesis: BlockHash, rank: map<BlockHash, nat>, n: nat)
    requires Ranked(g, ReachableKeys(g, genesis), rank) && Closed(g, ReachableKeys(g, genesis))
    requires forall x :: x in QueueAfter(g, genesis, n) ==> Reachable(g, genesis, x)
    ensures Halts(g, genesis)
    decreases Total(g, ReachableKeys(g, genesis), rank, QueueAfter(g, genesis, n))
  {
    var q := QueueAfter(g, genesis, n);
    if q == [] {
    } else {
      TurnShrinks(g, ReachableKeys(g, genesis), rank, q);
      TurnStaysReachable(g, genesis, q);
      assert QueueAfter(g, genesis, n + 1) == Turn(g, q);
      HaltsFrom(g, genesis, rank, n + 1);
    }
  }

  /** A vertex with arbitrarily long walks stays represented in the queue for ever. */
  lemma {:induction false} CycleKeepsQueue(g: BlockIndex, genesis: BlockHash, cycle: seq<BlockHash>, n: nat)
    returns (p: seq<BlockHash>)
    requires IsPath(g, cycle) && |cycle| >= 2 && cycle[0] == cycle[|cycle| - 1]
    requires Reachable(g, genesis, cycle[0])
    ensures IsPath(g, p) && p[|p| - 1] == cycle[0] && p[0] in QueueAfter(g, genesis, n)
  {
    if n == 0 {
      p :| PathFromTo(g, p, genesis, cycle[0]);
    } else {
      p := CycleKeepsQueue(g, genesis, cycle, n - 1);
      var q := QueueAfter(g, genesis, n - 1);
      if p[0] == q[0] {
        if |p| == 1 {
          p := cycle;
        }
        assert Edge(g, p[0], p[1]);
        PushNewFacts(q[1..], g[q[0]]);
        p := p[1..];
      } else if q[0] in g {
        PushNewFacts(q[1..], g[q[0]]);
      }
    }
  }

  /** The walk ends exactly when no cycle of the block index can be reached from genesis. */
  lemma HaltsIffAcyclic(g: BlockIndex, genesis: BlockHash)
    ensures Halts(g, genesis) <==> AcyclicFrom(g, genesis)
  {
    if AcyclicFrom(g, genesis) {
      ReachableKeysClosed(g, genesis);
      var rank := RankExists(g, genesis, ReachableKeys(g, genesis));
      ReachableSelf(g, genesis);
      HaltsFrom(g, genesis, rank, 0);
    } else {
      var cycle :| IsPath(g, cycle) && |cycle| >= 2 && Reachable(g, genesis, cycle[0]) && cycle[0]
          == cycle[|cycle| - 1];
      forall n: nat ensures QueueAfter(g, genesis, n) != [] {
        var p := CycleKeepsQueue(g, genesis, cycle, n);
      }
    }
  }

  /** `x` needs no further visit: its children are in the chain, or it is a recorded tip. */
  ghost predicate Expanded(g: BlockIndex, chain: seq<BlockHash>, tips: set<BlockHash>, x: BlockHash) {
    if x in g then forall c :: c in g[x] ==> c in chain else x in tips
  }

  /** Once the queue is empty the chain holds every reachable block. */
  lemma ChainComplete(g: BlockIndex, genesis: BlockHash, chain: seq<BlockHash>, tips: set<BlockHash>)
    requires genesis in chain
    requires forall x :: x in chain ==> Expanded(g, chain, tips, x)
    ensures forall x :: Reachable(g, genesis, x) ==> x in chain
  {
    forall x | Reachable(g, genesis, x) ensures x in chain {
      var p :| PathFromTo(g, p, genesis, x);
      ClosedContainsPath(g, p, Elements(chain));
    }
  }

  /** What every turn of the walk keeps. */
  ghost predicate WalkInv(g: BlockIndex, genesis: BlockHash, queue: seq<BlockHash>, chain: seq<BlockHash>,
                          tips: set<BlockHash>) {
    && NoDup(chain) && |chain| > 0 && chain[0] == genesis
    && (forall x :: x in queue ==> x in chain)
    && (forall x :: x in chain ==> Reachable(g, genesis, x))
    && (forall x :: x in tips ==> Reachable(g, genesis, x) && x !in g)
    && (forall x :: x in chain && x !in queue ==> Expanded(g, chain, tips, x))
  }

  lemma WalkInvInner(g: BlockIndex, genesis: BlockHash, queue: seq<BlockHash>, chain: seq<BlockHash>,
                     tips: set<BlockHash>)
    requires WalkInv(g, genesis, queue, chain, tips) && queue != [] && queue[0] in g
    ensures WalkInv(g, genesis, PushNew(queue[1..], g[queue[0]]), PushNew(chain, g[queue[0]]), tips)
  {
    PushNewFacts(queue[1..], g[queue[0]]);
    PushNewFacts(chain, g[queue[0]]);
    forall x | x in g[queue[0]] ensures Reachable(g, genesis, x) {
      ReachableStep(g, genesis, queue[0], x);
    }
    var toVisit, chain' := PushNew(queue[1..], g[queue[0]]), PushNew(chain, g[queue[0]]);
    forall x | x in chain' && x !in toVisit ensures Expanded(g, chain', tips, x) {
      if x != queue[0] {
        assert x in chain && x !in queue[1..] && x !in queue;
      }
    }
  }

  lemma WalkInvLeaf(g: BlockIndex, genesis: BlockHash, queue: seq<BlockHash>, chain: seq<BlockHash>,
                    tips: set<BlockHash>)
    requires WalkInv(g, genesis, queue, chain, tips) && queue != [] && queue[0] !in g
    ensures WalkInv(g, genesis, queue[1..], chain, tips + {queue[0]})
  {
  }

  // ----- the order of the chain -----

  /** Whatever leads to `b` in some number of links, as many or fewer lead to `a`. */
  ghost predicate NoFurther(g: BlockIndex, genesis: BlockHash, a: BlockHash, b: BlockHash) {
    forall n: nat :: HasWalk(g, genesis, b, n) ==> exists m: nat :: m <= n && HasWalk(g, genesis, a, m)
  }

  /** No block stands before one that is nearer to genesis. */
  ghost predicate NearestFirst(g: BlockIndex, genesis: BlockHash, chain: seq<BlockHash>) {
    forall i, j :: 0 <= i < j < |chain| ==> NoFurther(g, genesis, chain[i], chain[j])
  }

  /** The numbers of links at which the blocks in the queue and in the chain were met. */
  datatype Marks = Marks(queue: seq<nat>, chain: seq<nat>)

  /** Marks ascend, and none is more than one above that of the front of the queue. */
  ghost predicate InOrder(m: Marks) {
    && Ascending(m.queue) && Ascending(m.chain)
    && (forall j :: 0 <= j < |m.queue| ==> m.queue[j] <= m.queue[0] + 1)
    && (m.queue != [] ==> forall j :: 0 <= j < |m.chain| ==> m.chain[j] <= m.queue[0] + 1)
  }

  ghost predicate AllLed(g: BlockIndex, genesis: BlockHash, hashes: seq<BlockHash>, marks: seq<nat>)
    requires |hashes| == |marks|
  {
    forall k :: 0 <= k < |hashes| ==> HasWalk(g, genesis, hashes[k], marks[k])
  }

  /** All children of `x` are in the chain, marked at most one above `n`. */
  ghost predicate Followed(g: BlockIndex, chain: seq<BlockHash>, marks: seq<nat>, x: BlockHash, n: nat)
    requires |chain| == |marks|
  {
    forall c :: Edge(g, x, c) ==> Has(chain, marks, c, n + 1)
  }

  /** Every block of the chain was expanded at its mark, or waits in the queue to be. */
  ghost predicate Timely(g: BlockIndex, queue: seq<BlockHash>, chain: seq<BlockHash>, m: Marks)
    requires |queue| == |m.queue| && |chain| == |m.chain|
  {
    forall k :: 0 <= k < |chain| ==>
      Has(queue, m.queue, chain[k], m.chain[k]) || Followed(g, chain, m.chain, chain[k], m.chain[k])
  }

  ghost predicate Marked(g: BlockIndex, genesis: BlockHash, queue: seq<BlockHash>, chain: seq<BlockHash>, m: Marks) {
    && |queue| == |m.queue| && |chain| == |m.chain| && InOrder(m)
    && AllLed(g, genesis, queue, m.queue) && AllLed(g, genesis, chain, m.chain)
    && Has(chain, m.chain, genesis, 0) && Timely(g, queue, chain, m)
  }

  /** The marks of a list that grew: what is new has the mark `n`. */
  function Grown(marks: seq<nat>, longer: nat, n: nat): (r: seq<nat>)
    requires |marks| <= longer
    ensures |r| == longer && r[..|marks|] == marks && forall k :: |marks| <= k < longer ==> r[k] == n
  {
    marks + Same(n, longer - |marks|)
  }

  lemma HasGrows(hashes: seq<BlockHash>, marks: seq<nat>, longer: seq<BlockHash>, v: nat, x: BlockHash, n: nat)
    requires |hashes| == |marks| && hashes <= longer && Has(hashes, marks, x, n)
    ensures Has(longer, Grown(marks, |longer|, v), x, n)
  {
    var k :| 0 <= k < |hashes| && hashes[k] == x && marks[k] <= n;
    assert longer[k] == x && Grown(marks, |longer|, v)[..|marks|][k] == marks[k];
  }

  /** In a list grown at mark `n`, where no older mark is higher, every member has a mark of at most `n`. */
  lemma HasGrown(marks: seq<nat>, longer: seq<BlockHash>, n: nat, x: BlockHash)
    requires |marks| <= |longer| && x in longer && forall k :: 0 <= k < |marks| ==> marks[k] <= n
    ensures Has(longer, Grown(marks, |longer|, n), x, n)
  {
    var k :| 0 <= k < |longer| && longer[k] == x;
    var grown := Grown(marks, |longer|, n);
    if k < |marks| {
      assert grown[..|marks|][k] == marks[k];
    }
    assert grown[k] <= n;
  }

  lemma WaitsOn(queue: seq<BlockHash>, marks: seq<nat>, longer: seq<BlockHash>, v: nat, x: BlockHash, n: nat)
    requires queue != [] && |queue| == |marks| && queue[1..] <= longer && Has(queue, marks, x, n)
    ensures (queue[0] == x && marks[0] <= n) || Has(longer, Grown(marks[1..], |longer|, v), x, n)
  {
    var k :| 0 <= k < |queue| && queue[k] == x && marks[k] <= n;
    if k > 0 {
      assert queue[1..][k - 1] == x && marks[1..][k - 1] <= n;
      HasGrows(queue[1..], marks[1..], longer, v, x, n);
    }
  }

  /** The marks after a turn. */
  function NextMarks(m: Marks, queue: seq<BlockHash>, chain: seq<BlockHash>): Marks
    requires m.queue != [] && |m.queue| - 1 <= |queue| && |m.chain| <= |chain|
  {
    Marks(Grown(m.queue[1..], |queue|, m.queue[0] + 1), Grown(m.chain, |chain|, m.queue[0] + 1))
  }

  lemma NextInOrder(m: Marks, queue: seq<BlockHash>, chain: seq<BlockHash>)
    requires InOrder(m) && m.queue != [] && |m.queue| - 1 <= |queue| && |m.chain| <= |chain|
    ensures InOrder(NextMarks(m, queue, chain))
  {
    GrownAscends(m.queue[1..], |queue|, m.queue[0] + 1);
    GrownAscends(m.chain, |chain|, m.queue[0] + 1);
  }

  lemma GrownAscends(marks: seq<nat>, longer: nat, n: nat)
    requires |marks| <= longer && Ascending(marks) && forall k :: 0 <= k < |marks| ==> marks[k] <= n
    ensures Ascending(Grown(marks, longer, n)) && forall k :: 0 <= k < longer ==> Grown(marks, longer, n)[k] <= n
    ensures forall k :: 0 <= k < |marks| ==> Grown(marks, longer, n)[k] == marks[k]
  {
    var grown := Grown(marks, longer, n);
    forall k | 0 <= k < |marks| ensures grown[k] == marks[k] {
      assert grown[..|marks|][k] == marks[k];
    }
  }

  lemma GrownLed(g: BlockIndex, genesis: BlockHash, hashes: seq<BlockHash>, marks: seq<nat>, longer: seq<BlockHash>,
                 n: nat)
    requires |hashes| == |marks| && hashes <= longer && AllLed(g, genesis, hashes, marks)
    requires forall k :: |hashes| <= k < |longer| ==> HasWalk(g, genesis, longer[k], n)
    ensures AllLed(g, genesis, longer, Grown(marks, |longer|, n))
  {
    var grown := Grown(marks, |longer|, n);
    forall k | 0 <= k < |longer| ensures HasWalk(g, genesis, longer[k], grown[k]) {
      if k < |marks| {
        assert grown[..|marks|][k] == marks[k] && longer[k] == hashes[k];
      }
    }
  }

  /** What a list gains are children of the block expanded, so one link further. */
  lemma NewLed(g: BlockIndex, genesis: BlockHash, x: BlockHash, n: nat, s: seq<BlockHash>, k: nat)
    requires x in g && HasWalk(g, genesis, x, n) && |s| <= k < |PushNew(s, g[x])|
    ensures HasWalk(g, genesis, PushNew(s, g[x])[k], n + 1)
  {
    PushedIsItem(s, g[x], k);
    var p :| Walk(g, genesis, x, n, p);
    WalkPush(g, genesis, x, PushNew(s, g[x])[k], n, p);
  }

  lemma {:induction false} PushedIsItem(s: seq<BlockHash>, items: seq<BlockHash>, k: nat)
    requires |s| <= k < |PushNew(s, items)|
    ensures PushNew(s, items)[k] in items
  {
    if items == [] {
    } else {
      var init, last := items[..|items| - 1], items[|items| - 1];
      assert items == init + [last];
      if k < |PushNew(s, init)| {
        PushedIsItem(s, init, k);
      }
    }
  }

  lemma FollowedStays(g: BlockIndex, chain: seq<BlockHash>, marks: seq<nat>, longer: seq<BlockHash>, v: nat,
                      x: BlockHash, n: nat)
    requires |chain| == |marks| && chain <= longer && Followed(g, chain, marks, x, n)
    ensures Followed(g, longer, Grown(marks, |longer|, v), x, n)
  {
    forall c | Edge(g, x, c) ensures Has(longer, Grown(marks, |longer|, v), c, n + 1) {
      HasGrows(chain, marks, longer, v, c, n + 1);
    }
  }

  lemma NowFollowed(g: BlockIndex, chain: seq<BlockHash>, marks: seq<nat>, x: BlockHash, n: nat, at: nat)
    requires x in g && |chain| == |marks| && at <= n && forall k :: 0 <= k < |marks| ==> marks[k] <= at + 1
    ensures var longer := PushNew(chain, g[x]);
            |marks| <= |longer| && Followed(g, longer, Grown(marks, |longer|, at + 1), x, n)
  {
    var longer := PushNew(chain, g[x]);
    PushNewFacts(chain, g[x]);
    forall c | Edge(g, x, c) ensures Has(longer, Grown(marks, |longer|, at + 1), c, n + 1) {
      HasGrown(marks, longer, at + 1, c);
    }
  }

  lemma TimelyAt(g: BlockIndex, queue: seq<BlockHash>, chain: seq<BlockHash>, m: Marks, queue': seq<BlockHash>,
                 chain': seq<BlockHash>, k: nat)
    requires queue != [] && queue[0] in g && |queue| == |m.queue| && |chain| == |m.chain| && InOrder(m)
    requires queue' == PushNew(queue[1..], g[queue[0]]) && chain' == PushNew(chain, g[queue[0]])
    requires Timely(g, queue, chain, m) && k < |chain'|
    ensures |m.queue| - 1 <= |queue'| && |m.chain| <= |chain'|
    ensures var l := NextMarks(m, queue', chain');
            Has(queue', l.queue, chain'[k], l.chain[k]) || Followed(g, chain', l.chain, chain'[k], l.chain[k])
  {
    PushNewFacts(queue[1..], g[queue[0]]);
    PushNewFacts(chain, g[queue[0]]);
    var l, v := NextMarks(m, queue', chain'), m.queue[0] + 1;
    if k < |chain| {
      assert l.chain[..|m.chain|][k] == m.chain[k] && chain'[k] == chain[k];
      if Followed(g, chain, m.chain, chain[k], m.chain[k]) {
        FollowedStays(g, chain, m.chain, chain', v, chain[k], m.chain[k]);
      } else {
        WaitsOn(queue, m.queue, queue', v, chain[k], m.chain[k]);
        if queue[0] == chain[k] && m.queue[0] <= m.chain[k] {
          NowFollowed(g, chain, m.chain, chain[k], m.chain[k], m.queue[0]);
        }
      }
    } else {
      PushedIsItem(chain, g[queue[0]], k);
      HasGrown(m.queue[1..], queue', v, chain'[k]);
    }
  }

  lemma InnerMarked(g: BlockIndex, genesis: BlockHash, queue: seq<BlockHash>, chain: seq<BlockHash>, m: Marks)
    requires Marked(g, genesis, queue, chain, m) && queue != [] && queue[0] in g
    ensures var queue', chain' := PushNew(queue[1..], g[queue[0]]), PushNew(chain, g[queue[0]]);
            && |m.queue| - 1 <= |queue'| && |m.chain| <= |chain'|
            && Marked(g, genesis, queue', chain', NextMarks(m, queue', chain'))
  {
    var queue', chain' := PushNew(queue[1..], g[queue[0]]), PushNew(chain, g[queue[0]]);
    PushNewFacts(queue[1..], g[queue[0]]);
    PushNewFacts(chain, g[queue[0]]);
    NextInOrder(m, queue', chain');
    forall k | |queue[1..]| <= k < |queue'| ensures HasWalk(g, genesis, queue'[k], m.queue[0] + 1) {
      NewLed(g, genesis, queue[0], m.queue[0], queue[1..], k);
    }
    forall k | |chain| <= k < |chain'| ensures HasWalk(g, genesis, chain'[k], m.queue[0] + 1) {
      NewLed(g, genesis, queue[0], m.queue[0], chain, k);
    }
    GrownLed(g, genesis, queue[1..], m.queue[1..], queue', m.queue[0] + 1);
    GrownLed(g, genesis, chain, m.chain, chain', m.queue[0] + 1);
    HasGrows(chain, m.chain, chain', m.queue[0] + 1, genesis, 0);
    forall k | 0 <= k < |chain'|
      ensures var l := NextMarks(m, queue', chain');
              Has(queue', l.queue, chain'[k], l.chain[k]) || Followed(g, chain', l.chain, chain'[k], l.chain[k])
    {
      TimelyAt(g, queue, chain, m, queue', chain', k);
    }
  }

  lemma LeafMarked(g: BlockIndex, genesis: BlockHash, queue: seq<BlockHash>, chain: seq<BlockHash>, m: Marks)
    requires Marked(g, genesis, queue, chain, m) && queue != [] && queue[0] !in g
    ensures Marked(g, genesis, queue[1..], chain, m.(queue := m.queue[1..]))
  {
    forall k | 0 <= k < |chain|
      ensures Has(queue[1..], m.queue[1..], chain[k], m.chain[k]) || Followed(g, chain, m.chain, chain[k], m.chain[k])
    {
      if Has(queue, m.queue, chain[k], m.chain[k]) {
        var i :| 0 <= i < |queue| && queue[i] == chain[k] && m.queue[i] <= m.chain[k];
        if i > 0 {
          assert queue[1..][i - 1] == chain[k] && m.queue[1..][i - 1] <= m.chain[k];
        }
      }
    }
  }

  /** Once the queue is empty every block is marked at most at the length of any walk to it. */
  lemma {:induction false} MetInTime(g: BlockIndex, genesis: BlockHash, chain: seq<BlockHash>, m: Marks, x: BlockHash,
                                     n: nat, p: seq<BlockHash>)
    requires Marked(g, genesis, [], chain, m) && Walk(g, genesis, x, n, p)
    ensures Has(chain, m.chain, x, n)
    decreases n
  {
    if n == 0 {
    } else {
      var y := p[n - 1];
      assert Edge(g, y, x);
      MetInTime(g, genesis, chain, m, y, n - 1, p[..n]);
      var k :| 0 <= k < |chain| && chain[k] == y && m.chain[k] <= n - 1;
      assert Followed(g, chain, m.chain, y, m.chain[k]);
    }
  }

  lemma MarkedIsNearestFirst(g: BlockIndex, genesis: BlockHash, chain: seq<BlockHash>, m: Marks)
    requires Marked(g, genesis, [], chain, m) && NoDup(chain)
    ensures NearestFirst(g, genesis, chain)
  {
    forall i, j | 0 <= i < j < |chain| ensures NoFurther(g, genesis, chain[i], chain[j]) {
      forall n: nat | HasWalk(g, genesis, chain[j], n)
        ensures exists k: nat :: k <= n && HasWalk(g, genesis, chain[i], k)
      {
        var p :| Walk(g, genesis, chain[j], n, p);
        MetInTime(g, genesis, chain, m, chain[j], n, p);
        var k :| 0 <= k < |chain| && chain[k] == chain[j] && m.chain[k] <= n;
        assert k == j && m.chain[i] <= n && HasWalk(g, genesis, chain[i], m.chain[i]);
      }
    }
  }

  /** The inner loop: each child joins the queue and the chain unless it is already there. */
  method PushChildren(toVisit: seq<BlockHash>, chain: seq<BlockHash>, children: seq<BlockHash>)
    returns (toVisit': seq<BlockHash>, chain': seq<BlockHash>)
    ensures toVisit' == PushNew(toVisit, children) && chain' == PushNew(chain, children)
  {
    toVisit', chain' := toVisit, chain;
    for i := 0 to |children|
      invariant toVisit' == PushNew(toVisit, children[..i])
      invariant chain' == PushNew(chain, children[..i])
    {
      assert children[..i + 1][..i] == children[..i];
      if children[i] !in toVisit' {
        toVisit' := toVisit' + [children[i]];
      }
      if children[i] !in chain' {
        chain' := chain' + [children[i]];
      }
    }
    assert children[..|children|] == children;
  }

  /** `load_chain` over a block index without a reachable cycle (by HaltsIffAcyclic, whenever it returns). */
  method LoadChain(g: BlockIndex, genesis: BlockHash) returns (chain: seq<BlockHash>, tips: set<BlockHash>)
    requires AcyclicFrom(g, genesis)
    ensures NoDup(chain) && |chain| > 0 && chain[0] == genesis
    ensures forall x :: x in chain <==> Reachable(g, genesis, x)
    ensures NearestFirst(g, genesis, chain)
    ensures forall x :: x in tips <==> Reachable(g, genesis, x) && x !in g
  {
    chain := [genesis];
    tips := {};
    var toVisit := [genesis];
    ghost var on := ReachableKeys(g, genesis);
    ReachableKeysClosed(g, genesis);
    ghost var rank := RankExists(g, genesis, on);
    ReachableSelf(g, genesis);
    ghost var turns, marks := 0, Marks([0], [0]);
    assert Walk(g, genesis, genesis, 0, [genesis]);
    assert Has(toVisit, marks.queue, genesis, 0);
    while toVisit != []
      invariant WalkInv(g, genesis, toVisit, chain, tips)
      invariant Marked(g, genesis, toVisit, chain, marks)
      invariant toVisit == QueueAfter(g, genesis, turns)
      decreases Total(g, on, rank, toVisit)
    {
      TurnShrinks(g, on, rank, toVisit);
      ghost var queue := toVisit;
      var current := toVisit[0];
      toVisit := toVisit[1..];
      if current in g {
        WalkInvInner(g, genesis, queue, chain, tips);
        InnerMarked(g, genesis, queue, chain, marks);
        toVisit, chain := PushChildren(toVisit, chain, g[current]);
        marks := NextMarks(marks, toVisit, chain);
      } else {
        WalkInvLeaf(g, genesis, queue, chain, tips);
        LeafMarked(g, genesis, queue, chain, marks);
        marks := marks.(queue := marks.queue[1..]);
        tips := tips + {current};
      }
      turns := turns + 1;
    }
    ChainComplete(g, genesis, chain, tips);
    MarkedIsNearestFirst(g, genesis, chain, marks);
  }
}
