/** The order of `get_descendant_blockhashes`: level by level below the start, cut at the limit and at the stop hash. */
module DescendOrder {
  import opened Primitives
  import opened Graph
  import opened Types
  import opened BreadthFirst
  import opened Descendants

  function Cut(s: seq<BlockHash>, limit: nat): (r: seq<BlockHash>)
    ensures r <= s && |r| <= limit
  {
    s[..Min(limit, |s|)]
  }

  /** Where `stop` first stands in `vs`, or the length of `vs`. */
  function FirstStop(vs: seq<BlockHash>, stop: BlockHash): (i: nat)
    ensures i <= |vs| && stop !in vs[..i] && (i < |vs| ==> vs[i] == stop)
  {
    if vs == [] then 0
    else
      var i := FirstStop(vs[..|vs| - 1], stop);
      assert vs[..|vs| - 1][..i] == vs[..i];
      if i < |vs| - 1 || vs[i] == stop then i else |vs|
  }

  lemma PastFirstStop(vs: seq<BlockHash>, stop: BlockHash, i: nat)
    requires i <= |vs| && stop !in vs[..i]
    ensures i <= FirstStop(vs, stop) && (i < |vs| && vs[i] == stop ==> FirstStop(vs, stop) == i)
  {
    assert forall j :: 0 <= j < i ==> vs[..i][j] == vs[j];
    assert forall j :: 0 <= j < FirstStop(vs, stop) ==> vs[..FirstStop(vs, stop)][j] == vs[j];
  }

  /** Start and levels: the blocks in the order in which an endless queue would hold them. */
  function Queued(g: Index<BlockHash>, start: BlockHash, limit: nat): seq<BlockHash> {
    [start] + Levels(g, start, limit)
  }

  /** The children of the first `i` queued blocks, while within the limit, are the next queued blocks. */
  lemma KidsAreQueued(g: Index<BlockHash>, start: BlockHash, limit: nat, all: seq<BlockHash>, i: nat)
    requires all == Queued(g, start, limit) && i <= |all| && |Kids(g, all[..i])| <= limit
    ensures 1 + |Kids(g, all[..i])| <= |all| && Kids(g, all[..i]) == all[1..1 + |Kids(g, all[..i])|]
  {
    KidsOfPrefix(g, all, i);
    LevelsBelow(g, start, limit);
    LevelsSuffice(g, start, limit);
    LevelsGrow(g, start, limit, limit + 1);
    Within(Kids(g, all[..i]), Levels(g, start, limit), Levels(g, start, limit + 1), limit);
    BehindFirst(start, Levels(g, start, limit), Kids(g, all[..i]));
  }

  lemma Within(kids: seq<BlockHash>, levels: seq<BlockHash>, more: seq<BlockHash>, limit: nat)
    requires kids <= more && levels <= more && |kids| <= limit && (|levels| >= limit || levels == more)
    ensures kids <= levels
  {
  }

  lemma BehindFirst(start: BlockHash, levels: seq<BlockHash>, kids: seq<BlockHash>)
    requires kids <= levels
    ensures var all := [start] + levels; 1 + |kids| <= |all| && kids == all[1..1 + |kids|]
  {
  }

  /** The kids of one more queued block. */
  lemma NextKids(g: Index<BlockHash>, all: seq<BlockHash>, i: nat, s: nat)
    requires i < s <= |all|
    ensures Kids(g, all[..i + 1]) == Kids(g, all[..i]) + KidsOf(g, all[i]) <= Kids(g, all[..s])
  {
    assert all[..i + 1] == all[..i] + [all[i]];
    KidsPush(g, all[..i], all[i]);
    assert all[..s][..i + 1] == all[..i + 1];
    KidsOfPrefix(g, all[..s], i + 1);
  }

  lemma CutOfLonger(a: seq<BlockHash>, b: seq<BlockHash>, limit: nat)
    requires a <= b && |a| >= limit
    ensures Cut(b, limit) == a[..limit]
  {
  }

  /** The loop when `i` blocks have been taken from the queue. */
  ghost predicate Due(g: Index<BlockHash>, start: BlockHash, stop: BlockHash, limit: nat, all: seq<BlockHash>, i: nat) {
    && all == Queued(g, start, limit) && i <= |all| && stop !in all[..i]
    && |Kids(g, all[..i])| <= limit && i <= 1 + |Kids(g, all[..i])| <= |all|
  }

  lemma TakesOne(g: Index<BlockHash>, stop: BlockHash, limit: nat, queue: seq<BlockHash>, found: seq<BlockHash>)
    requires queue != [] && |found| < limit && queue[0] != stop
    ensures var more := Fitting(KidsOf(g, queue[0]), found, limit);
            Descend(g, stop, limit, queue, found) == Descend(g, stop, limit, queue[1..] + more, found + more)
  {
    if queue[0] !in g {
      assert queue[1..] + [] == queue[1..] && found + [] == found;
    }
  }

  /** The answer of the loop in that state. */
  function Answer(g: Index<BlockHash>, stop: BlockHash, limit: nat, all: seq<BlockHash>, i: nat,
                  found: seq<BlockHash>): seq<BlockHash>
    requires i <= 1 + |found| <= |all| && |found| <= limit
  {
    Descend(g, stop, limit, all[i..1 + |found|], found)
  }

  /** The answer the loop is to give. */
  function Expected(g: Index<BlockHash>, stop: BlockHash, limit: nat, all: seq<BlockHash>): seq<BlockHash> {
    Cut(Kids(g, all[..FirstStop(all, stop)]), limit)
  }

  lemma EndsEmpty(g: Index<BlockHash>, start: BlockHash, stop: BlockHash, limit: nat, all: seq<BlockHash>, i: nat)
    requires Due(g, start, stop, limit, all, i) && i == 1 + |Kids(g, all[..i])|
    ensures Answer(g, stop, limit, all, i, Kids(g, all[..i])) == Expected(g, stop, limit, all)
  {
    PastFirstStop(all, stop, i);
    LevelsEnd(g, start, all, limit, i);
    assert all[..i] == all[..FirstStop(all, stop)] == all;
  }

  lemma EndsFull(g: Index<BlockHash>, start: BlockHash, stop: BlockHash, limit: nat, all: seq<BlockHash>, i: nat)
    requires Due(g, start, stop, limit, all, i) && |Kids(g, all[..i])| == limit
    ensures Answer(g, stop, limit, all, i, Kids(g, all[..i])) == Expected(g, stop, limit, all)
  {
    var s := FirstStop(all, stop);
    PastFirstStop(all, stop, i);
    assert all[..s][..i] == all[..i];
    KidsOfPrefix(g, all[..s], i);
    CutOfLonger(Kids(g, all[..i]), Kids(g, all[..s]), limit);
  }

  lemma EndsAtStop(g: Index<BlockHash>, start: BlockHash, stop: BlockHash, limit: nat, all: seq<BlockHash>, i: nat)
    requires Due(g, start, stop, limit, all, i) && i < 1 + |Kids(g, all[..i])| && all[i] == stop
    ensures Answer(g, stop, limit, all, i, Kids(g, all[..i])) == Expected(g, stop, limit, all)
  {
    PastFirstStop(all, stop, i);
  }

  lemma EndsWithin(g: Index<BlockHash>, start: BlockHash, stop: BlockHash, limit: nat, all: seq<BlockHash>, i: nat)
    requires Due(g, start, stop, limit, all, i) && i < 1 + |Kids(g, all[..i])| && all[i] != stop
    requires |Kids(g, all[..i])| < limit < |Kids(g, all[..i]) + KidsOf(g, all[i])|
    ensures Answer(g, stop, limit, all, i, Kids(g, all[..i])) == Expected(g, stop, limit, all)
  {
    var found, s := Kids(g, all[..i]), FirstStop(all, stop);
    PastFirstStop(all, stop, i);
    NextKids(g, all, i, s);
    AnswerIsFull(g, stop, limit, all, i, found);
    CutOfLonger(found + KidsOf(g, all[i]), Kids(g, all[..s]), limit);
  }

  lemma {:induction false} DescendFrom(g: Index<BlockHash>, start: BlockHash, stop: BlockHash, limit: nat,
                                       all: seq<BlockHash>, i: nat)
    requires Due(g, start, stop, limit, all, i)
    ensures Answer(g, stop, limit, all, i, Kids(g, all[..i])) == Expected(g, stop, limit, all)
    decreases |all| - i
  {
    var found := Kids(g, all[..i]);
    if i == 1 + |found| {
      EndsEmpty(g, start, stop, limit, all, i);
    } else if |found| == limit {
      EndsFull(g, start, stop, limit, all, i);
    } else if all[i] == stop {
      EndsAtStop(g, start, stop, limit, all, i);
    } else if limit < |found + KidsOf(g, all[i])| {
      EndsWithin(g, start, stop, limit, all, i);
    } else {
      StaysDue(g, start, stop, limit, all, i);
      AnswersAlike(g, stop, limit, all, i, found);
      DescendFrom(g, start, stop, limit, all, i + 1);
    }
  }

  lemma StaysDue(g: Index<BlockHash>, start: BlockHash, stop: BlockHash, limit: nat, all: seq<BlockHash>, i: nat)
    requires Due(g, start, stop, limit, all, i) && i < |all| && all[i] != stop
    requires |Kids(g, all[..i]) + KidsOf(g, all[i])| <= limit && i < 1 + |Kids(g, all[..i])|
    ensures Due(g, start, stop, limit, all, i + 1)
    ensures var found := Kids(g, all[..i + 1]);
            found == Kids(g, all[..i]) + KidsOf(g, all[i]) && found == all[1..1 + |found|]
  {
    NextKids(g, all, i, i + 1);
    KidsAreQueued(g, start, limit, all, i + 1);
    assert all[..i + 1] == all[..i] + [all[i]];
  }

  lemma AnswersAlike(g: Index<BlockHash>, stop: BlockHash, limit: nat, all: seq<BlockHash>, i: nat,
                     found: seq<BlockHash>)
    requires i < 1 + |found| <= |all| && |found| < limit && all[i] != stop
    requires var next := found + KidsOf(g, all[i]); |next| <= limit && |next| < |all| && next == all[1..1 + |next|]
    ensures Answer(g, stop, limit, all, i, found) == Answer(g, stop, limit, all, i + 1, found + KidsOf(g, all[i]))
  {
    var queue, kids := all[i..1 + |found|], KidsOf(g, all[i]);
    TakesOne(g, stop, limit, queue, found);
    assert Fitting(kids, found, limit) == kids;
    QueueMoves(all, i, found, kids);
  }

  lemma QueueMoves(all: seq<BlockHash>, i: nat, found: seq<BlockHash>, kids: seq<BlockHash>)
    requires i < 1 + |found| && |found + kids| < |all| && found + kids == all[1..1 + |found + kids|]
    ensures all[i..1 + |found|][1..] + kids == all[i + 1..1 + |found + kids|]
  {
    assert all[1..1 + |found + kids|][|found|..] == kids;
  }

  lemma AnswerIsFull(g: Index<BlockHash>, stop: BlockHash, limit: nat, all: seq<BlockHash>, i: nat,
                     found: seq<BlockHash>)
    requires i < 1 + |found| <= |all| && |found| < limit < |found + KidsOf(g, all[i])| && all[i] != stop
    ensures Answer(g, stop, limit, all, i, found) == (found + KidsOf(g, all[i]))[..limit]
  {
    var queue, kids := all[i..1 + |found|], KidsOf(g, all[i]);
    TakesOne(g, stop, limit, queue, found);
    assert (found + kids)[..limit] == found + Fitting(kids, found, limit);
  }

  /**
    The answer, on every index: the children of the queued blocks before the stop hash, in the order of the queue,
    cut at the limit.
   */
  lemma DescendIs(g: Index<BlockHash>, start: BlockHash, stop: BlockHash, limit: nat)
    ensures Descend(g, stop, limit, [start], []) == Expected(g, stop, limit, Queued(g, start, limit))
  {
    var all := Queued(g, start, limit);
    assert all[..0] == [] && all[0..1] == [start];
    DescendFrom(g, start, stop, limit, all, 0);
  }

  // ----- in walk lengths -----

  /** Every queued block but the start is a child of one queued before it. */
  lemma KidsReach(g: Index<BlockHash>, start: BlockHash, limit: nat, all: seq<BlockHash>, s: nat)
    requires all == Queued(g, start, limit) && 1 <= s < |all|
    ensures |Kids(g, all[..s])| >= s
  {
    if |Kids(g, all[..s])| < s {
      LevelsEnd(g, start, all, limit, s);
    }
  }

  /** An answer is a beginning of the levels, whatever the stop hash. */
  lemma AnswerIsPrefix(g: Index<BlockHash>, start: BlockHash, stop: BlockHash, limit: nat)
    ensures Descend(g, stop, limit, [start], []) <= Levels(g, start, limit)
  {
    var all := Queued(g, start, limit);
    var s := FirstStop(all, stop);
    DescendIs(g, start, stop, limit);
    KidsOfPrefix(g, all, s);
    LevelsBelow(g, start, limit);
    LevelsSuffice(g, start, limit);
    LevelsGrow(g, start, limit, limit + 1);
  }

  lemma FullOrMeetsStop(g: Index<BlockHash>, start: BlockHash, stop: BlockHash, limit: nat, all: seq<BlockHash>)
    requires all == Queued(g, start, limit) && 1 <= FirstStop(all, stop) < |all|
    ensures var r := Expected(g, stop, limit, all);
            r <= all[1..] ==> |r| == limit || stop in r
  {
    var s, r := FirstStop(all, stop), Expected(g, stop, limit, all);
    KidsReach(g, start, limit, all, s);
    assert s <= |r| && r <= all[1..] ==> r[s - 1] == all[1..][s - 1];
  }

  /** An answer that does not meet the stop hash is the levels, cut at the limit. */
  lemma AnswerIsLevels(g: Index<BlockHash>, start: BlockHash, stop: BlockHash, limit: nat)
    requires stop != start && stop !in Descend(g, stop, limit, [start], [])
    ensures Descend(g, stop, limit, [start], []) == Cut(Levels(g, start, limit), limit)
  {
    var all := Queued(g, start, limit);
    DescendIs(g, start, stop, limit);
    AnswerIsPrefix(g, start, stop, limit);
    assert all[1..] == Levels(g, start, limit);
    if FirstStop(all, stop) < |all| {
      FullOrMeetsStop(g, start, stop, limit, all);
    } else {
      assert all[..|all|] == all;
      LevelsBelow(g, start, limit);
      LevelsGrow(g, start, limit, limit + 1);
    }
  }

  /** `d` gives each block of `l` a level of at most `n` it stands in, in ascending order. */
  ghost predicate Graded(g: Index<BlockHash>, start: BlockHash, l: seq<BlockHash>, d: seq<nat>, n: nat) {
    && |d| == |l|
    && (forall k :: 0 <= k < |d| ==> 1 <= d[k] <= n && l[k] in Level(g, start, d[k]))
    && (forall j, k :: 0 <= j < k < |d| ==> d[j] <= d[k])
  }

  lemma GradedPush(g: Index<BlockHash>, start: BlockHash, l: seq<BlockHash>, d: seq<nat>, n: nat,
                   level: seq<BlockHash>)
    requires Graded(g, start, l, d, n) && level == Level(g, start, n + 1)
    ensures Graded(g, start, l + level, d + Same(n + 1, |level|), n + 1)
  {
    assert forall k :: 0 <= k < |level| ==> level[k] in level;
  }

  /** The levels in their order are graded: level 1 first, then level 2, and so on. */
  lemma {:induction false} LevelsAreGraded(g: Index<BlockHash>, start: BlockHash, n: nat) returns (d: seq<nat>)
    ensures Graded(g, start, Levels(g, start, n), d, n)
  {
    if n == 0 {
      d := [];
    } else {
      var e := LevelsAreGraded(g, start, n - 1);
      var level := Level(g, start, n);
      GradedPush(g, start, Levels(g, start, n - 1), e, n - 1, level);
      d := e + Same(n, |level|);
    }
  }

  lemma GradedPrefix(g: Index<BlockHash>, start: BlockHash, l: seq<BlockHash>, d: seq<nat>, n: nat, k: nat)
    requires Graded(g, start, l, d, n) && k <= |l|
    ensures Graded(g, start, l[..k], d[..k], n)
  {
  }

  /** The answer comes in order of walk length from the start. */
  lemma AnswerByWalkLength(g: Index<BlockHash>, start: BlockHash, stop: BlockHash, limit: nat) returns (d: seq<nat>)
    ensures var r := Descend(g, stop, limit, [start], []);
            && |d| == |r|
            && (forall j, k :: 0 <= j < k < |d| ==> d[j] <= d[k])
            && (forall k :: 0 <= k < |d| ==> d[k] >= 1 && HasWalk(g, start, r[k], d[k]))
  {
    var r := Descend(g, stop, limit, [start], []);
    AnswerIsPrefix(g, start, stop, limit);
    var all := LevelsAreGraded(g, start, limit);
    GradedPrefix(g, start, Levels(g, start, limit), all, limit, |r|);
    d := all[..|r|];
    forall k | 0 <= k < |d| ensures HasWalk(g, start, r[k], d[k]) {
      LevelIff(g, start, d[k], r[k]);
    }
  }

  /** Nothing nearer is left out: a block with a walk of length n is missing only if all returned are as near. */
  lemma NearestFirst(g: Index<BlockHash>, start: BlockHash, stop: BlockHash, limit: nat, x: BlockHash, y: BlockHash,
                     n: nat, p: seq<BlockHash>) returns (m: nat, q: seq<BlockHash>)
    requires x in Descend(g, stop, limit, [start], []) && y !in Descend(g, stop, limit, [start], [])
    requires n >= 1 && Walk(g, start, y, n, p)
    ensures 1 <= m <= n && Walk(g, start, x, m, q)
  {
    var r, most := Descend(g, stop, limit, [start], []), if n <= limit then limit else n;
    AnswerIsPrefix(g, start, stop, limit);
    WalkEndsInLevel(g, start, n, y, p);
    LevelsGrow(g, start, n, most);
    LevelsGrow(g, start, limit, most);
    EndsBefore(r, Levels(g, start, n), Levels(g, start, most), y);
    var k :| 0 <= k < |r| && r[k] == x;
    var d := LevelsAreGraded(g, start, n);
    m := d[k];
    q := LevelHasWalk(g, start, m, x);
  }

  lemma EndsBefore(r: seq<BlockHash>, l: seq<BlockHash>, all: seq<BlockHash>, y: BlockHash)
    requires r <= all && l <= all && y in l && y !in r
    ensures r <= l
  {
    var k :| 0 <= k < |l| && l[k] == y;
    assert |r| <= k;
  }
}
