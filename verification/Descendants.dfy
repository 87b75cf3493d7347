/**
  `Store::get_descendant_blockhashes` and the locator query built on it: a breadth-first walk of the
  block index with no visited set, cut at `limit` and at `stop`.
 */
module Descendants {
  import opened Primitives
  import opened Graph
  import opened Types

  /** As many of `children` as still fit under the limit. */
  function Fitting(children: seq<BlockHash>, found: seq<BlockHash>, limit: nat): seq<BlockHash>
    requires |found| <= limit
  {
    children[..Min(|children|, limit - |found|)]
  }

  /** The answer from a given loop state; it ends on every index, cyclic or not. */
  function Descend(g: Index<BlockHash>, stop: BlockHash, limit: nat, queue: seq<BlockHash>,
                   found: seq<BlockHash>): (r: seq<BlockHash>)
    requires |found| <= limit
    ensures found <= r && |r| <= limit
    decreases limit - |found|, |queue|
  {
    if queue == [] || |found| == limit || queue[0] == stop then found
    else if queue[0] !in g then Descend(g, stop, limit, queue[1..], found)
    else
      var more := Fitting(g[queue[0]], found, limit);
      Descend(g, stop, limit, queue[1..] + more, found + more)
  }

  lemma FittingPush(children: seq<BlockHash>, i: nat, found: seq<BlockHash>, limit: nat)
    requires |found| <= limit && i < |children|
    ensures var so := Fitting(children[..i], found, limit);
            Fitting(children[..i + 1], found, limit) == if |found| + |so| < limit then so + [children[i]] else so
  {
  }

  /** The inner loop: children are taken while they fit. */
  method TakeFitting(children: seq<BlockHash>, queue: seq<BlockHash>, found: seq<BlockHash>, limit: nat)
    returns (queue': seq<BlockHash>, found': seq<BlockHash>)
    requires |found| <= limit
    ensures queue' == queue + Fitting(children, found, limit) && found' == found + Fitting(children, found, limit)
  {
    queue', found' := queue, found;
    for i := 0 to |children|
      invariant found' == found + Fitting(children[..i], found, limit)
      invariant queue' == queue + Fitting(children[..i], found, limit)
    {
      FittingPush(children, i, found, limit);
      if |found'| < limit {
        found' := found' + [children[i]];
        queue' := queue' + [children[i]];
      }
    }
    assert children[..|children|] == children;
  }

  /** `get_descendant_blockhashes`. */
  method GetDescendantBlockhashes(g: Index<BlockHash>, start: BlockHash, stop: BlockHash, limit: nat)
    returns (blockhashes: seq<BlockHash>)
    ensures blockhashes == Descend(g, stop, limit, [start], [])
  {
    blockhashes := [];
    var nextChildren := [start];
    while nextChildren != [] && |blockhashes| < limit
      invariant |blockhashes| <= limit
      invariant Descend(g, stop, limit, nextChildren, blockhashes) == Descend(g, stop, limit, [start], [])
      decreases limit - |blockhashes|, |nextChildren|
    {
      var current := nextChildren[0];
      nextChildren := nextChildren[1..];
      if current == stop {
        break;
      }
      if current in g {
        nextChildren, blockhashes := TakeFitting(g[current], nextChildren, blockhashes, limit);
      }
    }
  }

  /** `y` is an index child of `start` or of an earlier member of `found`. */
  ghost predicate HasParent(g: Index<BlockHash>, start: BlockHash, found: seq<BlockHash>, k: nat)
    requires k < |found|
  {
    Edge(g, start, found[k]) || exists i :: 0 <= i < k && Edge(g, found[i], found[k])
  }

  ghost predicate Parented(g: Index<BlockHash>, start: BlockHash, found: seq<BlockHash>) {
    forall k :: 0 <= k < |found| ==> HasParent(g, start, found, k)
  }

  lemma ParentedGrows(g: Index<BlockHash>, start: BlockHash, found: seq<BlockHash>, parent: BlockHash,
                      more: seq<BlockHash>)
    requires Parented(g, start, found) && (parent == start || parent in found)
    requires forall c :: c in more ==> Edge(g, parent, c)
    ensures Parented(g, start, found + more)
  {
    forall k | 0 <= k < |found + more| ensures HasParent(g, start, found + more, k) {
      if k < |found| {
        assert HasParent(g, start, found, k);
        if i :| 0 <= i < k && Edge(g, found[i], found[k]) {
          assert Edge(g, (found + more)[i], (found + more)[k]);
        }
      } else {
        assert (found + more)[k] in more;
        if parent != start {
          var i :| 0 <= i < |found| && found[i] == parent;
          assert Edge(g, (found + more)[i], (found + more)[k]);
        }
      }
    }
  }

  /** Every answer is a chain of index links down from the start. */
  lemma {:induction false} DescendParented(g: Index<BlockHash>, start: BlockHash, stop: BlockHash, limit: nat,
                                           queue: seq<BlockHash>, found: seq<BlockHash>)
    requires |found| <= limit && Parented(g, start, found)
    requires forall x :: x in queue ==> x == start || x in found
    ensures Parented(g, start, Descend(g, stop, limit, queue, found))
    decreases limit - |found|, |queue|
  {
    if queue == [] || |found| == limit || queue[0] == stop {
    } else if queue[0] !in g {
      DescendParented(g, start, stop, limit, queue[1..], found);
    } else {
      var more := Fitting(g[queue[0]], found, limit);
      ParentedGrows(g, start, found, queue[0], more);
      DescendParented(g, start, stop, limit, queue[1..] + more, found + more);
    }
  }

  /** `x` has been expanded: all of its children are in `found`. */
  ghost predicate Expanded(g: Index<BlockHash>, found: seq<BlockHash>, x: BlockHash) {
    x in g ==> forall c :: c in g[x] ==> c in found
  }

  ghost predicate Proper(g: Index<BlockHash>, start: BlockHash, x: BlockHash) {
    exists p :: PathFromTo(g, p, start, x) && |p| >= 2
  }

  lemma {:induction false} DescendExpands(g: Index<BlockHash>, start: BlockHash, stop: BlockHash, limit: nat,
                                          queue: seq<BlockHash>, found: seq<BlockHash>)
    requires |found| <= limit
    requires forall x :: x in queue ==> x == start || x in found
    requires forall x :: (x == start || x in found) && x !in queue ==> Expanded(g, found, x)
    ensures var r := Descend(g, stop, limit, queue, found);
            |r| < limit && stop != start && stop !in r ==> forall x :: x == start || x in r ==> Expanded(g, r, x)
    decreases limit - |found|, |queue|
  {
    var r := Descend(g, stop, limit, queue, found);
    if |r| < limit && stop != start && stop !in r && queue != [] {
      assert found <= r;
      if queue[0] !in g {
        DescendExpands(g, start, stop, limit, queue[1..], found);
      } else {
        var more := Fitting(g[queue[0]], found, limit);
        assert found + more <= r;
        assert more == g[queue[0]];
        forall x | (x == start || x in found + more) && x !in queue[1..] + more ensures Expanded(g, found + more, x) {
          assert x == queue[0] || x !in queue;
        }
        DescendExpands(g, start, stop, limit, queue[1..] + more, found + more);
      }
    }
  }

  /** An answer under the limit that never met the stop hash holds every descendant. */
  lemma DescendComplete(g: Index<BlockHash>, start: BlockHash, stop: BlockHash, limit: nat, x: BlockHash)
    requires Proper(g, start, x)
    requires |Descend(g, stop, limit, [start], [])| < limit && stop != start
             && stop !in Descend(g, stop, limit, [start], [])
    ensures x in Descend(g, stop, limit, [start], [])
  {
    var r := Descend(g, stop, limit, [start], []);
    DescendExpands(g, start, stop, limit, [start], []);
    var p :| PathFromTo(g, p, start, x) && |p| >= 2;
    assert Edge(g, p[0], p[1]) && Expanded(g, r, start);
    forall a, b | a in Elements(r) && Edge(g, a, b) ensures b in Elements(r) {
      assert Expanded(g, r, a);
    }
    ClosedContainsPath(g, p[1..], Elements(r));
  }

  /** ... and nothing else: every member of an answer is a proper descendant. */
  lemma DescendSound(g: Index<BlockHash>, start: BlockHash, stop: BlockHash, limit: nat, x: BlockHash)
    requires x in Descend(g, stop, limit, [start], [])
    ensures Proper(g, start, x)
  {
    var found := Descend(g, stop, limit, [start], []);
    DescendParented(g, start, stop, limit, [start], []);
    var k :| 0 <= k < |found| && found[k] == x;
    ParentedIsProper(g, start, found, k);
  }

  lemma {:induction false} ParentedIsProper(g: Index<BlockHash>, start: BlockHash, found: seq<BlockHash>, k: nat)
    requires Parented(g, start, found) && k < |found|
    ensures Proper(g, start, found[k])
  {
    assert HasParent(g, start, found, k);
    if Edge(g, start, found[k]) {
      assert PathFromTo(g, [start, found[k]], start, found[k]);
    } else {
      var i :| 0 <= i < k && Edge(g, found[i], found[k]);
      ParentedIsProper(g, start, found, i);
      var p :| PathFromTo(g, p, start, found[i]) && |p| >= 2;
      assert PathFromTo(g, p + [found[k]], start, found[k]);
    }
  }

  /** A chain without forks: each block has exactly the next one as its child. */
  ghost predicate ForkFree(g: Index<BlockHash>, c: seq<BlockHash>) {
    && NoDup(c) && |c| > 0
    && (forall i :: 0 <= i < |c| - 1 ==> c[i] in g && g[c[i]] == [c[i + 1]])
    && c[|c| - 1] !in g
  }

  /**
    Where the answer must end: after the stop hash if it lies at or above position `i`, else at the end of the
    chain.
   */
  function UpTo(c: seq<BlockHash>, stop: BlockHash, i: nat): nat
    requires i <= |c|
    decreases |c| - i
  {
    if i == |c| then |c| else if c[i] == stop then i + 1 else UpTo(c, stop, i + 1)
  }

  lemma {:induction false} DescendSegment(g: Index<BlockHash>, c: seq<BlockHash>, stop: BlockHash, limit: nat,
                                          from: nat, i: nat)
    requires ForkFree(g, c) && from <= i < |c| && i - from <= limit
    ensures i + 1 <= UpTo(c, stop, i) <= |c|
    ensures Descend(g, stop, limit, [c[i]], c[from + 1..i + 1]) == c[from + 1..Min(from + 1 + limit, UpTo(c, stop, i))]
    decreases |c| - i
  {
    var found := c[from + 1..i + 1];
    if |found| == limit || c[i] == stop {
      if |found| == limit && c[i] != stop {
        UpToBound(c, stop, i);
      }
    } else if i == |c| - 1 {
      assert Descend(g, stop, limit, [c[i]][1..], found) == found;
    } else {
      var more := Fitting(g[c[i]], found, limit);
      assert more == [c[i + 1]];
      assert [c[i]][1..] + more == [c[i + 1]];
      assert found + more == c[from + 1..i + 2];
      DescendSegment(g, c, stop, limit, from, i + 1);
    }
  }

  lemma {:induction false} UpToBound(c: seq<BlockHash>, stop: BlockHash, i: nat)
    requires i < |c|
    ensures i + 1 <= UpTo(c, stop, i) <= |c|
    decreases |c| - i
  {
    if c[i] != stop && i + 1 < |c| {
      UpToBound(c, stop, i + 1);
    }
  }

  /** On a fork-free chain the answer is the segment after the start, through the stop hash, cut at the limit. */
  lemma DescendForkFree(g: Index<BlockHash>, c: seq<BlockHash>, stop: BlockHash, limit: nat, i: nat)
    requires ForkFree(g, c) && i < |c|
    ensures i + 1 <= UpTo(c, stop, i) <= |c|
    ensures Descend(g, stop, limit, [c[i]], []) == c[i + 1..Min(i + 1 + limit, UpTo(c, stop, i))]
  {
    assert c[i + 1..i + 1] == [];
    DescendSegment(g, c, stop, limit, i, i);
  }

  /** The first hash of the locator that is stored. */
  function FirstExisting(stored: set<BlockHash>, locator: seq<BlockHash>): Option<BlockHash> {
    if locator == [] then None
    else if locator[0] in stored then Some(locator[0])
    else FirstExisting(stored, locator[1..])
  }

  method GetFirstExistingBlockhash(stored: set<BlockHash>, locator: seq<BlockHash>) returns (r: Option<BlockHash>)
    ensures r == FirstExisting(stored, locator)
    ensures r.None? <==> forall b :: b in locator ==> b !in stored
    ensures r.Some? ==> exists i :: 0 <= i < |locator| && r.value == locator[i] && locator[i] in stored
                                    && forall k :: 0 <= k < i ==> locator[k] !in stored
  {
    for i := 0 to |locator|
      invariant forall k :: 0 <= k < i ==> locator[k] !in stored
      invariant FirstExisting(stored, locator) == FirstExisting(stored, locator[i..])
    {
      if locator[i] in stored {
        return Some(locator[i]);
      }
    }
    return None;
  }

  function LocatorAnswer(stored: set<BlockHash>, genesis: Option<BlockHash>, g: Index<BlockHash>,
                         locator: seq<BlockHash>, stop: BlockHash, limit: nat): seq<BlockHash>
  {
    match FirstExisting(stored, locator)
    case Some(start) => Descend(g, stop, limit, [start], [])
    case None => if genesis.Some? then [genesis.value] else []
  }

  /** `i` is the least position of the locator that holds a stored hash. */
  ghost predicate IsFirst(stored: set<BlockHash>, locator: seq<BlockHash>, i: nat) {
    i < |locator| && locator[i] in stored && forall k :: 0 <= k < i ==> locator[k] !in stored
  }

  lemma {:induction false} FirstExistingAt(stored: set<BlockHash>, locator: seq<BlockHash>, i: nat)
    requires IsFirst(stored, locator, i)
    ensures FirstExisting(stored, locator) == Some(locator[i])
  {
    if i == 0 {
    } else {
      assert forall k :: 0 <= k < i - 1 ==> locator[1..][k] == locator[k + 1];
      FirstExistingAt(stored, locator[1..], i - 1);
    }
  }

  lemma {:induction false} FirstExistingNone(stored: set<BlockHash>, locator: seq<BlockHash>)
    requires forall b :: b in locator ==> b !in stored
    ensures FirstExisting(stored, locator) == None
  {
    if locator == [] {
    } else {
      assert locator[0] in locator && forall b :: b in locator[1..] ==> b in locator;
      FirstExistingNone(stored, locator[1..]);
    }
  }

  /** Every hash answered is a proper descendant of the first stored hash of the locator. */
  lemma LocatorSound(stored: set<BlockHash>, genesis: Option<BlockHash>, g: Index<BlockHash>, locator: seq<BlockHash>,
                     stop: BlockHash, limit: nat, i: nat, x: BlockHash)
    requires IsFirst(stored, locator, i) && x in LocatorAnswer(stored, genesis, g, locator, stop, limit)
    ensures Proper(g, locator[i], x)
  {
    FirstExistingAt(stored, locator, i);
    DescendSound(g, locator[i], stop, limit, x);
  }

  /** On a fork-free chain the answer is what follows that hash, through the stop hash, cut at the limit. */
  lemma LocatorForkFree(stored: set<BlockHash>, genesis: Option<BlockHash>, g: Index<BlockHash>,
                        locator: seq<BlockHash>, stop: BlockHash, limit: nat, i: nat, c: seq<BlockHash>, k: nat)
    requires IsFirst(stored, locator, i) && ForkFree(g, c) && k < |c| && locator[i] == c[k]
    ensures k + 1 <= UpTo(c, stop, k) <= |c|
    ensures LocatorAnswer(stored, genesis, g, locator, stop, limit)
            == c[k + 1..Min(k + 1 + limit, UpTo(c, stop, k))]
  {
    FirstExistingAt(stored, locator, i);
    DescendForkFree(g, c, stop, limit, k);
  }

  /** A locator without a stored hash is answered with genesis alone, or with nothing where there is none. */
  lemma LocatorUnknown(stored: set<BlockHash>, genesis: Option<BlockHash>, g: Index<BlockHash>,
                       locator: seq<BlockHash>, stop: BlockHash, limit: nat)
    requires forall b :: b in locator ==> b !in stored
    ensures var r := LocatorAnswer(stored, genesis, g, locator, stop, limit);
            if genesis.Some? then r == [genesis.value] else r == []
  {
    FirstExistingNone(stored, locator);
  }

  /** `get_blockhashes_for_locator`. */
  method GetBlockhashesForLocator(stored: set<BlockHash>, genesis: Option<BlockHash>, g: Index<BlockHash>,
                                  locator: seq<BlockHash>, stop: BlockHash, limit: nat) returns (r: seq<BlockHash>)
    ensures r == LocatorAnswer(stored, genesis, g, locator, stop, limit)
    ensures forall i: nat :: IsFirst(stored, locator, i) ==> r == Descend(g, stop, limit, [locator[i]], [])
    ensures (forall b :: b in locator ==> b !in stored) ==>
              r == if genesis.Some? then [genesis.value] else []
  {
    forall i: nat | IsFirst(stored, locator, i) ensures FirstExisting(stored, locator) == Some(locator[i]) {
      FirstExistingAt(stored, locator, i);
    }
    var start := GetFirstExistingBlockhash(stored, locator);
    match start
    case Some(hash) =>
      r := GetDescendantBlockhashes(g, hash, stop, limit);
    case None =>
      r := if genesis.Some? then [genesis.value] else [];
  }

  /** What a peer has after `n` rounds, each asking from the last hash it has. */
  function Synced(stored: set<BlockHash>, genesis: BlockHash, g: Index<BlockHash>, stop: BlockHash, limit: nat,
                  n: nat): seq<BlockHash> {
    if n == 0 then []
    else
      var have := Synced(stored, genesis, g, stop, limit, n - 1);
      var locator := if have == [] then [] else [have[|have| - 1]];
      have + LocatorAnswer(stored, Some(genesis), g, locator, stop, limit)
  }

  lemma {:induction false} UpToAbsent(c: seq<BlockHash>, stop: BlockHash, i: nat)
    requires i <= |c| && stop !in c
    ensures UpTo(c, stop, i) == |c|
    decreases |c| - i
  {
    if i < |c| {
      UpToAbsent(c, stop, i + 1);
    }
  }

  /** One round extends the first `k` blocks by the next `limit`. */
  lemma SyncRound(stored: set<BlockHash>, genesis: Option<BlockHash>, g: Index<BlockHash>, c: seq<BlockHash>,
                  stop: BlockHash, limit: nat, k: nat)
    requires ForkFree(g, c) && stop !in c && 1 <= k <= |c| && c[k - 1] in stored
    ensures c[..k] + LocatorAnswer(stored, genesis, g, [c[k - 1]], stop, limit) == c[..Min(k + limit, |c|)]
  {
    assert FirstExisting(stored, [c[k - 1]]) == Some(c[k - 1]);
    DescendForkFree(g, c, stop, limit, k - 1);
    UpToAbsent(c, stop, k - 1);
    SplitAgain(c, k, Min(k + limit, |c|));
  }

  lemma SplitAgain(c: seq<BlockHash>, k: nat, m: nat)
    requires k <= m <= |c|
    ensures c[..k] + c[k..m] == c[..m]
  {
  }

  /** Repeated queries from the last hash rebuild the chain from genesis, `limit` blocks a round. */
  lemma {:induction false} SyncRebuildsChain(stored: set<BlockHash>, g: Index<BlockHash>, c: seq<BlockHash>,
                                             stop: BlockHash, limit: nat, n: nat)
    requires ForkFree(g, c) && stop !in c
    requires forall b :: b in c ==> b in stored
    ensures Synced(stored, c[0], g, stop, limit, n + 1) == c[..Min(1 + n * limit, |c|)]
  {
    var have := Synced(stored, c[0], g, stop, limit, n);
    if n == 0 {
      assert LocatorAnswer(stored, Some(c[0]), g, [], stop, limit) == [c[0]];
      assert Synced(stored, c[0], g, stop, limit, 1) == [] + [c[0]];
    } else {
      SyncRebuildsChain(stored, g, c, stop, limit, n - 1);
      assert n * limit == (n - 1) * limit + limit;
      var k := Min(1 + (n - 1) * limit, |c|);
      assert have == c[..k] && have[|have| - 1] == c[k - 1];
      SyncRound(stored, Some(c[0]), g, c, stop, limit, k);
    }
  }
}
