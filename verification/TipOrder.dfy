/** The order of `get_shares_from_tip_to_blockhash`: by the least number of links back from a tip. */
module TipOrder {
  import opened Primitives
  import opened Graph
  import opened Types
  import opened BreadthFirst
  import opened TipWalk

  /** Some tip leads back to `x` in exactly `n` links, not passing the target. */
  ghost predicate LedIn(headers: Headers, target: BlockHash, tips: seq<BlockHash>, x: BlockHash, n: nat) {
    exists t, p :: t in tips && Walk(BackLinks(headers, target), t, x, n, p)
  }

  /** The numbers of links at which the blocks in the queue and the shares collected were met. */
  datatype Marks = Marks(queue: seq<nat>, shares: seq<nat>)

  function Next(headers: Headers, target: BlockHash, s: State, m: Marks): Marks
    requires s.queue != [] && |m.queue| == |s.queue|
  {
    var hash := s.queue[0];
    if hash in s.visited || hash !in headers then m.(queue := m.queue[1..])
    else Marks(m.queue[1..] + Same(m.queue[0] + 1, |Expansion(headers, target, hash)|), m.shares + [m.queue[0]])
  }

  ghost predicate Sizes(s: State, m: Marks) {
    |m.queue| == |s.queue| && |m.shares| == |s.shares|
  }

  ghost predicate Met(s: State, m: Marks, x: BlockHash, n: nat)
    requires Sizes(s, m)
  {
    Has(s.queue, m.queue, x, n) || Has(s.shares, m.shares, x, n)
  }

  /** Marks ascend through the shares and then the queue, whose last is at most one above its first. */
  ghost predicate InOrder(m: Marks) {
    && Ascending(m.shares) && Ascending(m.queue)
    && (forall i, j :: 0 <= i < |m.shares| && 0 <= j < |m.queue| ==> m.shares[i] <= m.queue[j])
    && (forall j :: 0 <= j < |m.queue| ==> m.queue[j] <= m.queue[0] + 1)
  }

  /** Every mark is the length of some way back from a tip. */
  ghost predicate Sound(headers: Headers, target: BlockHash, tips: seq<BlockHash>, s: State, m: Marks)
    requires Sizes(s, m)
  {
    && (forall k :: 0 <= k < |s.queue| ==> LedIn(headers, target, tips, s.queue[k], m.queue[k]))
    && (forall k :: 0 <= k < |s.shares| ==> LedIn(headers, target, tips, s.shares[k], m.shares[k]))
  }

  /** Expanding `x` puts the stored block `p` on the queue. */
  predicate LinksTo(headers: Headers, target: BlockHash, x: BlockHash, p: BlockHash) {
    x in headers && p in headers && p in Expansion(headers, target, x)
  }

  /** No stored block that should have been met by now is missing. */
  ghost predicate Complete(headers: Headers, target: BlockHash, tips: seq<BlockHash>, s: State, m: Marks)
    requires Sizes(s, m)
  {
    && (forall t :: t in tips && t in headers ==> Met(s, m, t, 0))
    && (forall k, p :: 0 <= k < |s.shares| && LinksTo(headers, target, s.shares[k], p) ==>
          Met(s, m, p, m.shares[k] + 1))
  }

  ghost predicate Marked(headers: Headers, target: BlockHash, tips: seq<BlockHash>, s: State, m: Marks) {
    Sizes(s, m) && InOrder(m) && Sound(headers, target, tips, s, m) && Complete(headers, target, tips, s, m)
  }

  lemma StartMarked(headers: Headers, target: BlockHash, tips: seq<BlockHash>)
    ensures Marked(headers, target, tips, State(tips, {}, []), Marks(Same(0, |tips|), []))
  {
    forall k | 0 <= k < |tips| ensures LedIn(headers, target, tips, tips[k], 0) {
      assert Walk(BackLinks(headers, target), tips[k], tips[k], 0, [tips[k]]);
    }
  }

  // ----- one turn keeps the marks -----

  lemma NextInOrder(headers: Headers, target: BlockHash, s: State, m: Marks)
    requires s.queue != [] && |m.queue| == |s.queue| && InOrder(m)
    ensures InOrder(Next(headers, target, s, m))
  {
  }

  lemma LedFurther(headers: Headers, target: BlockHash, tips: seq<BlockHash>, x: BlockHash, n: nat, p: BlockHash)
    requires LedIn(headers, target, tips, x, n) && x in headers && p in Expansion(headers, target, x)
    ensures LedIn(headers, target, tips, p, n + 1)
  {
    var t, w :| t in tips && Walk(BackLinks(headers, target), t, x, n, w);
    WalkPush(BackLinks(headers, target), t, x, p, n, w);
  }

  lemma NextSound(headers: Headers, target: BlockHash, tips: seq<BlockHash>, s: State, m: Marks)
    requires s.queue != [] && Sizes(s, m) && Sound(headers, target, tips, s, m)
    ensures Sizes(Step(headers, target, s), Next(headers, target, s, m))
    ensures Sound(headers, target, tips, Step(headers, target, s), Next(headers, target, s, m))
  {
    var hash := s.queue[0];
    if hash in headers && hash !in s.visited {
      var more := Expansion(headers, target, hash);
      forall k | 0 <= k < |more| ensures LedIn(headers, target, tips, more[k], m.queue[0] + 1) {
        LedFurther(headers, target, tips, hash, m.queue[0], more[k]);
      }
    }
  }

  lemma VisitedEarlier(s: State, m: Marks, x: BlockHash, n: nat)
    requires s.queue != [] && Sizes(s, m) && InOrder(m) && x in s.shares && m.queue[0] <= n
    ensures Has(s.shares, m.shares, x, n)
  {
    var j :| 0 <= j < |s.shares| && s.shares[j] == x;
    assert m.shares[j] <= m.queue[0];
  }

  lemma CollectedStays(headers: Headers, target: BlockHash, s: State, m: Marks, x: BlockHash, n: nat)
    requires s.queue != [] && Sizes(s, m) && Has(s.shares, m.shares, x, n)
    ensures Sizes(Step(headers, target, s), Next(headers, target, s, m))
    ensures Met(Step(headers, target, s), Next(headers, target, s, m), x, n)
  {
    var t, l := Step(headers, target, s), Next(headers, target, s, m);
    var k :| 0 <= k < |s.shares| && s.shares[k] == x && m.shares[k] <= n;
    assert t.shares[k] == x && l.shares[k] <= n;
  }

  /** What was met stays met. */
  lemma StaysMet(headers: Headers, target: BlockHash, s: State, m: Marks, x: BlockHash, n: nat)
    requires s.queue != [] && Sizes(s, m) && InOrder(m) && Elements(s.shares) == s.visited
    requires x in headers && Met(s, m, x, n)
    ensures Sizes(Step(headers, target, s), Next(headers, target, s, m))
    ensures Met(Step(headers, target, s), Next(headers, target, s, m), x, n)
  {
    var t, l := Step(headers, target, s), Next(headers, target, s, m);
    if s.queue[0] == x && m.queue[0] <= n && x in s.visited {
      VisitedEarlier(s, m, x, n);
    }
    if Has(s.shares, m.shares, x, n) {
      CollectedStays(headers, target, s, m, x, n);
    } else {
      var k :| 0 <= k < |s.queue| && s.queue[k] == x && m.queue[k] <= n;
      if k > 0 {
        assert t.queue[k - 1] == x && l.queue[k - 1] <= n;
      } else {
        assert t.shares[|s.shares|] == x && l.shares[|s.shares|] <= n;
      }
    }
  }

  lemma NextComplete(headers: Headers, target: BlockHash, tips: seq<BlockHash>, s: State, m: Marks)
    requires s.queue != [] && Marked(headers, target, tips, s, m) && Elements(s.shares) == s.visited
    ensures Sizes(Step(headers, target, s), Next(headers, target, s, m))
    ensures Complete(headers, target, tips, Step(headers, target, s), Next(headers, target, s, m))
  {
    var t, l := Step(headers, target, s), Next(headers, target, s, m);
    forall x | x in tips && x in headers ensures Met(t, l, x, 0) {
      StaysMet(headers, target, s, m, x, 0);
    }
    forall k, p | 0 <= k < |t.shares| && LinksTo(headers, target, t.shares[k], p)
      ensures Met(t, l, p, l.shares[k] + 1)
    {
      if k < |s.shares| {
        StaysMet(headers, target, s, m, p, m.shares[k] + 1);
      } else {
        NewlyMet(headers, target, s, m, p);
      }
    }
  }

  lemma NewlyMet(headers: Headers, target: BlockHash, s: State, m: Marks, p: BlockHash)
    requires s.queue != [] && Sizes(s, m) && s.queue[0] in headers && s.queue[0] !in s.visited
    requires p in Expansion(headers, target, s.queue[0])
    ensures Sizes(Step(headers, target, s), Next(headers, target, s, m))
    ensures Met(Step(headers, target, s), Next(headers, target, s, m), p, m.queue[0] + 1)
  {
    var more, t, l := Expansion(headers, target, s.queue[0]), Step(headers, target, s), Next(headers, target, s, m);
    var j :| 0 <= j < |more| && more[j] == p;
    var at := |s.queue| - 1 + j;
    assert t.queue[at] == p && l.queue[at] == m.queue[0] + 1;
  }

  lemma NextMarked(headers: Headers, target: BlockHash, tips: seq<BlockHash>, s: State, m: Marks)
    requires s.queue != [] && Marked(headers, target, tips, s, m) && Elements(s.shares) == s.visited
    ensures Marked(headers, target, tips, Step(headers, target, s), Next(headers, target, s, m))
  {
    NextInOrder(headers, target, s, m);
    NextSound(headers, target, tips, s, m);
    NextComplete(headers, target, tips, s, m);
  }

  // ----- the whole walk -----

  /** A state at the end of the loop that collected `r`, with its marks. */
  ghost predicate Ends(headers: Headers, target: BlockHash, tips: seq<BlockHash>, r: seq<BlockHash>, s: State,
                       m: Marks)
  {
    s.queue == [] && s.shares == r && Marked(headers, target, tips, s, m)
  }

  lemma {:induction false} CollectMarked(headers: Headers, target: BlockHash, tips: seq<BlockHash>, s: State, m: Marks)
    returns (end: State, marks: Marks)
    requires WalkInv(headers, target, tips, s) && Marked(headers, target, tips, s, m)
    ensures Ends(headers, target, tips, Collect(headers, target, s), end, marks)
    decreases |headers.Keys - s.visited|, |s.queue|
  {
    if s.queue == [] {
      end, marks := s, m;
    } else {
      StepShrinks(headers, target, s);
      WalkInvStep(headers, target, tips, s);
      NextMarked(headers, target, tips, s, m);
      end, marks := CollectMarked(headers, target, tips, Step(headers, target, s), Next(headers, target, s, m));
    }
  }

  /** Once the queue is empty nothing stored is met later than its shortest way back. */
  lemma {:induction false} MetInTime(headers: Headers, target: BlockHash, tips: seq<BlockHash>, s: State, m: Marks,
                                     t: BlockHash, x: BlockHash, n: nat, p: seq<BlockHash>)
    requires s.queue == [] && Marked(headers, target, tips, s, m)
    requires t in tips && x in headers && Walk(BackLinks(headers, target), t, x, n, p)
    ensures Has(s.shares, m.shares, x, n)
    decreases n
  {
    if n == 0 {
      assert Met(s, m, x, 0);
    } else {
      var y := p[n - 1];
      assert Edge(BackLinks(headers, target), y, x);
      MetInTime(headers, target, tips, s, m, t, y, n - 1, p[..n]);
      var k :| 0 <= k < |s.shares| && s.shares[k] == y && m.shares[k] <= n - 1;
      assert LinksTo(headers, target, y, x) && Met(s, m, x, m.shares[k] + 1);
    }
  }

  /**
    The shares come in order of the least number of links back from a tip: `d` gives that number for each, and
    ascends.
   */
  lemma NearestFirst(headers: Headers, target: BlockHash, tips: seq<BlockHash>) returns (d: seq<nat>)
    ensures var r := Collect(headers, target, State(tips, {}, []));
            && |d| == |r| && Ascending(d)
            && forall k :: 0 <= k < |r| ==> IsLeast(headers, target, tips, r[k], d[k])
  {
    var start := State(tips, {}, []);
    WalkInvStart(headers, target, tips);
    StartMarked(headers, target, tips);
    CollectExact(headers, target, tips, start);
    var end, marks := CollectMarked(headers, target, tips, start, Marks(Same(0, |tips|), []));
    d := AllLeast(headers, target, tips, Collect(headers, target, start), end, marks);
  }

  /** `n` is the least number of links in which some tip leads back to `x`. */
  ghost predicate IsLeast(headers: Headers, target: BlockHash, tips: seq<BlockHash>, x: BlockHash, n: nat) {
    LedIn(headers, target, tips, x, n) && forall k: nat :: LedIn(headers, target, tips, x, k) ==> n <= k
  }

  lemma AllLeast(headers: Headers, target: BlockHash, tips: seq<BlockHash>, r: seq<BlockHash>, s: State, m: Marks)
    returns (d: seq<nat>)
    requires Ends(headers, target, tips, r, s, m) && NoDup(r) && forall x :: x in r ==> x in headers
    ensures |d| == |r| && Ascending(d) && forall k :: 0 <= k < |r| ==> IsLeast(headers, target, tips, r[k], d[k])
  {
    d := m.shares;
    forall k | 0 <= k < |r| ensures IsLeast(headers, target, tips, r[k], d[k]) {
      assert r[k] in r;
      forall n: nat | LedIn(headers, target, tips, r[k], n) ensures d[k] <= n {
        NotLater(headers, target, tips, s, m, k, n);
      }
    }
  }

  lemma NotLater(headers: Headers, target: BlockHash, tips: seq<BlockHash>, s: State, m: Marks, k: nat, n: nat)
    requires s.queue == [] && Marked(headers, target, tips, s, m) && NoDup(s.shares)
    requires k < |s.shares| && s.shares[k] in headers && LedIn(headers, target, tips, s.shares[k], n)
    ensures m.shares[k] <= n
  {
    var t, p :| t in tips && Walk(BackLinks(headers, target), t, s.shares[k], n, p);
    MetInTime(headers, target, tips, s, m, t, s.shares[k], n, p);
    var j :| 0 <= j < |s.shares| && s.shares[j] == s.shares[k] && m.shares[j] <= n;
    assert j == k;
  }
}
