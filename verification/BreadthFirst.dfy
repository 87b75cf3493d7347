/** The levels of a directed graph below a start: level n holds the ends of all walks of length n, in order. */
module BreadthFirst {
  import opened Graph
  import opened Types

  function KidsOf(g: Index<BlockHash>, v: BlockHash): seq<BlockHash> {
    if v in g then g[v] else []
  }

  /** The children of a list of vertices, one after the other. */
  function Kids(g: Index<BlockHash>, vs: seq<BlockHash>): seq<BlockHash> {
    if vs == [] then [] else Kids(g, vs[..|vs| - 1]) + KidsOf(g, vs[|vs| - 1])
  }

  function Level(g: Index<BlockHash>, start: BlockHash, n: nat): seq<BlockHash> {
    if n == 0 then [start] else Kids(g, Level(g, start, n - 1))
  }

  /** Levels 1 to `n`, one after the other. */
  function Levels(g: Index<BlockHash>, start: BlockHash, n: nat): seq<BlockHash> {
    if n == 0 then [] else Levels(g, start, n - 1) + Level(g, start, n)
  }

  lemma {:induction false} KidsConcat(g: Index<BlockHash>, a: seq<BlockHash>, b: seq<BlockHash>)
    ensures Kids(g, a + b) == Kids(g, a) + Kids(g, b)
  {
    if b == [] {
      assert a + b == a;
    } else {
      assert (a + b)[..|a + b| - 1] == a + b[..|b| - 1];
      KidsConcat(g, a, b[..|b| - 1]);
    }
  }

  lemma KidsPush(g: Index<BlockHash>, vs: seq<BlockHash>, v: BlockHash)
    ensures Kids(g, vs + [v]) == Kids(g, vs) + KidsOf(g, v)
  {
    assert (vs + [v])[..|vs + [v]| - 1] == vs;
  }

  lemma {:induction false} KidsMembers(g: Index<BlockHash>, vs: seq<BlockHash>, x: BlockHash)
    ensures x in Kids(g, vs) <==> exists v :: v in vs && Edge(g, v, x)
  {
    if vs == [] {
    } else {
      var init, last := vs[..|vs| - 1], vs[|vs| - 1];
      assert vs == init + [last];
      KidsMembers(g, init, x);
      if x in Kids(g, vs) {
        if x in Kids(g, init) {
          var v :| v in init && Edge(g, v, x);
          assert v in vs;
        } else {
          assert last in vs && Edge(g, last, x);
        }
      }
    }
  }

  lemma KidsOfPrefix(g: Index<BlockHash>, vs: seq<BlockHash>, i: nat)
    requires i <= |vs|
    ensures Kids(g, vs[..i]) <= Kids(g, vs)
  {
    assert vs == vs[..i] + vs[i..];
    KidsConcat(g, vs[..i], vs[i..]);
  }

  /** `x` stands in `hashes` with a mark of at most `n`. */
  ghost predicate Has(hashes: seq<BlockHash>, marks: seq<nat>, x: BlockHash, n: nat)
    requires |hashes| == |marks|
  {
    exists k :: 0 <= k < |hashes| && hashes[k] == x && marks[k] <= n
  }

  ghost predicate Ascending(m: seq<nat>) {
    forall i, j :: 0 <= i < j < |m| ==> m[i] <= m[j]
  }

  /** `n`, `k` times. */
  function Same(n: nat, k: nat): (r: seq<nat>)
    ensures |r| == k && forall i :: 0 <= i < k ==> r[i] == n
  {
    seq(k, _ => n)
  }

  // ----- levels and walks -----

  ghost predicate Walk(g: Index<BlockHash>, a: BlockHash, b: BlockHash, n: nat, p: seq<BlockHash>) {
    PathFromTo(g, p, a, b) && |p| == n + 1
  }

  ghost predicate HasWalk(g: Index<BlockHash>, a: BlockHash, b: BlockHash, n: nat) {
    exists p :: Walk(g, a, b, n, p)
  }

  lemma WalkPush(g: Index<BlockHash>, a: BlockHash, v: BlockHash, x: BlockHash, n: nat, p: seq<BlockHash>)
    requires Walk(g, a, v, n, p) && Edge(g, v, x)
    ensures Walk(g, a, x, n + 1, p + [x])
  {
  }

  lemma LevelParent(g: Index<BlockHash>, start: BlockHash, n: nat, x: BlockHash) returns (v: BlockHash)
    requires x in Level(g, start, n + 1)
    ensures v in Level(g, start, n) && Edge(g, v, x)
  {
    var above := Level(g, start, n);
    KidsMembers(g, above, x);
    v :| v in above && Edge(g, v, x);
  }

  lemma {:induction false} LevelHasWalk(g: Index<BlockHash>, start: BlockHash, n: nat, x: BlockHash)
    returns (p: seq<BlockHash>)
    requires x in Level(g, start, n)
    ensures Walk(g, start, x, n, p)
  {
    if n == 0 {
      p := [start];
    } else {
      var v := LevelParent(g, start, n - 1, x);
      var q := LevelHasWalk(g, start, n - 1, v);
      WalkPush(g, start, v, x, n - 1, q);
      p := q + [x];
    }
  }

  lemma {:induction false} WalkEndsInLevel(g: Index<BlockHash>, start: BlockHash, n: nat, x: BlockHash,
                                           p: seq<BlockHash>)
    requires Walk(g, start, x, n, p)
    ensures x in Level(g, start, n)
  {
    if n == 0 {
    } else {
      assert Edge(g, p[n - 1], p[n]);
      WalkEndsInLevel(g, start, n - 1, p[n - 1], p[..n]);
      KidsMembers(g, Level(g, start, n - 1), x);
    }
  }

  /** Level n holds exactly the ends of the walks of length n. */
  lemma LevelIff(g: Index<BlockHash>, start: BlockHash, n: nat, x: BlockHash)
    ensures x in Level(g, start, n) <==> HasWalk(g, start, x, n)
  {
    if x in Level(g, start, n) {
      var p := LevelHasWalk(g, start, n, x);
    } else if HasWalk(g, start, x, n) {
      var p :| Walk(g, start, x, n, p);
      WalkEndsInLevel(g, start, n, x, p);
    }
  }

  lemma {:induction false} LevelsBelow(g: Index<BlockHash>, start: BlockHash, n: nat)
    ensures Kids(g, [start] + Levels(g, start, n)) == Levels(g, start, n + 1)
  {
    if n == 0 {
      assert [start] + Levels(g, start, 0) == Level(g, start, 0);
      assert Levels(g, start, 1) == [] + Level(g, start, 1);
    } else {
      LevelsBelow(g, start, n - 1);
      BelowBoth(g, [start], Levels(g, start, n - 1), Level(g, start, n), Levels(g, start, n));
    }
  }

  lemma BelowBoth(g: Index<BlockHash>, s: seq<BlockHash>, a: seq<BlockHash>, b: seq<BlockHash>, below: seq<BlockHash>)
    requires Kids(g, s + a) == below
    ensures Kids(g, s + (a + b)) == below + Kids(g, b)
  {
    KidsConcat(g, s + a, b);
    assert s + (a + b) == (s + a) + b;
  }

  lemma {:induction false} LevelsGrow(g: Index<BlockHash>, start: BlockHash, n: nat, m: nat)
    requires n <= m
    ensures Levels(g, start, n) <= Levels(g, start, m)
  {
    if n < m {
      LevelsGrow(g, start, n, m - 1);
    }
  }

  lemma {:induction false} LevelsFill(g: Index<BlockHash>, start: BlockHash, n: nat)
    ensures |Levels(g, start, n)| >= n || Level(g, start, n) == []
  {
    if n == 0 {
    } else {
      LevelsFill(g, start, n - 1);
    }
  }

  /** `n` levels are as many as `n` places need. */
  lemma LevelsSuffice(g: Index<BlockHash>, start: BlockHash, n: nat)
    ensures |Levels(g, start, n)| >= n || Levels(g, start, n + 1) == Levels(g, start, n)
  {
    LevelsFill(g, start, n);
  }

  lemma FewKids(g: Index<BlockHash>, all: seq<BlockHash>, above: seq<BlockHash>, i: nat)
    requires above <= all && |above| <= i <= |all| && |Kids(g, all[..i])| < i
    ensures |Kids(g, above)| < i
  {
    assert all[..i][..|above|] == above;
    KidsOfPrefix(g, all[..i], |above|);
  }

  /** Where the queue of a breadth-first walk runs empty, the levels end. */
  lemma {:induction false} LevelsEnd(g: Index<BlockHash>, start: BlockHash, all: seq<BlockHash>, m: nat, i: nat)
    requires [start] + Levels(g, start, m) <= all && 1 <= i <= |all| && |Kids(g, all[..i])| < i
    ensures 1 + |Levels(g, start, m)| <= i
  {
    if m == 0 {
    } else {
      var above := [start] + Levels(g, start, m - 1);
      PrefixOf([start], Levels(g, start, m - 1), Level(g, start, m), all);
      LevelsEnd(g, start, all, m - 1, i);
      FewKids(g, all, above, i);
      LevelsBelow(g, start, m - 1);
    }
  }

  lemma PrefixOf(s: seq<BlockHash>, a: seq<BlockHash>, b: seq<BlockHash>, all: seq<BlockHash>)
    requires s + (a + b) <= all
    ensures s + a <= all
  {
    assert s + (a + b) == (s + a) + b;
  }
}
