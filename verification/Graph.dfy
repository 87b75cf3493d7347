/**
  Finite directed graphs given as an adjacency index, the form in which the block index
  (parent -> children) is kept: a vertex without an entry has no outgoing edge.
 */
module Graph {
  import opened Primitives

  type Index<V> = map<V, seq<V>>

  ghost predicate Edge<V>(g: Index<V>, a: V, b: V) {
    a in g && b in g[a]
  }

  ghost predicate IsPath<V>(g: Index<V>, p: seq<V>) {
    && |p| > 0
    && forall i :: 0 <= i < |p| - 1 ==> Edge(g, p[i], p[i + 1])
  }

  ghost predicate PathFromTo<V>(g: Index<V>, p: seq<V>, a: V, b: V) {
    IsPath(g, p) && p[0] == a && p[|p| - 1] == b
  }

  ghost predicate Reachable<V(!new)>(g: Index<V>, a: V, b: V) {
    exists p :: PathFromTo(g, p, a, b)
  }

  /** No path of one or more edges leads from a vertex reachable from `root` back to itself. */
  ghost predicate AcyclicFrom<V(!new)>(g: Index<V>, root: V) {
    forall p :: IsPath(g, p) && |p| >= 2 && Reachable(g, root, p[0]) ==> p[0] != p[|p| - 1]
  }

  lemma ReachableSelf<V(!new)>(g: Index<V>, a: V)
    ensures Reachable(g, a, a)
  {
    assert PathFromTo(g, [a], a, a);
  }

  lemma ReachableStep<V(!new)>(g: Index<V>, a: V, b: V, c: V)
    requires Reachable(g, a, b) && Edge(g, b, c)
    ensures Reachable(g, a, c)
  {
    var p :| PathFromTo(g, p, a, b);
    assert PathFromTo(g, p + [c], a, c);
  }

  /** A set that contains the start of a path and is closed under edges contains its end. */
  lemma {:induction false} ClosedContainsPath<V>(g: Index<V>, p: seq<V>, closed: set<V>)
    requires IsPath(g, p) && p[0] in closed
    requires forall a, b :: a in closed && Edge(g, a, b) ==> b in closed
    ensures p[|p| - 1] in closed
  {
    if |p| > 1 {
      assert Edge(g, p[0], p[1]);
      ClosedContainsPath(g, p[1..], closed);
    }
  }

  /** Every edge between two indexed vertices of `on` goes strictly down in rank. */
  ghost predicate Ranked<V>(g: Index<V>, on: set<V>, rank: map<V, nat>) {
    && rank.Keys == on
    && forall a, b :: a in on && b in on && Edge(g, a, b) ==> rank[b] < rank[a]
  }

  ghost predicate HasSuccessorIn<V>(g: Index<V>, on: set<V>, a: V) {
    exists b :: b in on && Edge(g, a, b)
  }

  /** From any vertex of a set where each vertex has a successor, walks of every length exist. */
  lemma {:induction false} LongWalk<V>(g: Index<V>, on: set<V>, start: V, n: nat) returns (p: seq<V>)
    requires start in on
    requires forall a {:trigger HasSuccessorIn(g, on, a)} :: a in on ==> HasSuccessorIn(g, on, a)
    ensures IsPath(g, p) && |p| == n + 1 && p[0] == start
    ensures forall x :: x in p ==> x in on
  {
    if n == 0 {
      p := [start];
    } else {
      var q := LongWalk(g, on, start, n - 1);
      assert HasSuccessorIn(g, on, q[|q| - 1]);
      var b :| b in on && Edge(g, q[|q| - 1], b);
      p := q + [b];
    }
  }

  /** If every vertex of a nonempty reachable set has a successor in the set, the index has a cycle. */
  lemma EndlessSetHasCycle<V(!new)>(g: Index<V>, root: V, on: set<V>)
    requires on != {}
    requires forall a :: a in on ==> Reachable(g, root, a)
    requires forall a {:trigger HasSuccessorIn(g, on, a)} :: a in on ==> HasSuccessorIn(g, on, a)
    ensures !AcyclicFrom(g, root)
  {
    var start :| start in on;
    var p := LongWalk(g, on, start, |on|);
    if NoDup(p) {
      Pigeonhole(p, on);
      assert false;
    }
    var i, j :| 0 <= i < j < |p| && p[i] == p[j];
    assert IsPath(g, p[i..j + 1]) && Reachable(g, root, p[i..j + 1][0]);
  }

  /** A nonempty set of reachable vertices of an acyclic index has a member with no successor in the set. */
  lemma SinkExists<V(!new)>(g: Index<V>, root: V, on: set<V>) returns (sink: V)
    requires AcyclicFrom(g, root) && on != {}
    requires forall a :: a in on ==> Reachable(g, root, a)
    ensures sink in on && forall b :: b in on ==> !Edge(g, sink, b)
  {
    assert !forall a {:trigger HasSuccessorIn(g, on, a)} :: a in on ==> HasSuccessorIn(g, on, a) by {
      if forall a {:trigger HasSuccessorIn(g, on, a)} :: a in on ==> HasSuccessorIn(g, on, a) {
        EndlessSetHasCycle(g, root, on);
        assert false;
      }
    }
    sink :| sink in on && !HasSuccessorIn(g, on, sink);
  }

  /** The reachable part of an acyclic index can be ranked: the finite form of well-foundedness. */
  lemma {:induction false} RankExists<V(!new)>(g: Index<V>, root: V, on: set<V>) returns (rank: map<V, nat>)
    requires AcyclicFrom(g, root)
    requires forall a :: a in on ==> Reachable(g, root, a)
    ensures Ranked(g, on, rank)
    decreases |on|
  {
    if on == {} {
      rank := map[];
    } else {
      var sink := SinkExists(g, root, on);
      var above := RankExists(g, root, on - {sink});
      rank := map x | x in on :: if x == sink then 0 else above[x] + 1;
    }
  }

  /** The number of walks that start at `v`: the work a traversal without a visited set may do there. */
  ghost function Weight<V>(g: Index<V>, on: set<V>, rank: map<V, nat>, v: V): (w: nat)
    requires Ranked(g, on, rank)
    requires Closed(g, on)
    ensures w >= 1
    decreases if v in on then rank[v] + 1 else 0, 1, 0
  {
    if v in on && v in g then 1 + Weights(g, on, rank, v, g[v]) else 1
  }

  /** The ranked set holds every indexed successor of its members. */
  ghost predicate Closed<V>(g: Index<V>, on: set<V>) {
    forall a, b :: a in on && Edge(g, a, b) && b in g ==> b in on
  }

  ghost function Weights<V>(g: Index<V>, on: set<V>, rank: map<V, nat>, parent: V, children: seq<V>): nat
    requires Ranked(g, on, rank)
    requires Closed(g, on)
    requires parent in on && forall c :: c in children ==> Edge(g, parent, c)
    decreases rank[parent] + 1, 0, |children|
  {
    if children == [] then 0
    else
      assert children[|children| - 1] in children;
      Weights(g, on, rank, parent, children[..|children| - 1]) + Weight(g, on, rank, children[|children| - 1])
  }
}
