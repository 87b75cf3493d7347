/**
  Exactly when `get_dag_for_depth` keeps its documented promise: all main-chain blocks within the depth, newest to
  oldest, with all their uncles. A share may name its own ancestor as an uncle, and then it may not.
 */
module WalkExact {
  import opened Primitives
  import opened Types
  import opened DagWalk

  // ----- nothing missing -----

  /** `x` is block `k` of the chain or one of its uncles. */
  ghost predicate AtBlock(headers: Headers, ms: seq<BlockHash>, k: nat, x: BlockHash) {
    k < |ms| && (x == ms[k] || x in UnclesAt(headers, ms, k))
  }

  /** `x` is one of the first `n` blocks of the chain or an uncle of one. */
  ghost predicate Within(headers: Headers, ms: seq<BlockHash>, n: nat, x: BlockHash) {
    exists k: nat :: k < n && AtBlock(headers, ms, k, x)
  }

  /** Every block from the `c`th on, and every uncle of one, is also met before it. */
  ghost predicate Covered(headers: Headers, ms: seq<BlockHash>, c: nat) {
    forall k: nat, x :: c <= k && AtBlock(headers, ms, k, x) ==> Within(headers, ms, c, x)
  }

  lemma WalkIsWithin(headers: Headers, genesis: BlockHash, start: BlockHash, depth: nat, x: BlockHash)
    requires WellFormed(headers, genesis) && depth >= 1
    ensures var ms := MainChain(headers, start, depth);
            x in Walk(headers, Start(start, depth)) <==> Within(headers, ms, Cut(headers, ms), x)
  {
    var ms, met := MainChain(headers, start, depth), Met(headers, start, depth);
    WalkMembers(headers, genesis, start, depth);
    WithinMet(headers, ms, |met|, x);
  }

  lemma WithinMet(headers: Headers, ms: seq<BlockHash>, c: nat, x: BlockHash)
    requires c <= |ms| && forall b :: b in ms ==> b in headers
    ensures Within(headers, ms, c, x) <==> x in ms[..c] || exists i :: 0 <= i < c && x in headers[ms[..c][i]].uncles
  {
    assert forall i :: 0 <= i < c ==> ms[..c][i] == ms[i] && UnclesAt(headers, ms, i) == headers[ms[i]].uncles;
    if x in ms[..c] {
      var i :| 0 <= i < c && ms[..c][i] == x;
      assert AtBlock(headers, ms, i, x);
    } else if i :| 0 <= i < c && x in headers[ms[..c][i]].uncles {
      assert AtBlock(headers, ms, i, x);
    }
  }

  /** All chain blocks and their uncles are returned exactly when those from the cut on are also met before it. */
  lemma NothingMissingIff(headers: Headers, genesis: BlockHash, start: BlockHash, depth: nat)
    requires WellFormed(headers, genesis) && depth >= 1
    ensures var ms, r := MainChain(headers, start, depth), Walk(headers, Start(start, depth));
            (forall x :: Within(headers, ms, |ms|, x) ==> x in r) <==> Covered(headers, ms, Cut(headers, ms))
  {
    var ms, r := MainChain(headers, start, depth), Walk(headers, Start(start, depth));
    forall x ensures x in r <==> Within(headers, ms, Cut(headers, ms), x) {
      WalkIsWithin(headers, genesis, start, depth, x);
    }
    CoveredIff(headers, ms, Cut(headers, ms), r);
  }

  lemma CoveredIff(headers: Headers, ms: seq<BlockHash>, c: nat, r: seq<BlockHash>)
    requires c <= |ms| && forall x :: x in r <==> Within(headers, ms, c, x)
    ensures (forall x :: Within(headers, ms, |ms|, x) ==> x in r) <==> Covered(headers, ms, c)
  {
    if forall x :: Within(headers, ms, |ms|, x) ==> x in r {
      forall k: nat, x | c <= k && AtBlock(headers, ms, k, x) ensures Within(headers, ms, c, x) {
        assert Within(headers, ms, |ms|, x);
      }
    }
    if Covered(headers, ms, c) {
      forall x | Within(headers, ms, |ms|, x) ensures x in r {
        var k: nat :| k < |ms| && AtBlock(headers, ms, k, x);
        assert k < c ==> Within(headers, ms, c, x);
      }
    }
  }

  // ----- newest to oldest -----

  /**
    The uncles of the two blocks before the cut list the rest of the chain in order, and no earlier block names
    any of it.
   */
  ghost predicate CarriedOn(headers: Headers, ms: seq<BlockHash>, c: nat)
    requires 2 <= c <= |ms|
  {
    && Straight(headers, ms, c - 2)
    && OnChain(ms[c..], Dedup(UnclesAt(headers, ms, c - 2) + UnclesAt(headers, ms, c - 1))) == ms[c..]
  }

  /** Main-chain blocks added by `t` behind an order that holds the first `c` of them. */
  lemma {:induction false} TailOrder(ms: seq<BlockHash>, c: nat, s: seq<BlockHash>, t: seq<BlockHash>)
    requires NoDup(ms) && c <= |ms| && OnChain(ms, Dedup(s)) == ms[..c]
    ensures OnChain(ms, Dedup(s + t)) == ms[..c] + OnChain(ms[c..], Dedup(t))
  {
    if t == [] {
      assert s + t == s;
    } else {
      var init, x := t[..|t| - 1], t[|t| - 1];
      assert t == init + [x] && s + t == (s + init) + [x];
      TailOrder(ms, c, s, init);
      TailPush(ms, c, s, init, x);
    }
  }

  lemma TailPush(ms: seq<BlockHash>, c: nat, s: seq<BlockHash>, t: seq<BlockHash>, x: BlockHash)
    requires NoDup(ms) && c <= |ms| && OnChain(ms, Dedup(s)) == ms[..c]
    requires OnChain(ms, Dedup(s + t)) == ms[..c] + OnChain(ms[c..], Dedup(t))
    ensures OnChain(ms, Dedup((s + t) + [x])) == ms[..c] + OnChain(ms[c..], Dedup(t + [x]))
  {
    OnlyFront(ms, c, s, x);
    OnChainNext(ms, s + t, x);
    OnChainNext(ms[c..], t, x);
    var add := if x in ms[c..] && x !in t then [x] else [];
    assert (if x in ms && x !in s + t then [x] else []) == add;
    Regroup(ms[..c], OnChain(ms[c..], Dedup(t)), add);
  }

  lemma OnChainNext(ms: seq<BlockHash>, s: seq<BlockHash>, x: BlockHash)
    ensures OnChain(ms, Dedup(s + [x])) == OnChain(ms, Dedup(s)) + (if x in ms && x !in s then [x] else [])
  {
    DedupPush(s, x);
    OnChainPush(ms, Dedup(s), x);
  }

  lemma OnlyFront(ms: seq<BlockHash>, c: nat, s: seq<BlockHash>, x: BlockHash)
    requires NoDup(ms) && c <= |ms| && OnChain(ms, Dedup(s)) == ms[..c]
    ensures x in ms ==> (x in s <==> x !in ms[c..])
    ensures x in ms[c..] ==> x in ms
  {
    OnChainMembers(ms, Dedup(s));
    DedupFacts(s);
    if x in ms {
      FrontOrBack(ms, c, x);
    }
  }

  lemma FrontOrBack(ms: seq<BlockHash>, c: nat, x: BlockHash)
    requires NoDup(ms) && c <= |ms| && x in ms
    ensures x in ms[..c] <==> x !in ms[c..]
  {
    var n :| 0 <= n < |ms| && ms[n] == x;
    if n < c {
      assert ms[..c][n] == x;
      assert forall k :: 0 <= k < |ms| - c ==> ms[c..][k] == ms[c + k] != x;
    } else {
      assert ms[c..][n - c] == x;
    }
  }

  lemma CutOrderStraight(headers: Headers, ms: seq<BlockHash>, c: nat)
    requires NoDup(ms) && 2 <= c < |ms| && Straight(headers, ms, c - 2) && !NamedBefore(headers, ms, c - 1)
    ensures OnChain(ms, Dedup(Woven(headers, ms[..c], c))) == ms <==> CarriedOn(headers, ms, c)
  {
    var met := ms[..c];
    var q := Woven(headers, met, c - 2);
    var t := UnclesAt(headers, ms, c - 2) + UnclesAt(headers, ms, c - 1);
    WovenMainOrder(headers, ms, c, c - 2);
    StillUnnamed(headers, ms, c, c - 1);
    UnwovenNext(headers, met, c - 1);
    NextOnChain(ms, c - 1, q);
    TailOrder(ms, c, q + [ms[c - 1]], t);
    WovenTail(headers, ms, c);
    SameTail(ms, c, OnChain(ms[c..], Dedup(t)));
  }

  lemma WovenTail(headers: Headers, ms: seq<BlockHash>, c: nat)
    requires 2 <= c <= |ms|
    ensures Woven(headers, ms[..c], c)
         == Woven(headers, ms[..c], c - 2) + [ms[c - 1]] + (UnclesAt(headers, ms, c - 2) + UnclesAt(headers, ms, c - 1))
  {
    var met := ms[..c];
    var a, b := UnclesAt(headers, ms, c - 2), UnclesAt(headers, ms, c - 1);
    assert UnclesAt(headers, met, c - 2) == a && UnclesAt(headers, met, c - 1) == b;
    WovenAt(headers, met, c - 1);
    WovenEnds(headers, met);
    Regroup(Woven(headers, met, c - 2) + [ms[c - 1]], a, b);
  }

  lemma SameTail(ms: seq<BlockHash>, c: nat, rest: seq<BlockHash>)
    requires c <= |ms|
    ensures ms[..c] + rest == ms <==> rest == ms[c..]
  {
    assert (ms[..c] + rest)[c..] == rest;
    assert ms == ms[..c] + ms[c..];
  }

  /** A block named by one three or more above the cut is met too early. */
  lemma CutOrderCrooked(headers: Headers, ms: seq<BlockHash>, c: nat)
    requires NoDup(ms) && 2 <= c < |ms| && !Straight(headers, ms, c - 2)
    requires forall k :: 0 <= k < c ==> !NamedBefore(headers, ms, k)
    ensures OnChain(ms, Dedup(Woven(headers, ms[..c], c))) != ms
  {
    var q, r := Woven(headers, ms[..c], c - 2), UnclesAt(headers, ms, c - 2) + UnclesAt(headers, ms, c - 1);
    var k := EarlyBlock(headers, ms, c);
    StillUnnamed(headers, ms, c, c - 1);
    UnwovenNext(headers, ms[..c], c - 1);
    TooEarly(ms, q, [ms[c - 1]] + r, c - 1, k);
    WovenTail(headers, ms, c);
    Regroup(q, [ms[c - 1]], r);
  }

  lemma Regroup(a: seq<BlockHash>, b: seq<BlockHash>, c: seq<BlockHash>)
    ensures a + b + c == a + (b + c)
  {
  }

  lemma EarlyBlock(headers: Headers, ms: seq<BlockHash>, c: nat) returns (k: nat)
    requires 2 <= c < |ms| && !Straight(headers, ms, c - 2)
    requires forall k :: 0 <= k < c ==> !NamedBefore(headers, ms, k)
    ensures c <= k < |ms| && ms[k] in Woven(headers, ms[..c], c - 2)
  {
    var i, n :| 0 <= i < c - 2 && i + 2 <= n < |ms| && ms[n] in UnclesAt(headers, ms, i);
    k := n;
    assert NamedBefore(headers, ms, k);
    assert UnclesAt(headers, ms[..c], i) == UnclesAt(headers, ms, i);
    WovenMembers(headers, ms[..c], c - 2, ms[k]);
  }

  lemma TooEarly(ms: seq<BlockHash>, q: seq<BlockHash>, r: seq<BlockHash>, j: nat, k: nat)
    requires NoDup(ms) && j < k < |ms| && ms[k] in q && ms[j] !in q
    ensures OnChain(ms, Dedup(q + r)) != ms
  {
    var tail := DedupGrows(q, r);
    var front := OnChain(ms, Dedup(q));
    OnChainConcat(ms, Dedup(q), tail);
    OnChainMembers(ms, Dedup(q));
    DedupFacts(q);
    if front + OnChain(ms, tail) == ms {
      FrontKeeps(ms, front, OnChain(ms, tail), j, k);
    }
  }

  lemma FrontKeeps(ms: seq<BlockHash>, front: seq<BlockHash>, rest: seq<BlockHash>, j: nat, k: nat)
    requires NoDup(ms) && ms == front + rest && j < k < |ms| && ms[k] in front
    ensures ms[j] in front
  {
    var n :| 0 <= n < |front| && front[n] == ms[k];
    assert ms[n] == ms[k] && n == k;
    assert front[j] == ms[j];
  }

  /**
    The main-chain blocks come newest to oldest with none missing exactly when the chain is not cut or is carried
    on.
   */
  lemma NewestToOldestIff(headers: Headers, genesis: BlockHash, start: BlockHash, depth: nat)
    requires WellFormed(headers, genesis) && depth >= 1
    ensures var ms := MainChain(headers, start, depth);
            var c := Cut(headers, ms);
            && (c < |ms| ==> c >= 2)
            && (OnChain(ms, Walk(headers, Start(start, depth))) == ms <==> c == |ms| || CarriedOn(headers, ms, c))
  {
    var ms := MainChain(headers, start, depth);
    var c := Cut(headers, ms);
    if c == |ms| {
      WalkMainOrder(headers, genesis, start, depth);
    } else {
      WalkIsWoven(headers, genesis, start, depth);
      MainChainNoDup(headers, start, depth);
      if Straight(headers, ms, c - 2) {
        CutOrderStraight(headers, ms, c);
      } else {
        CutOrderCrooked(headers, ms, c);
      }
    }
  }

  // ----- stores where the promise is not kept, and where it is kept past a cut -----

  function Block(prev: BlockHash, uncles: seq<BlockHash>, tag: nat): ShareHeader {
    ShareHeader(prev, uncles, tag, 0, 0, 0, 0)
  }

  const G := Block(ALL_ZEROS, [], 0)
  const P := Block(HashOf(G), [], 1)
  const M := Block(HashOf(P), [], 2)
  const N := Block(HashOf(M), [HashOf(P)], 3)

  /** The chain n, m, p, genesis, where n names p as an uncle. */
  const SHORTCUT: Headers := map[HashOf(G) := G, HashOf(P) := P, HashOf(M) := M, HashOf(N) := N]

  lemma ShortcutChain(depth: nat)
    requires depth >= 4
    ensures MainChain(SHORTCUT, HashOf(N), depth) == [HashOf(N), HashOf(M), HashOf(P), HashOf(G)]
  {
    var fromG := MainChain(SHORTCUT, HashOf(G), depth - 3);
    assert MainChain(SHORTCUT, ALL_ZEROS, depth - 4) == [];
    assert fromG == [HashOf(G)];
    var fromP := MainChain(SHORTCUT, HashOf(P), depth - 2);
    assert fromP == [HashOf(P)] + fromG;
    var fromM := MainChain(SHORTCUT, HashOf(M), depth - 1);
    assert fromM == [HashOf(M)] + fromP;
    assert MainChain(SHORTCUT, HashOf(N), depth) == [HashOf(N)] + fromM;
  }

  /** `validate_uncles`: at most three, all of them stored. */
  predicate UnclesValid(headers: Headers, h: ShareHeader) {
    |h.uncles| <= MAX_UNCLES && forall u :: u in h.uncles ==> u in headers
  }

  /** Every block is there and its uncles are valid, yet the walk from n never reaches genesis. */
  lemma OwnAncestorEndsWalk(depth: nat)
    requires depth >= 4
    ensures WellFormed(SHORTCUT, HashOf(G)) && forall b :: b in SHORTCUT ==> UnclesValid(SHORTCUT, SHORTCUT[b])
    ensures HashOf(G) in MainChain(SHORTCUT, HashOf(N), depth) && HashOf(G) !in Walk(SHORTCUT, Start(HashOf(N), depth))
  {
    var ms := MainChain(SHORTCUT, HashOf(N), depth);
    ShortcutChain(depth);
    assert UnclesAt(SHORTCUT, ms, 0) == [HashOf(P)] && NamedBefore(SHORTCUT, ms, 2);
    assert Cut(SHORTCUT, ms) <= 2;
    WalkIsWithin(SHORTCUT, HashOf(G), HashOf(N), depth, HashOf(G));
    assert UnclesAt(SHORTCUT, ms, 1) == [];
  }

  const M2 := Block(HashOf(P), [HashOf(G)], 4)
  const N2 := Block(HashOf(M2), [HashOf(P)], 5)

  /** The same chain, where m names genesis as an uncle too. */
  const CARRIED: Headers := map[HashOf(G) := G, HashOf(P) := P, HashOf(M2) := M2, HashOf(N2) := N2]

  lemma CarriedChain(depth: nat)
    requires depth >= 4
    ensures MainChain(CARRIED, HashOf(N2), depth) == [HashOf(N2), HashOf(M2), HashOf(P), HashOf(G)]
  {
    var fromG := MainChain(CARRIED, HashOf(G), depth - 3);
    assert MainChain(CARRIED, ALL_ZEROS, depth - 4) == [];
    assert fromG == [HashOf(G)];
    var fromP := MainChain(CARRIED, HashOf(P), depth - 2);
    assert fromP == [HashOf(P)] + fromG;
    var fromM := MainChain(CARRIED, HashOf(M2), depth - 1);
    assert fromM == [HashOf(M2)] + fromP;
    assert MainChain(CARRIED, HashOf(N2), depth) == [HashOf(N2)] + fromM;
  }

  /** The chain is cut in the same place, and the uncles of the two blocks above the cut bring the rest in order. */
  lemma UnclesCarryOn(depth: nat)
    requires depth >= 4
    ensures WellFormed(CARRIED, HashOf(G))
    ensures var ms := MainChain(CARRIED, HashOf(N2), depth);
            Cut(CARRIED, ms) == 2 < |ms| && OnChain(ms, Walk(CARRIED, Start(HashOf(N2), depth))) == ms
  {
    var ms := MainChain(CARRIED, HashOf(N2), depth);
    var p, g := HashOf(P), HashOf(G);
    CarriedChain(depth);
    assert UnclesAt(CARRIED, ms, 0) == [p] && UnclesAt(CARRIED, ms, 1) == [g];
    assert NamedBefore(CARRIED, ms, 2) && !NamedBefore(CARRIED, ms, 1) && !NamedBefore(CARRIED, ms, 0);
    PairInOrder(p, g);
    assert ms[2..] == [p, g] && [p] + [g] == [p, g];
    NewestToOldestIff(CARRIED, g, HashOf(N2), depth);
  }

  lemma PairInOrder(p: BlockHash, g: BlockHash)
    requires p != g
    ensures OnChain([p, g], Dedup([p, g])) == [p, g]
  {
    assert [p, g] == [p] + [g] && [p] == [] + [p];
    OnChainNext([p, g], [p], g);
    OnChainNext([p, g], [], p);
  }
}
