/** Exactly when `get_common_ancestor` answers with a given main-chain block, uncles and all. */
module AncestorAnswer {
  import opened Primitives
  import opened Types
  import opened DagWalk
  import opened CommonAncestor
  import WalkExact

  lemma {:induction false} WovenGrows(headers: Headers, ms: seq<BlockHash>, j: nat, n: nat)
    returns (rest: seq<BlockHash>)
    requires j <= n
    ensures Woven(headers, ms, n) == Woven(headers, ms, j) + rest
    decreases n
  {
    if j == n {
      rest := [];
    } else {
      var r := WovenGrows(headers, ms, j, n - 1);
      rest := r + ((if n < |ms| then [ms[n]] else []) + UnclesAt(headers, ms, n - 1));
    }
  }

  /** What the walk meets before its `k`th main-chain block. */
  function Earlier(headers: Headers, ms: seq<BlockHash>, k: nat): seq<BlockHash> {
    if k == 0 then [] else Woven(headers, ms, k - 1)
  }

  lemma EarlierMembers(headers: Headers, ms: seq<BlockHash>, k: nat, x: BlockHash)
    requires k < |ms| && forall b :: b in ms ==> b in headers
    ensures x in Earlier(headers, ms, k) <==>
            (exists i :: 0 <= i < k && x == ms[i]) || (exists i :: 0 <= i < k - 1 && x in headers[ms[i]].uncles)
  {
    if k > 0 {
      WovenMembers(headers, ms, k - 1, x);
      assert forall i :: 0 <= i < k ==> UnclesAt(headers, ms, i) == headers[ms[i]].uncles;
      assert forall i :: 0 <= i < k ==> ms[..k][i] == ms[i];
    }
  }

  lemma DagSplits(headers: Headers, start: BlockHash, depth: nat, ms: seq<BlockHash>, k: nat)
    returns (tail: seq<BlockHash>)
    requires Spine(headers, start, depth, ms) && SpineUncles(headers, ms) && k < |ms|
    ensures Dedup(Woven(headers, ms, |ms|)) == Dedup(Earlier(headers, ms, k)) + [ms[k]] + tail
  {
    var before := Earlier(headers, ms, k);
    if k > 0 {
      UnwovenNext(headers, ms, k);
    }
    var us := if k == 0 then [] else UnclesAt(headers, ms, k - 1);
    assert Woven(headers, ms, k) == (before + [ms[k]]) + us;
    var rest := WovenGrows(headers, ms, k, |ms|);
    assert Woven(headers, ms, |ms|) == (before + [ms[k]]) + (us + rest);
    tail := DedupGrows(before + [ms[k]], us + rest);
    DedupPush(before, ms[k]);
  }

  lemma {:induction false} FirstCommonSplit(d1: seq<BlockHash>, before: seq<BlockHash>, h: BlockHash,
                                            tail: seq<BlockHash>)
    requires h in d1 && h !in before
    ensures FirstCommon(d1, before + [h] + tail) == Some(h) <==> forall x :: x in before ==> x !in d1
  {
    var d2 := before + [h] + tail;
    if before == [] {
      assert d2[0] == h;
    } else {
      assert d2[0] == before[0] && d2[1..] == before[1..] + [h] + tail;
      FirstCommonSplit(d1, before[1..], h, tail);
      assert before == [before[0]] + before[1..];
    }
  }

  /**
    The `k`th main-chain block the second walk meets, if the first DAG has it, is the answer exactly when the first
    DAG has no main-chain block before it and no uncle of those more than one before it.
   */
  lemma AnswerOnMainIff(headers: Headers, genesis: BlockHash, b1: BlockHash, b2: BlockHash, depth: nat, k: nat)
    requires WellFormed(headers, genesis) && depth >= 1
    requires k < |Met(headers, b2, depth)| && Met(headers, b2, depth)[k] in Dag(headers, b1, depth)
    ensures var ms, d1 := Met(headers, b2, depth), Dag(headers, b1, depth);
            CommonAncestorWithin(headers, b1, b2, depth) == Some(ms[k]) <==>
            && (forall i :: 0 <= i < k ==> ms[i] !in d1)
            && (forall i, u :: 0 <= i < k - 1 && u in headers[ms[i]].uncles ==> u !in d1)
  {
    var ms, d1 := Met(headers, b2, depth), Dag(headers, b1, depth);
    MetIsSpine(headers, b2, depth);
    MetUncles(headers, genesis, b2, depth);
    WalkIsWoven(headers, genesis, b2, depth);
    var tail := DagSplits(headers, b2, depth, ms, k);
    var before := Earlier(headers, ms, k);
    DedupFacts(before);
    if k > 0 {
      UnwovenNext(headers, ms, k);
    }
    FirstCommonSplit(d1, Dedup(before), ms[k], tail);
    UnsharedIff(headers, ms, k, d1);
  }

  lemma UnsharedIff(headers: Headers, ms: seq<BlockHash>, k: nat, d1: seq<BlockHash>)
    requires k < |ms| && forall b :: b in ms ==> b in headers
    ensures (forall x :: x in Earlier(headers, ms, k) ==> x !in d1) <==>
            && (forall i :: 0 <= i < k ==> ms[i] !in d1)
            && (forall i, u :: 0 <= i < k - 1 && u in headers[ms[i]].uncles ==> u !in d1)
  {
    forall x
      ensures x in Earlier(headers, ms, k) <==>
              (exists i :: 0 <= i < k && x == ms[i]) || (exists i :: 0 <= i < k - 1 && x in headers[ms[i]].uncles)
    {
      EarlierMembers(headers, ms, k, x);
    }
  }

  // ----- one block an ancestor of the other -----

  /** Everything in a block's DAG is nested no deeper than the block. */
  lemma DagIsShallower(headers: Headers, genesis: BlockHash, b: BlockHash, depth: nat, x: BlockHash)
    requires WellFormed(headers, genesis) && depth >= 1 && x in Dag(headers, b, depth)
    ensures Depth(x) <= Depth(b)
  {
    var ms := Met(headers, b, depth);
    WalkMembers(headers, genesis, b, depth);
    if x in ms {
      var i :| 0 <= i < |ms| && ms[i] == x;
      OnMainShallower(headers, b, depth, i);
    } else {
      var i :| 0 <= i < |ms| && x in headers[ms[i]].uncles;
      OnMainShallower(headers, b, depth, i);
      ParentShallower(headers[ms[i]], x);
    }
  }

  lemma OnMainShallower(headers: Headers, b: BlockHash, depth: nat, i: nat)
    requires Keyed(headers) && i < |MainChain(headers, b, depth)|
    ensures Depth(MainChain(headers, b, depth)[i]) <= Depth(b)
  {
    MainChainAt(headers, b, depth, 0);
    if i > 0 {
      MainChainDepths(headers, b, depth, 0, i);
    }
  }

  /** A main-chain block's DAG holds none of the blocks above it. */
  lemma AboveIsApart(headers: Headers, genesis: BlockHash, newer: BlockHash, depth: nat, i: nat, k: nat)
    requires WellFormed(headers, genesis) && depth >= 1 && i < k < |MainChain(headers, newer, depth)|
    ensures MainChain(headers, newer, depth)[i] !in Dag(headers, MainChain(headers, newer, depth)[k], depth)
  {
    var ms := MainChain(headers, newer, depth);
    MainChainDepths(headers, newer, depth, i, k);
    if ms[i] in Dag(headers, ms[k], depth) {
      DagIsShallower(headers, genesis, ms[k], depth, ms[i]);
    }
  }

  lemma StartIsMet(headers: Headers, genesis: BlockHash, b: BlockHash, depth: nat)
    requires WellFormed(headers, genesis) && depth >= 1 && b in headers
    ensures Met(headers, b, depth) != [] && Met(headers, b, depth)[0] == b && b in Dag(headers, b, depth)
  {
    var ms := MainChain(headers, b, depth);
    assert ms[0] == b && !NamedBefore(headers, ms, 0);
    MainInDag(headers, genesis, b, depth, b);
  }

  /**
    The source documents that when one block is an ancestor of the other, it is the answer. With the ancestor as the
    first argument and met as such, that holds exactly when no uncle met before it is in its own DAG.
   */
  lemma AncestorFirstIff(headers: Headers, genesis: BlockHash, newer: BlockHash, depth: nat, k: nat)
    requires WellFormed(headers, genesis) && depth >= 1 && k < |Met(headers, newer, depth)|
    ensures var ms := Met(headers, newer, depth);
            CommonAncestorWithin(headers, ms[k], newer, depth) == Some(ms[k]) <==>
            forall i, u :: 0 <= i < k - 1 && u in headers[ms[i]].uncles ==> u !in Dag(headers, ms[k], depth)
  {
    var ms := Met(headers, newer, depth);
    assert ms[k] == MainChain(headers, newer, depth)[k] && ms[k] in MainChain(headers, newer, depth);
    StartIsMet(headers, genesis, ms[k], depth);
    forall i | 0 <= i < k ensures ms[i] !in Dag(headers, ms[k], depth) {
      AboveIsApart(headers, genesis, newer, depth, i, k);
    }
    AnswerOnMainIff(headers, genesis, ms[k], newer, depth, k);
  }

  /** The uncles of the first `n` blocks, in chain order. */
  function UnclesOf(headers: Headers, ms: seq<BlockHash>, n: nat): seq<BlockHash> {
    if n == 0 then [] else UnclesOf(headers, ms, n - 1) + UnclesAt(headers, ms, n - 1)
  }

  /**
    Below the cut the ancestor is met as an uncle or not at all. It is then the answer exactly when it is the first
    of the uncles above the cut, in chain order, that is in its own DAG.
   */
  lemma AncestorFirstBelowCutIff(headers: Headers, genesis: BlockHash, newer: BlockHash, depth: nat, k: nat)
    requires WellFormed(headers, genesis) && depth >= 1
    requires |Met(headers, newer, depth)| <= k < |MainChain(headers, newer, depth)|
    ensures var met, older := Met(headers, newer, depth), MainChain(headers, newer, depth)[k];
            CommonAncestorWithin(headers, older, newer, depth) == Some(older) <==>
            FirstCommon(Dag(headers, older, depth), UnclesOf(headers, met, |met|)) == Some(older)
  {
    var ms, met := MainChain(headers, newer, depth), Met(headers, newer, depth);
    var d := Dag(headers, ms[k], depth);
    WalkIsWoven(headers, genesis, newer, depth);
    FirstCommonDedup(d, Woven(headers, met, |met|));
    forall i | 0 <= i < |met| ensures met[i] !in d {
      AboveIsApart(headers, genesis, newer, depth, i, k);
    }
    FirstIsUncle(headers, met, |met|, d);
  }

  lemma {:induction false} FirstCommonConcat(d1: seq<BlockHash>, a: seq<BlockHash>, b: seq<BlockHash>)
    ensures FirstCommon(d1, a + b) == if FirstCommon(d1, a).Some? then FirstCommon(d1, a) else FirstCommon(d1, b)
  {
    if a == [] {
      assert a + b == b;
    } else {
      assert (a + b)[1..] == a[1..] + b;
      FirstCommonConcat(d1, a[1..], b);
    }
  }

  lemma {:induction false} FirstCommonDedup(d1: seq<BlockHash>, s: seq<BlockHash>)
    ensures FirstCommon(d1, Dedup(s)) == FirstCommon(d1, s)
  {
    if s == [] {
    } else {
      var init, x := s[..|s| - 1], s[|s| - 1];
      assert s == init + [x];
      FirstCommonDedup(d1, init);
      DedupPush(init, x);
      FirstCommonConcat(d1, init, [x]);
      FirstCommonConcat(d1, Dedup(init), [x]);
      var _ := FirstCommonFacts(d1, init);
    }
  }

  lemma FirstCommonApart(d1: seq<BlockHash>, s: seq<BlockHash>)
    requires forall x :: x in s ==> x !in d1
    ensures FirstCommon(d1, s) == None
  {
    var _ := FirstCommonFacts(d1, s);
  }

  lemma {:induction false} FirstIsUncle(headers: Headers, ms: seq<BlockHash>, j: nat, d: seq<BlockHash>)
    requires j <= |ms| && forall i :: 0 <= i < |ms| ==> ms[i] !in d
    ensures FirstCommon(d, Woven(headers, ms, j)) == FirstCommon(d, UnclesOf(headers, ms, j))
  {
    if j == 0 {
      FirstCommonApart(d, Woven(headers, ms, 0));
    } else {
      var w, m, us := Woven(headers, ms, j - 1), if j < |ms| then [ms[j]] else [], UnclesAt(headers, ms, j - 1);
      FirstIsUncle(headers, ms, j - 1, d);
      FirstCommonConcat(d, w + m, us);
      FirstCommonConcat(d, w, m);
      FirstCommonApart(d, m);
      FirstCommonConcat(d, UnclesOf(headers, ms, j - 1), us);
    }
  }

  /** With the ancestor as the second argument it holds exactly when the walk meets the ancestor at all. */
  lemma AncestorSecondIff(headers: Headers, genesis: BlockHash, newer: BlockHash, depth: nat, k: nat)
    requires WellFormed(headers, genesis) && depth >= 1 && k < |MainChain(headers, newer, depth)|
    ensures var met, older := Met(headers, newer, depth), MainChain(headers, newer, depth)[k];
            CommonAncestorWithin(headers, newer, older, depth) == Some(older) <==>
            k < |met| || exists i :: 0 <= i < |met| && older in headers[met[i]].uncles
  {
    var ms, met := MainChain(headers, newer, depth), Met(headers, newer, depth);
    assert ms[k] in ms;
    StartIsMet(headers, genesis, ms[k], depth);
    WalkMembers(headers, genesis, newer, depth);
    MetIffAboveCut(headers, newer, depth, k);
    if ms[k] in Dag(headers, newer, depth) {
      AnswerOnMainIff(headers, genesis, newer, ms[k], depth, 0);
    } else {
      NoneIffDisjoint(headers, newer, ms[k], depth);
    }
  }

  lemma MetIffAboveCut(headers: Headers, newer: BlockHash, depth: nat, k: nat)
    requires Keyed(headers) && k < |MainChain(headers, newer, depth)|
    ensures MainChain(headers, newer, depth)[k] in Met(headers, newer, depth) <==> k < |Met(headers, newer, depth)|
  {
    var ms, met := MainChain(headers, newer, depth), Met(headers, newer, depth);
    MainChainNoDup(headers, newer, depth);
    if k < |met| {
      assert met[k] == ms[k];
    } else {
      assert forall i :: 0 <= i < |met| ==> met[i] == ms[i] != ms[k];
    }
  }

  // ----- a store where the documented answer is not given -----

  /** Two children p and u of genesis, o over p with uncle u, m over o, and n over m that names uncle u again. */
  const G := WalkExact.Block(ALL_ZEROS, [], 0)
  const P := WalkExact.Block(HashOf(G), [], 1)
  const U := WalkExact.Block(HashOf(G), [], 2)
  const O := WalkExact.Block(HashOf(P), [HashOf(U)], 3)
  const M := WalkExact.Block(HashOf(O), [], 4)
  const N := WalkExact.Block(HashOf(M), [HashOf(U)], 5)
  const STORE: Headers := map[HashOf(G) := G, HashOf(P) := P, HashOf(U) := U, HashOf(O) := O, HashOf(M) := M,
      HashOf(N) := N]

  lemma StoreIsWellFormed()
    ensures WellFormed(STORE, HashOf(G))
  {
  }

  lemma ThreeFromN(depth: nat)
    requires depth >= 3
    ensures var ms := MainChain(STORE, HashOf(N), depth);
            |ms| >= 3 && ms[0] == HashOf(N) && ms[1] == HashOf(M) && ms[2] == HashOf(O)
  {
    var fromO := MainChain(STORE, HashOf(O), depth - 2);
    assert fromO != [] && fromO[0] == HashOf(O);
    var fromM := MainChain(STORE, HashOf(M), depth - 1);
    assert fromM == [HashOf(M)] + fromO;
    assert MainChain(STORE, HashOf(N), depth) == [HashOf(N)] + fromM;
  }

  /** o is two below n on the main chain, and the answer is not o. */
  lemma RepeatedUncleHidesAncestor(depth: nat)
    requires depth >= 3
    ensures WellFormed(STORE, HashOf(G))
    ensures HashOf(O) in MainChain(STORE, HashOf(N), depth)
    ensures CommonAncestorWithin(STORE, HashOf(O), HashOf(N), depth) != Some(HashOf(O))
  {
    StoreIsWellFormed();
    var ms, met := MainChain(STORE, HashOf(N), depth), Met(STORE, HashOf(N), depth);
    ThreeFromN(depth);
    StartIsMet(STORE, HashOf(G), HashOf(O), depth);
    WalkMembers(STORE, HashOf(G), HashOf(O), depth);
    var os := Met(STORE, HashOf(O), depth);
    assert os[0] == HashOf(O) && HashOf(U) in STORE[os[0]].uncles;
    assert HashOf(U) in Dag(STORE, HashOf(O), depth);
    assert UnclesAt(STORE, ms, 0) == [HashOf(U)];
    assert !NamedBefore(STORE, ms, 0) && !NamedBefore(STORE, ms, 1) && !NamedBefore(STORE, ms, 2);
    assert |met| >= 3 && met[0] == ms[0] && met[2] == ms[2];
    AncestorFirstIff(STORE, HashOf(G), HashOf(N), depth, 2);
    assert met[0] == HashOf(N) && HashOf(U) in STORE[met[0]].uncles;
  }
}
