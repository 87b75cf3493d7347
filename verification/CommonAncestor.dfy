/** `Store::get_common_ancestor`: the first block of the second DAG that lies in the first. */
module CommonAncestor {
  import opened Primitives
  import opened Types
  import opened DagWalk

  const COMMON_ANCESTOR_DEPTH: nat := 2160

  function Dag(headers: Headers, b: BlockHash, depth: nat): seq<BlockHash> {
    Walk(headers, Start(b, depth))
  }

  function FirstCommon(dag1: seq<BlockHash>, dag2: seq<BlockHash>): Option<BlockHash> {
    if dag2 == [] then None
    else if dag2[0] in dag1 then Some(dag2[0])
    else FirstCommon(dag1, dag2[1..])
  }

  function CommonAncestorWithin(headers: Headers, b1: BlockHash, b2: BlockHash, depth: nat): Option<BlockHash> {
    FirstCommon(Dag(headers, b1, depth), Dag(headers, b2, depth))
  }

  /** `get_common_ancestor`. */
  method GetCommonAncestor(headers: Headers, b1: BlockHash, b2: BlockHash) returns (r: Option<BlockHash>)
    ensures r == CommonAncestorWithin(headers, b1, b2, 2160)
  {
    var chain1 := GetDagForDepth(headers, b1, COMMON_ANCESTOR_DEPTH);
    var chain2 := GetDagForDepth(headers, b2, COMMON_ANCESTOR_DEPTH);
    var chain1Set := set x | x in chain1;
    for i := 0 to |chain2|
      invariant FirstCommon(chain1, chain2) == FirstCommon(chain1, chain2[i..])
    {
      if chain2[i] in chain1Set {
        return Some(chain2[i]);
      }
    }
    return None;
  }

  /** None exactly when the two DAGs are disjoint; otherwise everything before the answer is unshared. */
  lemma {:induction false} FirstCommonFacts(dag1: seq<BlockHash>, dag2: seq<BlockHash>) returns (i: nat)
    ensures FirstCommon(dag1, dag2).None? <==> forall x :: x in dag2 ==> x !in dag1
    ensures FirstCommon(dag1, dag2).Some? ==>
              i < |dag2| && FirstCommon(dag1, dag2) == Some(dag2[i]) && dag2[i] in dag1
                  && forall x :: x in dag2[..i] ==> x !in dag1
  {
    i := 0;
    if dag2 != [] && dag2[0] !in dag1 {
      var k := FirstCommonFacts(dag1, dag2[1..]);
      i := k + 1;
      assert dag2 == [dag2[0]] + dag2[1..];
      if FirstCommon(dag1, dag2).Some? {
        assert dag2[..i] == [dag2[0]] + dag2[1..][..k];
      }
    }
  }

  lemma NoneIffDisjoint(headers: Headers, b1: BlockHash, b2: BlockHash, depth: nat)
    ensures CommonAncestorWithin(headers, b1, b2, depth).None?
       <==> forall x :: x in Dag(headers, b2, depth) ==> x !in Dag(headers, b1, depth)
    ensures var r := CommonAncestorWithin(headers, b1, b2, depth);
            r.Some? ==> r.value in Dag(headers, b1, depth) && r.value in Dag(headers, b2, depth)
  {
    var _ := FirstCommonFacts(Dag(headers, b1, depth), Dag(headers, b2, depth));
  }

  /** Every block the two DAGs share is a main-chain block of both. */
  ghost predicate SharedOnMain(headers: Headers, b1: BlockHash, b2: BlockHash, depth: nat) {
    forall x :: x in Dag(headers, b1, depth) && x in Dag(headers, b2, depth) ==>
      x in MainChain(headers, b1, depth) && x in MainChain(headers, b2, depth)
  }

  /** No block on the main chain of `b` is an uncle of one two or more before it, so the walk meets all of it. */
  ghost predicate Uncut(headers: Headers, b: BlockHash, depth: nat) {
    var ms := MainChain(headers, b, depth);
    Cut(headers, ms) == |ms|
  }

  /** What the lemmas below need of two blocks; uncle-free stores have it. */
  ghost predicate Plain(headers: Headers, b1: BlockHash, b2: BlockHash, depth: nat) {
    Uncut(headers, b1, depth) && Uncut(headers, b2, depth) && SharedOnMain(headers, b1, b2, depth)
  }

  lemma UncleFreeIsPlain(headers: Headers, genesis: BlockHash, b1: BlockHash, b2: BlockHash, depth: nat)
    requires WellFormed(headers, genesis) && depth >= 1
    requires forall b :: b in headers ==> headers[b].uncles == []
    ensures Plain(headers, b1, b2, depth)
  {
    UncleFreeWalk(headers, genesis, b1, depth);
    UncleFreeWalk(headers, genesis, b2, depth);
  }

  lemma UncleFreeWalk(headers: Headers, genesis: BlockHash, b: BlockHash, depth: nat)
    requires WellFormed(headers, genesis) && depth >= 1
    requires forall b :: b in headers ==> headers[b].uncles == []
    ensures Uncut(headers, b, depth)
    ensures forall x :: x in Dag(headers, b, depth) ==> x in MainChain(headers, b, depth)
  {
    WalkMembers(headers, genesis, b, depth);
    UncleFreeIsUncut(headers, MainChain(headers, b, depth));
  }

  lemma UncleFreeIsUncut(headers: Headers, ms: seq<BlockHash>)
    requires forall b :: b in headers ==> headers[b].uncles == []
    ensures Cut(headers, ms) == |ms|
  {
    assert forall i: nat :: UnclesAt(headers, ms, i) == [];
  }

  /** If `d` lists `ms` in order, what follows `d[i]` in `d` and lies on `ms` also follows it in `ms`. */
  lemma OrderCarries(ms: seq<BlockHash>, d: seq<BlockHash>, i: nat, y: BlockHash) returns (k: nat)
    requires OnChain(ms, d) == ms && i < |d| && d[i] in ms && y in d[i..] && y in ms
    ensures k < |ms| && ms[k] == d[i] && y in ms[k..]
  {
    var before, x, later := d[..i], d[i], d[i + 1..];
    assert d == (before + [x]) + later;
    assert d[i..] == [x] + later;
    k := OrderSplit(ms, before, x, later, y);
  }

  lemma OrderSplit(ms: seq<BlockHash>, before: seq<BlockHash>, x: BlockHash, later: seq<BlockHash>, y: BlockHash)
    returns (k: nat)
    requires OnChain(ms, (before + [x]) + later) == ms && x in ms && y in ms && (y == x || y in later)
    ensures k < |ms| && ms[k] == x && y in ms[k..]
  {
    OnChainConcat(ms, before + [x], later);
    OnChainPush(ms, before, x);
    OnChainMembers(ms, later);
    k := SplitAt(ms, OnChain(ms, before), x, OnChain(ms, later), y);
  }

  lemma SplitAt(ms: seq<BlockHash>, before: seq<BlockHash>, x: BlockHash, after: seq<BlockHash>, y: BlockHash)
    returns (k: nat)
    requires ms == (before + [x]) + after && (y == x || y in after)
    ensures k < |ms| && ms[k] == x && y in ms[k..]
  {
    k := |before|;
    assert ms[k..] == [x] + after;
  }

  /** A later element of the walk that is on the main chain is an ancestor of an earlier one. */
  lemma LaterIsAncestor(headers: Headers, genesis: BlockHash, b: BlockHash, depth: nat, i: nat, y: BlockHash)
    requires WellFormed(headers, genesis) && depth >= 1 && Uncut(headers, b, depth)
    requires i < |Dag(headers, b, depth)| && Dag(headers, b, depth)[i] in MainChain(headers, b, depth)
    requires y in Dag(headers, b, depth)[i..] && y in MainChain(headers, b, depth)
    ensures PrevAncestor(headers, Dag(headers, b, depth)[i], y)
  {
    WalkMainOrder(headers, genesis, b, depth);
    var k := OrderCarries(MainChain(headers, b, depth), Dag(headers, b, depth), i, y);
    MainChainSuffix(headers, b, depth, k);
  }

  /** Where shared blocks are on both main chains, the answer is the latest: every shared block is its ancestor. */
  lemma LatestCommonAncestor(headers: Headers, genesis: BlockHash, b1: BlockHash, b2: BlockHash, depth: nat,
                             y: BlockHash)
    requires WellFormed(headers, genesis) && depth >= 1 && Plain(headers, b1, b2, depth)
    requires y in MainChain(headers, b1, depth) && y in MainChain(headers, b2, depth)
    ensures var r := CommonAncestorWithin(headers, b1, b2, depth);
            && r.Some? && r.value in MainChain(headers, b1, depth) && r.value in MainChain(headers, b2, depth)
            && PrevAncestor(headers, r.value, y)
  {
    var d1, d2 := Dag(headers, b1, depth), Dag(headers, b2, depth);
    UncutIsMet(headers, b1, depth);
    UncutIsMet(headers, b2, depth);
    MainInDag(headers, genesis, b1, depth, y);
    MainInDag(headers, genesis, b2, depth, y);
    var i := FirstShared(d1, d2, y);
    LaterIsAncestor(headers, genesis, b2, depth, i, y);
  }

  lemma MainInDag(headers: Headers, genesis: BlockHash, b: BlockHash, depth: nat, y: BlockHash)
    requires WellFormed(headers, genesis) && depth >= 1 && y in Met(headers, b, depth)
    ensures y in Dag(headers, b, depth)
  {
    WalkMembers(headers, genesis, b, depth);
  }

  lemma UncutIsMet(headers: Headers, b: BlockHash, depth: nat)
    requires Uncut(headers, b, depth)
    ensures Met(headers, b, depth) == MainChain(headers, b, depth)
  {
  }

  lemma FirstShared(d1: seq<BlockHash>, d2: seq<BlockHash>, y: BlockHash) returns (i: nat)
    requires y in d1 && y in d2
    ensures i < |d2| && FirstCommon(d1, d2) == Some(d2[i]) && d2[i] in d1 && y in d2[i..]
  {
    i := FirstCommonFacts(d1, d2);
    assert d2 == d2[..i] + d2[i..];
  }

  lemma AncestorShallower(headers: Headers, b: BlockHash, a: BlockHash)
    requires Keyed(headers) && PrevAncestor(headers, b, a)
    ensures a == b || Depth(a) < Depth(b)
  {
    var n :| a in MainChain(headers, b, n);
    var ms := MainChain(headers, b, n);
    var i :| 0 <= i < |ms| && ms[i] == a;
    MainChainAt(headers, b, n, 0);
    if i > 0 {
      MainChainDepths(headers, b, n, 0, i);
    }
  }

  /** A common ancestor within the depth that all shared main-chain blocks descend to is the answer. */
  lemma AnswerIsLatest(headers: Headers, genesis: BlockHash, b1: BlockHash, b2: BlockHash, depth: nat, h: BlockHash)
    requires WellFormed(headers, genesis) && depth >= 1 && Plain(headers, b1, b2, depth)
    requires h in MainChain(headers, b1, depth) && h in MainChain(headers, b2, depth)
    requires forall y :: PrevAncestor(headers, b1, y) && PrevAncestor(headers, b2, y) ==> PrevAncestor(headers, h, y)
    ensures CommonAncestorWithin(headers, b1, b2, depth) == Some(h)
  {
    LatestCommonAncestor(headers, genesis, b1, b2, depth, h);
    var x := CommonAncestorWithin(headers, b1, b2, depth).value;
    assert PrevAncestor(headers, b1, x) && PrevAncestor(headers, b2, x);
    AncestorShallower(headers, x, h);
    AncestorShallower(headers, h, x);
  }

  /** The order of the arguments does not matter. */
  lemma Symmetric(headers: Headers, genesis: BlockHash, b1: BlockHash, b2: BlockHash, depth: nat)
    requires WellFormed(headers, genesis) && depth >= 1 && Plain(headers, b1, b2, depth)
    ensures CommonAncestorWithin(headers, b1, b2, depth) == CommonAncestorWithin(headers, b2, b1, depth)
  {
    var r1, r2 := CommonAncestorWithin(headers, b1, b2, depth), CommonAncestorWithin(headers, b2, b1, depth);
    NoneIffDisjoint(headers, b1, b2, depth);
    NoneIffDisjoint(headers, b2, b1, depth);
    if r1.Some? {
      LatestCommonAncestor(headers, genesis, b2, b1, depth, r1.value);
      LatestCommonAncestor(headers, genesis, b1, b2, depth, r2.value);
      AncestorShallower(headers, r1.value, r2.value);
      AncestorShallower(headers, r2.value, r1.value);
    }
  }
}
