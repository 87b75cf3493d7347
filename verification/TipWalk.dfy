/**
  `Store::get_shares_from_tip_to_blockhash`: backward over prev and uncle links from every tip, not past the
  target.
 */
module TipWalk {
  import opened Primitives
  import opened Graph
  import opened Types

  /** The backward links the walk may follow: those of every stored share but the target. */
  function BackLinks(headers: Headers, target: BlockHash): Index<BlockHash> {
    map b | b in headers && b != target :: Parents(headers[b])
  }

  /** `x` is stored and some tip leads back to it without passing through the target. */
  ghost predicate Between(headers: Headers, target: BlockHash, tips: seq<BlockHash>, x: BlockHash) {
    x in headers && LedTo(headers, target, tips, x)
  }

  ghost predicate LedTo(headers: Headers, target: BlockHash, tips: seq<BlockHash>, x: BlockHash) {
    exists t :: t in tips && Reachable(BackLinks(headers, target), t, x)
  }

  /** The variables of the loop. */
  datatype State = State(queue: seq<BlockHash>, visited: set<BlockHash>, shares: seq<BlockHash>)

  /** What expanding `hash` puts on the queue. */
  function Expansion(headers: Headers, target: BlockHash, hash: BlockHash): seq<BlockHash>
    requires hash in headers
  {
    if hash == target then [] else Parents(headers[hash])
  }

  /** One turn of the loop. */
  function Step(headers: Headers, target: BlockHash, s: State): State
    requires s.queue != []
  {
    var hash := s.queue[0];
    if hash in s.visited || hash !in headers then s.(queue := s.queue[1..])
    else State(s.queue[1..] + Expansion(headers, target, hash), s.visited + {hash}, s.shares + [hash])
  }

  lemma StepShrinks(headers: Headers, target: BlockHash, s: State)
    requires s.queue != []
    ensures var t := Step(headers, target, s);
            |headers.Keys - t.visited| < |headers.Keys - s.visited| || (t.visited == s.visited && |t.queue| < |s.queue|)
  {
    var hash := s.queue[0];
    if hash in headers && hash !in s.visited {
      assert headers.Keys - s.visited == (headers.Keys - (s.visited + {hash})) + {hash};
    }
  }

  /** The shares collected from a given loop state; it ends on every finite store, cyclic or not. */
  function Collect(headers: Headers, target: BlockHash, s: State): seq<BlockHash>
    decreases |headers.Keys - s.visited|, |s.queue|
  {
    if s.queue == [] then s.shares
    else
      StepShrinks(headers, target, s);
      Collect(headers, target, Step(headers, target, s))
  }

  ghost predicate WalkInv(headers: Headers, target: BlockHash, tips: seq<BlockHash>, s: State) {
    && NoDup(s.shares) && Elements(s.shares) == s.visited && s.visited <= headers.Keys
    && (forall x :: x in s.queue || x in s.visited ==> LedTo(headers, target, tips, x))
    && (forall t :: t in tips && t in headers ==> t in s.visited || t in s.queue)
    && (forall x, p :: x in s.visited && Edge(BackLinks(headers, target), x, p) && p in headers ==>
          p in s.visited || p in s.queue)
  }

  lemma WalkInvStart(headers: Headers, target: BlockHash, tips: seq<BlockHash>)
    ensures WalkInv(headers, target, tips, State(tips, {}, []))
  {
    forall t | t in tips ensures LedTo(headers, target, tips, t) {
      ReachableSelf(BackLinks(headers, target), t);
    }
  }

  lemma WalkInvStep(headers: Headers, target: BlockHash, tips: seq<BlockHash>, s: State)
    requires WalkInv(headers, target, tips, s) && s.queue != []
    ensures WalkInv(headers, target, tips, Step(headers, target, s))
  {
    var hash, g, t := s.queue[0], BackLinks(headers, target), Step(headers, target, s);
    if hash in headers && hash !in s.visited {
      NoDupPush(s.shares, hash);
      forall p | p in Expansion(headers, target, hash) ensures LedTo(headers, target, tips, p) {
        var tip :| tip in tips && Reachable(g, tip, hash);
        ReachableStep(g, tip, hash, p);
      }
      forall x, p | x in t.visited && Edge(g, x, p) && p in headers ensures p in t.visited || p in t.queue {
        if x == hash {
          assert p in Expansion(headers, target, hash);
        }
      }
    }
  }

  lemma {:induction false} PathVisited(headers: Headers, target: BlockHash, p: seq<BlockHash>, visited: set<BlockHash>)
    requires IsPath(BackLinks(headers, target), p) && p[|p| - 1] in headers
    requires p[0] in headers ==> p[0] in visited
    requires forall x, q :: x in visited && Edge(BackLinks(headers, target), x, q) && q in headers ==> q in visited
    ensures p[|p| - 1] in visited
  {
    if |p| > 1 {
      assert Edge(BackLinks(headers, target), p[0], p[1]);
      PathVisited(headers, target, p[1..], visited);
    }
  }

  lemma WalkComplete(headers: Headers, target: BlockHash, tips: seq<BlockHash>, s: State)
    requires WalkInv(headers, target, tips, s) && s.queue == []
    ensures forall x :: x in s.shares <==> Between(headers, target, tips, x)
  {
    var g := BackLinks(headers, target);
    forall x | Between(headers, target, tips, x) ensures x in s.shares {
      var t :| t in tips && Reachable(g, t, x);
      var p :| PathFromTo(g, p, t, x);
      PathVisited(headers, target, p, s.visited);
    }
    forall x | x in s.shares ensures Between(headers, target, tips, x) {
      assert x in s.visited;
    }
  }

  lemma {:induction false} CollectExact(headers: Headers, target: BlockHash, tips: seq<BlockHash>, s: State)
    requires WalkInv(headers, target, tips, s)
    ensures NoDup(Collect(headers, target, s))
    ensures forall x :: x in Collect(headers, target, s) <==> Between(headers, target, tips, x)
    decreases |headers.Keys - s.visited|, |s.queue|
  {
    if s.queue == [] {
      WalkComplete(headers, target, tips, s);
    } else {
      StepShrinks(headers, target, s);
      WalkInvStep(headers, target, tips, s);
      CollectExact(headers, target, tips, Step(headers, target, s));
    }
  }

  /**
    `get_shares_from_tip_to_blockhash`, each share named by its hash. `tips` is the tip set in the order
    the hash set is iterated.
   */
  method GetSharesFromTipToBlockhash(headers: Headers, tips: seq<BlockHash>, target: BlockHash)
    returns (r: Result<seq<BlockHash>>)
    ensures r.Ok? <==> target in headers
    ensures r.Ok? ==> NoDup(r.value) && forall x :: x in r.value <==> Between(headers, target, tips, x)
  {
    if target !in headers {
      return Err;
    }
    var allShares := CollectShares(headers, tips, target);
    WalkInvStart(headers, target, tips);
    CollectExact(headers, target, tips, State(tips, {}, []));
    return Ok(allShares);
  }

  /** The inner loop: every uncle joins the queue. */
  method PushAll(toVisit: seq<BlockHash>, uncles: seq<BlockHash>) returns (r: seq<BlockHash>)
    ensures r == toVisit + uncles
  {
    r := toVisit;
    for i := 0 to |uncles|
      invariant r == toVisit + uncles[..i]
    {
      r := r + [uncles[i]];
    }
  }

  /** The loop of `get_shares_from_tip_to_blockhash`. */
  method CollectShares(headers: Headers, tips: seq<BlockHash>, target: BlockHash) returns (allShares: seq<BlockHash>)
    ensures allShares == Collect(headers, target, State(tips, {}, []))
  {
    allShares := [];
    var visited: set<BlockHash> := {};
    var toVisit := tips;
    while toVisit != []
      invariant Collect(headers, target, State(toVisit, visited, allShares))
                == Collect(headers, target, State(tips, {}, []))
      decreases |headers.Keys - visited|, |toVisit|
    {
      ghost var s := State(toVisit, visited, allShares);
      StepShrinks(headers, target, s);
      var hash := toVisit[0];
      toVisit := toVisit[1..];
      if hash in visited {
        continue;
      }
      if hash in headers {
        visited := visited + {hash};
        allShares := allShares + [hash];
        if hash != target {
          toVisit := PushAll(toVisit + [headers[hash].prevShareBlockhash], headers[hash].uncles);
        }
      }
      assert State(toVisit, visited, allShares) == Step(headers, target, s);
    }
  }
}
