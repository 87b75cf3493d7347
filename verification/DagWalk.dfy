/**
  `Store::get_dag_for_depth`: one queue walks the main chain and its uncles together, with a
  visited set, a budget that only main-chain blocks use up, and an early stop on a missing header.
 */
module DagWalk {
  import opened Primitives
  import opened Types

  /** A queue entry: a block hash and whether it was reached along the main chain. */
  datatype Visit = Visit(hash: BlockHash, isMainChain: bool)

  function Tag(uncles: seq<BlockHash>): seq<Visit> {
    seq(|uncles|, i requires 0 <= i < |uncles| => Visit(uncles[i], false))
  }

  /** The largest value of the source's unsigned counters. */
  const USIZE_MAX: nat := 0xFFFF_FFFF_FFFF_FFFF

  /** One less, in wrapping unsigned arithmetic. */
  function Less(n: nat): nat {
    if n == 0 then USIZE_MAX else n - 1
  }

  /** What popping a main-chain block with header `h` puts on the queue. */
  function Pushed(h: ShareHeader, remaining: nat): seq<Visit> {
    (if remaining > 0 then [Visit(h.prevShareBlockhash, true)] else []) + Tag(h.uncles)
  }

  /** The variables of the loop. */
  datatype State = State(queue: seq<Visit>, visited: set<BlockHash>, results: seq<BlockHash>, remaining: nat)

  predicate Stopped(headers: Headers, s: State) {
    s.queue == [] || (s.queue[0].hash !in s.visited && s.queue[0].hash !in headers)
  }

  /** One turn of the loop. */
  function Step(headers: Headers, s: State): State
    requires !Stopped(headers, s)
  {
    var next := s.queue[0];
    if next.hash in s.visited then s.(queue := s.queue[1..])
    else
      var h := headers[next.hash];
      var visited, results := s.visited + {next.hash}, s.results + [HashOf(h)];
      if next.isMainChain then
        State(s.queue[1..] + Pushed(h, Less(s.remaining)), visited, results, Less(s.remaining))
      else
        State(s.queue[1..], visited, results, s.remaining)
  }

  lemma StepShrinks(headers: Headers, s: State)
    requires !Stopped(headers, s)
    ensures var t := Step(headers, s);
            |headers.Keys - t.visited| < |headers.Keys - s.visited|
            || (t.visited == s.visited && |t.queue| < |s.queue|)
  {
    var next := s.queue[0].hash;
    if next !in s.visited {
      assert headers.Keys - s.visited == (headers.Keys - (s.visited + {next})) + {next};
    }
  }

  /** The result of the walk from a given loop state; it ends on every finite store, cyclic or not. */
  function Walk(headers: Headers, s: State): seq<BlockHash>
    decreases |headers.Keys - s.visited|, |s.queue|
  {
    if Stopped(headers, s) then s.results
    else
      StepShrinks(headers, s);
      Walk(headers, Step(headers, s))
  }

  function Start(start: BlockHash, depth: nat): State {
    State([Visit(start, true)], {}, [], depth)
  }

  /** The inner loop: uncles join the queue off the main chain. */
  method PushUncles(toVisit: seq<Visit>, uncles: seq<BlockHash>) returns (r: seq<Visit>)
    ensures r == toVisit + Tag(uncles)
  {
    r := toVisit;
    for i := 0 to |uncles|
      invariant r == toVisit + Tag(uncles[..i])
    {
      r := r + [Visit(uncles[i], false)];
    }
    assert uncles[..|uncles|] == uncles;
  }

  /** What a main-chain block puts on the queue: its parent while depth remains, then its uncles. */
  method PushParents(toVisit: seq<Visit>, header: ShareHeader, remaining: nat) returns (r: seq<Visit>)
    ensures r == toVisit + Pushed(header, remaining)
  {
    r := toVisit;
    if remaining > 0 {
      r := r + [Visit(header.prevShareBlockhash, true)];
    }
    r := PushUncles(r, header.uncles);
  }

  /** `get_dag_for_depth`. */
  method GetDagForDepth(headers: Headers, start: BlockHash, depth: nat) returns (results: seq<BlockHash>)
    ensures results == Walk(headers, Start(start, depth))
  {
    var toVisit := [Visit(start, true)];
    results := [];
    var visited: set<BlockHash> := {};
    var remaining := depth;
    while toVisit != []
      invariant Walk(headers, State(toVisit, visited, results, remaining)) == Walk(headers, Start(start, depth))
      decreases |headers.Keys - visited|, |toVisit|
    {
      ghost var s := State(toVisit, visited, results, remaining);
      var next := toVisit[0];
      toVisit := toVisit[1..];
      if next.hash in visited {
        continue;
      }
      if next.hash !in headers {
        break;
      }
      StepShrinks(headers, s);
      var header := headers[next.hash];
      visited := visited + {next.hash};
      results := results + [HashOf(header)];
      if next.isMainChain {
        remaining := Less(remaining);
        toVisit := PushParents(toVisit, header, remaining);
      }
      assert State(toVisit, visited, results, remaining) == Step(headers, s);
    }
  }

  /** The first `depth` blocks from `start` along prev links, newest first, as far as they are stored. */
  function MainChain(headers: Headers, start: BlockHash, depth: nat): (r: seq<BlockHash>)
    ensures |r| <= depth && forall b :: b in r ==> b in headers
    decreases depth
  {
    if depth == 0 || start !in headers then []
    else [start] + MainChain(headers, headers[start].prevShareBlockhash, depth - 1)
  }

  ghost predicate PrevAncestor(headers: Headers, b: BlockHash, a: BlockHash) {
    exists n :: a in MainChain(headers, b, n)
  }

  /** Every block is stored under its own hash. */
  ghost predicate Keyed(headers: Headers) {
    forall b :: b in headers ==> HashOf(headers[b]) == b
  }

  /** A store that holds the parent and the uncles of all its blocks but genesis, which has neither. */
  ghost predicate WellFormed(headers: Headers, genesis: BlockHash) {
    && Keyed(headers)
    && (forall b :: b in headers && b != genesis ==> headers[b].prevShareBlockhash in headers)
    && (genesis in headers ==> headers[genesis].prevShareBlockhash !in headers && headers[genesis].uncles == [])
    && (forall b, u :: b in headers && u in headers[b].uncles ==> u in headers)
  }

  /** Element `i + 1` of a main chain is the parent of element `i`; the chain stops early only at a missing parent. */
  lemma {:induction false} MainChainAt(headers: Headers, start: BlockHash, depth: nat, i: nat)
    requires i < |MainChain(headers, start, depth)|
    ensures var ms := MainChain(headers, start, depth);
            && (i == 0 ==> ms[i] == start)
            && (i + 1 < |ms| ==> ms[i + 1] == headers[ms[i]].prevShareBlockhash)
            && (i + 1 == |ms| < depth ==> headers[ms[i]].prevShareBlockhash !in headers)
    decreases depth
  {
    var prev := headers[start].prevShareBlockhash;
    if i > 0 {
      MainChainAt(headers, prev, depth - 1, i - 1);
    } else if MainChain(headers, prev, depth - 1) != [] {
      MainChainAt(headers, prev, depth - 1, 0);
    }
  }

  /** The chain from an element of a main chain is the rest of that main chain. */
  lemma {:induction false} MainChainSuffix(headers: Headers, start: BlockHash, depth: nat, i: nat)
    requires i < |MainChain(headers, start, depth)|
    ensures MainChain(headers, MainChain(headers, start, depth)[i], depth - i) == MainChain(headers, start, depth)[i..]
    decreases depth
  {
    if i == 0 {
    } else {
      MainChainSuffix(headers, headers[start].prevShareBlockhash, depth - 1, i - 1);
    }
  }

  lemma {:induction false} MainChainDepths(headers: Headers, start: BlockHash, depth: nat, i: nat, j: nat)
    requires Keyed(headers)
    requires i < j < |MainChain(headers, start, depth)|
    ensures Depth(MainChain(headers, start, depth)[j]) < Depth(MainChain(headers, start, depth)[i])
    decreases j
  {
    var ms := MainChain(headers, start, depth);
    MainChainAt(headers, start, depth, j - 1);
    ParentShallower(headers[ms[j - 1]], ms[j]);
    if i < j - 1 {
      MainChainDepths(headers, start, depth, i, j - 1);
    }
  }

  lemma MainChainNoDup(headers: Headers, start: BlockHash, depth: nat)
    requires Keyed(headers)
    ensures NoDup(MainChain(headers, start, depth))
  {
    var ms := MainChain(headers, start, depth);
    forall i, j | 0 <= i < j < |ms| ensures ms[i] != ms[j] {
      MainChainDepths(headers, start, depth, i, j);
    }
  }

  function UnclesAt(headers: Headers, ms: seq<BlockHash>, i: nat): seq<BlockHash> {
    if i < |ms| && ms[i] in headers then headers[ms[i]].uncles else []
  }

  // ----- where the main chain is cut -----

  /**
    Block `j` of the chain is also an uncle of a block two or more before it. The walk then meets it first as
    that uncle, skips it when its turn on the main chain comes, and goes no further down.
   */
  predicate NamedBefore(headers: Headers, ms: seq<BlockHash>, j: nat)
    requires j < |ms|
  {
    exists i :: 0 <= i < j - 1 && ms[j] in UnclesAt(headers, ms, i)
  }

  function CutFrom(headers: Headers, ms: seq<BlockHash>, j: nat): (c: nat)
    requires j <= |ms|
    ensures j <= c <= |ms|
    ensures forall k :: j <= k < c ==> !NamedBefore(headers, ms, k)
    ensures c < |ms| ==> NamedBefore(headers, ms, c)
    decreases |ms| - j
  {
    if j == |ms| || NamedBefore(headers, ms, j) then j else CutFrom(headers, ms, j + 1)
  }

  /** How many blocks of the chain the walk meets as main-chain blocks. */
  function Cut(headers: Headers, ms: seq<BlockHash>): (c: nat)
    ensures c <= |ms|
    ensures forall k :: 0 <= k < c ==> !NamedBefore(headers, ms, k)
    ensures c < |ms| ==> NamedBefore(headers, ms, c)
  {
    CutFrom(headers, ms, 0)
  }

  /** The blocks of the main chain that the walk meets as such. */
  function Met(headers: Headers, start: BlockHash, depth: nat): seq<BlockHash> {
    var ms := MainChain(headers, start, depth);
    ms[..Cut(headers, ms)]
  }

  /** `p` is an uncle of a block two or more before the end of `ms`. */
  ghost predicate NamedEarly(headers: Headers, ms: seq<BlockHash>, p: BlockHash) {
    exists i :: 0 <= i < |ms| - 1 && p in UnclesAt(headers, ms, i)
  }

  // ----- the facts about the met chain that the queue argument needs -----

  /** Its links, and why it ends: at the depth, at a missing parent, or at a parent already met as an uncle. */
  ghost predicate Spine(headers: Headers, start: BlockHash, depth: nat, ms: seq<BlockHash>) {
    && |ms| <= depth && NoDup(ms)
    && (forall i :: 0 <= i < |ms| ==> ms[i] in headers)
    && (if ms == [] then start !in headers else ms[0] == start)
    && (forall i :: 0 < i < |ms| ==> ms[i] == headers[ms[i - 1]].prevShareBlockhash)
    && (0 < |ms| < depth ==>
          var p := headers[ms[|ms| - 1]].prevShareBlockhash; p !in headers || NamedEarly(headers, ms, p))
  }

  /** Its uncles: stored, not naming a block two or more below, and none at a block whose parent is missing. */
  ghost predicate SpineUncles(headers: Headers, ms: seq<BlockHash>) {
    && (forall i :: 0 <= i < |ms| ==> ms[i] in headers)
    && (forall j :: 0 <= j < |ms| ==> !NamedBefore(headers, ms, j))
    && (forall i, u :: 0 <= i < |ms| && u in headers[ms[i]].uncles ==> u in headers)
    && (forall i :: 0 <= i < |ms| && headers[ms[i]].prevShareBlockhash !in headers ==> headers[ms[i]].uncles == [])
  }

  lemma MainChainLinks(headers: Headers, start: BlockHash, depth: nat, i: nat)
    requires Keyed(headers) && i < |MainChain(headers, start, depth)|
    ensures var ms := MainChain(headers, start, depth);
            && ms[0] == start
            && (i > 0 ==> ms[i] == headers[ms[i - 1]].prevShareBlockhash)
            && (i + 1 == |ms| < depth ==> headers[ms[i]].prevShareBlockhash !in headers)
  {
    MainChainAt(headers, start, depth, 0);
    MainChainAt(headers, start, depth, i);
    if i > 0 {
      MainChainAt(headers, start, depth, i - 1);
    }
  }

  lemma MetIsSpine(headers: Headers, start: BlockHash, depth: nat)
    requires Keyed(headers) && depth >= 1
    ensures Spine(headers, start, depth, Met(headers, start, depth))
  {
    var ms := MainChain(headers, start, depth);
    var c := Cut(headers, ms);
    MainChainNoDup(headers, start, depth);
    forall i | 0 < i < |ms| ensures ms[i] == headers[ms[i - 1]].prevShareBlockhash {
      MainChainLinks(headers, start, depth, i);
    }
    if ms != [] {
      MainChainLinks(headers, start, depth, |ms| - 1);
    }
    if c < |ms| {
      var i :| 0 <= i < c - 1 && ms[c] in UnclesAt(headers, ms, i);
      assert ms[c] in UnclesAt(headers, ms[..c], i);
      assert ms[c] == headers[ms[..c][c - 1]].prevShareBlockhash;
    } else {
      assert ms[..c] == ms;
    }
  }

  lemma MetUncles(headers: Headers, genesis: BlockHash, start: BlockHash, depth: nat)
    requires WellFormed(headers, genesis)
    ensures SpineUncles(headers, Met(headers, start, depth))
  {
    var ms := MainChain(headers, start, depth);
    var met := Met(headers, start, depth);
    forall j | 0 <= j < |met| ensures !NamedBefore(headers, met, j) {
      StillUnnamed(headers, ms, |met|, j);
    }
    forall i | 0 <= i < |met| ensures met[i] in headers {
      assert ms[i] in ms;
    }
  }

  lemma StillUnnamed(headers: Headers, ms: seq<BlockHash>, c: nat, j: nat)
    requires j < c <= |ms| && !NamedBefore(headers, ms, j)
    ensures !NamedBefore(headers, ms[..c], j)
  {
    assert forall i :: 0 <= i < j ==> UnclesAt(headers, ms[..c], i) == UnclesAt(headers, ms, i);
  }

  // ----- the loop -----

  /** The interleaved visiting order through round `j`: m0, m1, U(m0), m2, U(m1), ..., mj, U(m(j-1)). */
  function Woven(headers: Headers, ms: seq<BlockHash>, j: nat): seq<BlockHash> {
    if j == 0 then ms[..Min(1, |ms|)]
    else Woven(headers, ms, j - 1) + (if j < |ms| then [ms[j]] else []) + UnclesAt(headers, ms, j - 1)
  }

  /** `x` is one of the first `j` main-chain blocks, or an uncle of one that is not the last of them. */
  ghost predicate Seen(headers: Headers, ms: seq<BlockHash>, j: nat, x: BlockHash) {
    exists i :: 0 <= i < j && i < |ms| && (x == ms[i] || (i + 1 < j && x in UnclesAt(headers, ms, i)))
  }

  /** The main-chain entry waiting in the queue once `j` main-chain blocks were popped. */
  function Waiting(headers: Headers, start: BlockHash, ms: seq<BlockHash>, j: nat, depth: nat): seq<Visit> {
    if j >= depth then []
    else if j == 0 then [Visit(start, true)]
    else if j <= |ms| && ms[j - 1] in headers then [Visit(headers[ms[j - 1]].prevShareBlockhash, true)]
    else []
  }

  /** The uncles of the last of the first `j` main-chain blocks. */
  function LastUncles(headers: Headers, ms: seq<BlockHash>, j: nat): seq<BlockHash> {
    if j == 0 then [] else UnclesAt(headers, ms, j - 1)
  }

  /**
    The loop state after popping `done`, `j` of them main-chain blocks: the queue holds the uncles `before` of
    older main-chain blocks, then the waiting main-chain block, then the uncles of the last main-chain block.
   */
  ghost predicate Shape(headers: Headers, ms: seq<BlockHash>, j: nat, done: seq<BlockHash>, before: seq<BlockHash>) {
    && j <= |ms|
    && done + before + (if j < |ms| then [ms[j]] else []) + LastUncles(headers, ms, j) == Woven(headers, ms, j)
    && (forall x :: x in done ==> Seen(headers, ms, j, x))
    && (forall x :: x in before ==> Seen(headers, ms, j, x))
  }

  function Queue(headers: Headers, start: BlockHash, depth: nat, ms: seq<BlockHash>, j: nat,
                 before: seq<BlockHash>): seq<Visit>
  {
    Tag(before) + Waiting(headers, start, ms, j, depth) + Tag(LastUncles(headers, ms, j))
  }

  /** The loop state of a shape. */
  ghost function ShapeState(headers: Headers, start: BlockHash, depth: nat, ms: seq<BlockHash>, j: nat,
                            done: seq<BlockHash>, before: seq<BlockHash>): State
    requires j <= depth
  {
    State(Queue(headers, start, depth, ms, j, before), Elements(done), Dedup(done), depth - j)
  }

  lemma NextMainUnseen(headers: Headers, start: BlockHash, depth: nat, ms: seq<BlockHash>, j: nat)
    requires Spine(headers, start, depth, ms) && SpineUncles(headers, ms) && j < |ms|
    ensures !Seen(headers, ms, j, ms[j])
    ensures Waiting(headers, start, ms, j, depth) == [Visit(ms[j], true)]
  {
    assert !NamedBefore(headers, ms, j);
  }

  lemma SeenGrows(headers: Headers, ms: seq<BlockHash>, j: nat, done: seq<BlockHash>)
    requires j < |ms| && forall x :: x in done ==> Seen(headers, ms, j, x)
    ensures forall x :: x in done + [ms[j]] ==> Seen(headers, ms, j + 1, x)
    ensures forall x :: x in LastUncles(headers, ms, j) ==> Seen(headers, ms, j + 1, x)
  {
    forall x | x in done ensures Seen(headers, ms, j + 1, x) {
      var i :| 0 <= i < j && i < |ms| && (x == ms[i] || (i + 1 < j && x in UnclesAt(headers, ms, i)));
    }
    forall x | x in LastUncles(headers, ms, j) ensures Seen(headers, ms, j + 1, x) {
      assert x in UnclesAt(headers, ms, j - 1);
    }
  }

  /** Popping a main-chain block gives the next shape ... */
  lemma MainPopShape(headers: Headers, ms: seq<BlockHash>, j: nat, done: seq<BlockHash>)
    requires j < |ms| && Shape(headers, ms, j, done, [])
    ensures Shape(headers, ms, j + 1, done + [ms[j]], LastUncles(headers, ms, j))
  {
    SeenGrows(headers, ms, j, done);
    assert done + [] + [ms[j]] == done + [ms[j]];
  }

  /** ... and the next queue. */
  lemma MainPopQueue(headers: Headers, start: BlockHash, depth: nat, ms: seq<BlockHash>, j: nat)
    requires Spine(headers, start, depth, ms) && j < |ms|
    ensures Tag(LastUncles(headers, ms, j)) + Pushed(headers[ms[j]], depth - j - 1)
         == Queue(headers, start, depth, ms, j + 1, LastUncles(headers, ms, j))
  {
  }

  lemma Visited(done: seq<BlockHash>, x: BlockHash)
    ensures Elements(done + [x]) == Elements(done) + {x}
    ensures x in done ==> Elements(done + [x]) == Elements(done)
  {
  }

  lemma MainStep(headers: Headers, start: BlockHash, depth: nat, ms: seq<BlockHash>, j: nat, done: seq<BlockHash>)
    requires Keyed(headers) && Spine(headers, start, depth, ms) && SpineUncles(headers, ms)
    requires j < |ms| && ms[j] !in done
    ensures var s := ShapeState(headers, start, depth, ms, j, done, []);
            && !Stopped(headers, s)
            && Step(headers, s) == ShapeState(headers, start, depth, ms, j + 1, done + [ms[j]],
               LastUncles(headers, ms, j))
  {
    var s := ShapeState(headers, start, depth, ms, j, done, []);
    NextMainUnseen(headers, start, depth, ms, j);
    assert s.queue == [Visit(ms[j], true)] + Tag(LastUncles(headers, ms, j));
    assert s.queue[1..] == Tag(LastUncles(headers, ms, j));
    DedupPush(done, ms[j]);
    Visited(done, ms[j]);
    MainPopQueue(headers, start, depth, ms, j);
  }

  lemma UncleStep(headers: Headers, start: BlockHash, depth: nat, ms: seq<BlockHash>, j: nat,
                  done: seq<BlockHash>, before: seq<BlockHash>)
    requires Keyed(headers) && j <= depth && before != [] && before[0] in headers
    ensures var s := ShapeState(headers, start, depth, ms, j, done, before);
            && !Stopped(headers, s)
            && Step(headers, s) == ShapeState(headers, start, depth, ms, j, done + [before[0]], before[1..])
  {
    UnclePopQueue(headers, start, depth, ms, j, before);
    DedupPush(done, before[0]);
    Visited(done, before[0]);
  }

  lemma UnclePopQueue(headers: Headers, start: BlockHash, depth: nat, ms: seq<BlockHash>, j: nat,
                      before: seq<BlockHash>)
    requires before != []
    ensures var q := Queue(headers, start, depth, ms, j, before);
            q != [] && q[0] == Visit(before[0], false) && q[1..] == Queue(headers, start, depth, ms, j, before[1..])
  {
    assert before == [before[0]] + before[1..];
    assert Tag(before)[1..] == Tag(before[1..]);
  }

  lemma UncleShape(headers: Headers, ms: seq<BlockHash>, j: nat, done: seq<BlockHash>, before: seq<BlockHash>)
    requires Shape(headers, ms, j, done, before) && before != []
    ensures Shape(headers, ms, j, done + [before[0]], before[1..])
  {
    assert done + before == (done + [before[0]]) + before[1..];
    assert before[0] in before;
  }

  lemma SeenStored(headers: Headers, ms: seq<BlockHash>, j: nat, x: BlockHash)
    requires SpineUncles(headers, ms) && Seen(headers, ms, j, x)
    ensures x in headers
  {
  }

  /** From every shape the walk returns the first occurrences of the interleaved order. */
  lemma {:induction false} WalkFromShape(headers: Headers, start: BlockHash, depth: nat, ms: seq<BlockHash>, j: nat,
                                         done: seq<BlockHash>, before: seq<BlockHash>)
    requires Keyed(headers) && Spine(headers, start, depth, ms) && SpineUncles(headers, ms)
    requires Shape(headers, ms, j, done, before)
    ensures Walk(headers, ShapeState(headers, start, depth, ms, j, done, before)) == Dedup(Woven(headers, ms, |ms|))
    decreases |ms| - j, |before|
  {
    if before != [] {
      assert before[0] in before;
      SeenStored(headers, ms, j, before[0]);
      UncleStep(headers, start, depth, ms, j, done, before);
      UncleShape(headers, ms, j, done, before);
      WalkFromShape(headers, start, depth, ms, j, done + [before[0]], before[1..]);
    } else if j < |ms| {
      NextMainUnseen(headers, start, depth, ms, j);
      MainStep(headers, start, depth, ms, j, done);
      MainPopShape(headers, ms, j, done);
      WalkFromShape(headers, start, depth, ms, j + 1, done + [ms[j]], LastUncles(headers, ms, j));
    } else {
      WalkEnds(headers, start, depth, ms, done);
      assert done + [] + [] == done;
    }
  }

  lemma UncleAloneStep(headers: Headers, us: seq<BlockHash>, done: seq<BlockHash>, remaining: nat)
    requires Keyed(headers) && us != [] && us[0] in headers
    ensures var s := State(Tag(us), Elements(done), Dedup(done), remaining);
            && !Stopped(headers, s)
            && Step(headers, s) == State(Tag(us[1..]), Elements(done + [us[0]]), Dedup(done + [us[0]]), remaining)
  {
    assert Tag(us)[1..] == Tag(us[1..]);
    DedupPush(done, us[0]);
    Visited(done, us[0]);
  }

  /** With no main-chain entry left the walk adds the queued uncles it has not met. */
  lemma {:induction false} WalkUncles(headers: Headers, us: seq<BlockHash>, done: seq<BlockHash>, remaining: nat)
    requires Keyed(headers) && forall u :: u in us ==> u in headers
    ensures Walk(headers, State(Tag(us), Elements(done), Dedup(done), remaining)) == Dedup(done + us)
    decreases |us|
  {
    if us == [] {
      assert done + us == done;
    } else {
      assert us[0] in us;
      UncleAloneStep(headers, us, done, remaining);
      WalkUncles(headers, us[1..], done + [us[0]], remaining);
      assert done + us == (done + [us[0]]) + us[1..];
    }
  }

  /** What is popped before the uncles of the last block is the order through the round before. */
  lemma DoneAtEnd(headers: Headers, ms: seq<BlockHash>, done: seq<BlockHash>, x: BlockHash)
    requires ms != [] && done + LastUncles(headers, ms, |ms|) == Woven(headers, ms, |ms|)
    ensures NamedEarly(headers, ms, x) ==> x in done
  {
    var w, us := Woven(headers, ms, |ms| - 1), UnclesAt(headers, ms, |ms| - 1);
    assert done + us == w + us;
    SameFront(done, w, us);
    WovenMembers(headers, ms, |ms| - 1, x);
  }

  lemma SameFront(a: seq<BlockHash>, b: seq<BlockHash>, end: seq<BlockHash>)
    requires a + end == b + end
    ensures a == b
  {
    assert |a + end| == |b + end|;
    assert a == (a + end)[..|a|] && b == (b + end)[..|a|];
  }

  /** Past the last met block the waiting entry is absent, has no header, or is skipped; its uncles follow. */
  lemma WalkEnds(headers: Headers, start: BlockHash, depth: nat, ms: seq<BlockHash>, done: seq<BlockHash>)
    requires Keyed(headers) && Spine(headers, start, depth, ms) && SpineUncles(headers, ms)
    requires forall x :: x in done ==> Seen(headers, ms, |ms|, x)
    requires done + LastUncles(headers, ms, |ms|) == Woven(headers, ms, |ms|)
    ensures Walk(headers, ShapeState(headers, start, depth, ms, |ms|, done, [])) == Dedup(Woven(headers, ms, |ms|))
  {
    EndQueue(headers, start, depth, ms);
    EndFacts(headers, start, depth, ms, done);
    EndOfWalk(headers, Queue(headers, start, depth, ms, |ms|, []), EndParent(headers, start, ms),
              LastUncles(headers, ms, |ms|), done, depth - |ms|);
  }

  /** The queue at the end holds uncles, perhaps behind an entry that is skipped or has no header. */
  ghost predicate AtEnd(headers: Headers, q: seq<Visit>, p: BlockHash, us: seq<BlockHash>, done: seq<BlockHash>) {
    && (forall u :: u in us ==> u in headers)
    && (forall x :: x in done ==> x in headers)
    && (q == Tag(us) || (q == [Visit(p, true)] + Tag(us) && (p in done || (p !in headers && us == []))))
  }

  lemma EndOfWalk(headers: Headers, q: seq<Visit>, p: BlockHash, us: seq<BlockHash>, done: seq<BlockHash>,
                  remaining: nat)
    requires Keyed(headers) && AtEnd(headers, q, p, us, done)
    ensures Walk(headers, State(q, Elements(done), Dedup(done), remaining)) == Dedup(done + us)
  {
    if q == Tag(us) {
      WalkUncles(headers, us, done, remaining);
    } else if p in done {
      WalkSkips(headers, p, us, done, remaining);
    } else {
      assert q == [Visit(p, true)] && done + us == done;
      WalkStops(headers, p, done, remaining);
    }
  }

  lemma EndFacts(headers: Headers, start: BlockHash, depth: nat, ms: seq<BlockHash>, done: seq<BlockHash>)
    requires Spine(headers, start, depth, ms) && SpineUncles(headers, ms)
    requires forall x :: x in done ==> Seen(headers, ms, |ms|, x)
    requires done + LastUncles(headers, ms, |ms|) == Woven(headers, ms, |ms|)
    ensures AtEnd(headers, Queue(headers, start, depth, ms, |ms|, []), EndParent(headers, start, ms),
                  LastUncles(headers, ms, |ms|), done)
  {
    EndQueue(headers, start, depth, ms);
    forall x | x in done ensures x in headers {
      SeenStored(headers, ms, |ms|, x);
    }
    if 0 < |ms| {
      DoneAtEnd(headers, ms, done, EndParent(headers, start, ms));
    }
  }

  /** The main-chain entry behind the last met block. */
  function EndParent(headers: Headers, start: BlockHash, ms: seq<BlockHash>): BlockHash
    requires forall i :: 0 <= i < |ms| ==> ms[i] in headers
  {
    if ms == [] then start else headers[ms[|ms| - 1]].prevShareBlockhash
  }

  lemma EndQueue(headers: Headers, start: BlockHash, depth: nat, ms: seq<BlockHash>)
    requires |ms| <= depth && forall i :: 0 <= i < |ms| ==> ms[i] in headers
    ensures var us := Tag(LastUncles(headers, ms, |ms|));
            Queue(headers, start, depth, ms, |ms|, [])
            == if |ms| == depth then us else [Visit(EndParent(headers, start, ms), true)] + us
  {
  }

  lemma WalkStops(headers: Headers, p: BlockHash, done: seq<BlockHash>, remaining: nat)
    requires p !in headers && forall x :: x in done ==> x in headers
    ensures Walk(headers, State([Visit(p, true)], Elements(done), Dedup(done), remaining)) == Dedup(done)
  {
  }

  lemma WalkSkips(headers: Headers, p: BlockHash, us: seq<BlockHash>, done: seq<BlockHash>, remaining: nat)
    requires Keyed(headers) && p in done && forall u :: u in us ==> u in headers
    ensures Walk(headers, State([Visit(p, true)] + Tag(us), Elements(done), Dedup(done), remaining)) == Dedup(done + us)
  {
    var s := State([Visit(p, true)] + Tag(us), Elements(done), Dedup(done), remaining);
    assert Step(headers, s) == s.(queue := Tag(us));
    WalkUncles(headers, us, done, remaining);
  }

  /**
    The walk visits m0, m1, U(m0), m2, U(m1), ... for the main-chain blocks up to the cut, each block once;
    neither the stop on a missing header nor the skip of the block at the cut loses anything of these.
   */
  lemma WalkIsWoven(headers: Headers, genesis: BlockHash, start: BlockHash, depth: nat)
    requires WellFormed(headers, genesis) && depth >= 1
    ensures var met := Met(headers, start, depth);
            Walk(headers, Start(start, depth)) == Dedup(Woven(headers, met, |met|))
  {
    MetIsSpine(headers, start, depth);
    MetUncles(headers, genesis, start, depth);
    WalkFromSpine(headers, start, depth, Met(headers, start, depth));
  }

  lemma WalkFromSpine(headers: Headers, start: BlockHash, depth: nat, ms: seq<BlockHash>)
    requires Keyed(headers) && Spine(headers, start, depth, ms) && SpineUncles(headers, ms) && depth >= 1
    ensures Walk(headers, Start(start, depth)) == Dedup(Woven(headers, ms, |ms|))
  {
    ShapeAtStart(headers, start, depth, ms);
    WalkFromShape(headers, start, depth, ms, 0, [], []);
  }

  lemma ShapeAtStart(headers: Headers, start: BlockHash, depth: nat, ms: seq<BlockHash>)
    requires Spine(headers, start, depth, ms) && depth >= 1
    ensures Shape(headers, ms, 0, [], [])
    ensures ShapeState(headers, start, depth, ms, 0, [], []) == Start(start, depth)
  {
    assert Woven(headers, ms, 0) == ms[..Min(1, |ms|)];
    StateAtStart(headers, start, depth, ms);
  }

  lemma StateAtStart(headers: Headers, start: BlockHash, depth: nat, ms: seq<BlockHash>)
    requires depth >= 1
    ensures ShapeState(headers, start, depth, ms, 0, [], []) == Start(start, depth)
  {
    assert Elements<BlockHash>([]) == {};
  }

  /** At depth 0 the counter wraps at the first block, so the walk is that of depth 2^64. */
  lemma DepthZeroWraps(headers: Headers, start: BlockHash)
    ensures Walk(headers, Start(start, 0)) == Walk(headers, Start(start, USIZE_MAX + 1))
  {
    var zero, full := Start(start, 0), Start(start, USIZE_MAX + 1);
    if start in headers {
      assert Step(headers, zero) == Step(headers, full);
    }
  }

  lemma {:induction false} WovenMembers(headers: Headers, ms: seq<BlockHash>, j: nat, x: BlockHash)
    requires j <= |ms| && ms != []
    ensures x in Woven(headers, ms, j) <==>
            (x in ms[..Min(j + 1, |ms|)] || exists i :: 0 <= i < j && x in UnclesAt(headers, ms, i))
  {
    if j == 0 {
    } else {
      WovenMembers(headers, ms, j - 1, x);
      if j < |ms| {
        assert ms[..j + 1] == ms[..j] + [ms[j]];
      }
    }
  }

  lemma AllWovenMembers(headers: Headers, ms: seq<BlockHash>, x: BlockHash)
    requires ms != [] && forall b :: b in ms ==> b in headers
    ensures x in Woven(headers, ms, |ms|) <==> x in ms || exists i :: 0 <= i < |ms| && x in headers[ms[i]].uncles
  {
    WovenMembers(headers, ms, |ms|, x);
    assert ms[..|ms|] == ms;
    assert forall i :: 0 <= i < |ms| ==> UnclesAt(headers, ms, i) == headers[ms[i]].uncles;
  }

  /** The result is duplicate free and holds exactly the main-chain blocks up to the cut and their uncles. */
  lemma WalkMembers(headers: Headers, genesis: BlockHash, start: BlockHash, depth: nat)
    requires WellFormed(headers, genesis) && depth >= 1
    ensures var met, r := Met(headers, start, depth), Walk(headers, Start(start, depth));
            && NoDup(r)
            && forall x :: x in r <==> x in met || exists i :: 0 <= i < |met| && x in headers[met[i]].uncles
  {
    var met := Met(headers, start, depth);
    WalkIsWoven(headers, genesis, start, depth);
    DedupFacts(Woven(headers, met, |met|));
    if met != [] {
      forall x
        ensures x in Woven(headers, met, |met|) <==>
                  x in met || exists i :: 0 <= i < |met| && x in headers[met[i]].uncles
      {
        AllWovenMembers(headers, met, x);
      }
    }
  }

  /** The members of `s` that lie on `ms`, in the order of `s`. */
  function OnChain(ms: seq<BlockHash>, s: seq<BlockHash>): seq<BlockHash> {
    if s == [] then []
    else OnChain(ms, s[..|s| - 1]) + (if s[|s| - 1] in ms then [s[|s| - 1]] else [])
  }

  lemma {:induction false} OnChainConcat(ms: seq<BlockHash>, s: seq<BlockHash>, t: seq<BlockHash>)
    ensures OnChain(ms, s + t) == OnChain(ms, s) + OnChain(ms, t)
  {
    if t == [] {
      assert s + t == s;
    } else {
      assert (s + t)[..|s + t| - 1] == s + t[..|t| - 1];
      OnChainConcat(ms, s, t[..|t| - 1]);
    }
  }

  lemma {:induction false} OnChainMembers(ms: seq<BlockHash>, s: seq<BlockHash>)
    ensures forall x :: x in OnChain(ms, s) <==> x in s && x in ms
  {
    if s == [] {
    } else {
      OnChainMembers(ms, s[..|s| - 1]);
      assert s == s[..|s| - 1] + [s[|s| - 1]];
    }
  }

  lemma OnChainPush(ms: seq<BlockHash>, s: seq<BlockHash>, x: BlockHash)
    ensures OnChain(ms, s + [x]) == OnChain(ms, s) + (if x in ms then [x] else [])
  {
    assert (s + [x])[..|s + [x]| - 1] == s;
  }

  lemma {:induction false} KnownSkipped(ms: seq<BlockHash>, s: seq<BlockHash>, t: seq<BlockHash>)
    requires forall x :: x in t && x in ms ==> x in s
    ensures OnChain(ms, Dedup(s + t)) == OnChain(ms, Dedup(s))
  {
    if t == [] {
      assert s + t == s;
    } else {
      var init, x := t[..|t| - 1], t[|t| - 1];
      assert s + t == s + init + [x];
      KnownSkipped(ms, s, init);
      DedupPush(s + init, x);
      OnChainPush(ms, Dedup(s + init), x);
    }
  }

  lemma NextOnChain(ms: seq<BlockHash>, j: nat, w: seq<BlockHash>)
    requires j < |ms| && ms[j] !in w && OnChain(ms, Dedup(w)) == ms[..j]
    ensures OnChain(ms, Dedup(w + [ms[j]])) == ms[..j + 1]
  {
    var d := Dedup(w);
    DedupPush(w, ms[j]);
    OnChainPush(ms, d, ms[j]);
  }

  lemma RoundKeepsOrder(ms: seq<BlockHash>, j: nat, w: seq<BlockHash>, us: seq<BlockHash>)
    requires j < |ms| && ms[j] !in w && OnChain(ms, Dedup(w)) == ms[..j]
    requires forall x :: x in us && x in ms ==> x in w + [ms[j]]
    ensures OnChain(ms, Dedup(w + [ms[j]] + us)) == ms[..j + 1]
  {
    NextOnChain(ms, j, w);
    KnownSkipped(ms, w + [ms[j]], us);
  }

  lemma UnwovenNext(headers: Headers, ms: seq<BlockHash>, j: nat)
    requires NoDup(ms) && 0 < j < |ms| && !NamedBefore(headers, ms, j)
    ensures ms[j] !in Woven(headers, ms, j - 1)
  {
    WovenMembers(headers, ms, j - 1, ms[j]);
    assert ms[j] !in ms[..j];
  }

  /** None of the first `j` blocks names a block two or more below it on the chain. */
  ghost predicate Straight(headers: Headers, ms: seq<BlockHash>, j: nat) {
    forall i, k :: 0 <= i < j && i + 2 <= k < |ms| ==> ms[k] !in UnclesAt(headers, ms, i)
  }

  lemma KnownUncles(headers: Headers, ms: seq<BlockHash>, c: nat, j: nat, x: BlockHash)
    requires 0 < j < c <= |ms| && Straight(headers, ms, j) && x in UnclesAt(headers, ms[..c], j - 1) && x in ms
    ensures x in Woven(headers, ms[..c], j - 1) + [ms[j]]
  {
    var k :| 0 <= k < |ms| && ms[k] == x;
    WovenMembers(headers, ms[..c], j - 1, x);
    assert UnclesAt(headers, ms[..c], j - 1) == UnclesAt(headers, ms, j - 1);
    if k < j {
      assert ms[..c][..j][k] == x;
    }
  }

  lemma AllKnownUncles(headers: Headers, ms: seq<BlockHash>, c: nat, j: nat)
    requires 0 < j < c <= |ms| && Straight(headers, ms, j)
    ensures forall x :: x in UnclesAt(headers, ms[..c], j - 1) && x in ms ==>
              x in Woven(headers, ms[..c], j - 1) + [ms[j]]
  {
    forall x | x in UnclesAt(headers, ms[..c], j - 1) && x in ms ensures x in Woven(headers, ms[..c], j - 1) + [ms[j]] {
      KnownUncles(headers, ms, c, j, x);
    }
  }

  /** The main-chain blocks of the order through round `j`, where no uncle so far runs ahead of the chain. */
  lemma {:induction false} WovenMainOrder(headers: Headers, ms: seq<BlockHash>, c: nat, j: nat)
    requires NoDup(ms) && 0 < c <= |ms| && j < c && Straight(headers, ms, j)
    ensures OnChain(ms, Dedup(Woven(headers, ms[..c], j))) == ms[..j + 1]
  {
    if j == 0 {
      assert Woven(headers, ms[..c], 0) == [] + [ms[0]] + [];
      RoundKeepsOrder(ms, 0, [], []);
    } else {
      WovenMainOrder(headers, ms, c, j - 1);
      RoundInOrder(headers, ms, c, j);
    }
  }

  lemma WovenAt(headers: Headers, ms: seq<BlockHash>, j: nat)
    requires 0 < j < |ms|
    ensures Woven(headers, ms, j) == Woven(headers, ms, j - 1) + [ms[j]] + UnclesAt(headers, ms, j - 1)
  {
  }

  lemma RoundInOrder(headers: Headers, ms: seq<BlockHash>, c: nat, j: nat)
    requires NoDup(ms) && 0 < j < c <= |ms| && Straight(headers, ms, j)
    requires OnChain(ms, Dedup(Woven(headers, ms[..c], j - 1))) == ms[..j]
    ensures OnChain(ms, Dedup(Woven(headers, ms[..c], j))) == ms[..j + 1]
  {
    StraightUnnamed(headers, ms, c, j);
    UnwovenNext(headers, ms[..c], j);
    AllKnownUncles(headers, ms, c, j);
    WovenAt(headers, ms[..c], j);
    RoundKeepsOrder(ms, j, Woven(headers, ms[..c], j - 1), UnclesAt(headers, ms[..c], j - 1));
  }

  lemma StraightUnnamed(headers: Headers, ms: seq<BlockHash>, c: nat, j: nat)
    requires j < c <= |ms| && Straight(headers, ms, j)
    ensures !NamedBefore(headers, ms[..c], j)
  {
    StillUnnamed(headers, ms, c, j);
  }

  lemma UncutIsStraight(headers: Headers, ms: seq<BlockHash>)
    requires Cut(headers, ms) == |ms|
    ensures Straight(headers, ms, |ms|)
  {
    forall i, k | 0 <= i < |ms| && i + 2 <= k < |ms| ensures ms[k] !in UnclesAt(headers, ms, i) {
      assert !NamedBefore(headers, ms, k);
    }
  }

  /** Where the chain is not cut, its blocks come newest to oldest with none missing. */
  lemma WalkMainOrder(headers: Headers, genesis: BlockHash, start: BlockHash, depth: nat)
    requires WellFormed(headers, genesis) && depth >= 1
    requires var ms := MainChain(headers, start, depth); Cut(headers, ms) == |ms|
    ensures OnChain(MainChain(headers, start, depth), Walk(headers, Start(start, depth)))
            == MainChain(headers, start, depth)
  {
    var ms := MainChain(headers, start, depth);
    assert ms[..|ms|] == ms;
    WalkIsWoven(headers, genesis, start, depth);
    if ms == [] {
      assert Woven(headers, ms, 0) == [];
    } else {
      MainChainNoDup(headers, start, depth);
      UncutOrder(headers, ms);
    }
  }

  lemma UncutOrder(headers: Headers, ms: seq<BlockHash>)
    requires ms != [] && NoDup(ms) && Cut(headers, ms) == |ms|
    ensures OnChain(ms, Dedup(Woven(headers, ms, |ms|))) == ms
  {
    UncutIsStraight(headers, ms);
    AllMainOrder(headers, ms);
    WovenEnds(headers, ms);
    LastUnclesKnown(headers, ms);
    KnownSkipped(ms, Woven(headers, ms, |ms| - 1), UnclesAt(headers, ms, |ms| - 1));
  }

  lemma AllMainOrder(headers: Headers, ms: seq<BlockHash>)
    requires ms != [] && NoDup(ms) && Straight(headers, ms, |ms|)
    ensures OnChain(ms, Dedup(Woven(headers, ms, |ms| - 1))) == ms
  {
    WovenMainOrder(headers, ms, |ms|, |ms| - 1);
    assert ms[..|ms|] == ms;
  }

  lemma WovenEnds(headers: Headers, ms: seq<BlockHash>)
    requires ms != []
    ensures Woven(headers, ms, |ms|) == Woven(headers, ms, |ms| - 1) + UnclesAt(headers, ms, |ms| - 1)
  {
  }

  lemma LastUnclesKnown(headers: Headers, ms: seq<BlockHash>)
    requires ms != []
    ensures forall x :: x in ms ==> x in Woven(headers, ms, |ms| - 1)
  {
    forall x | x in ms ensures x in Woven(headers, ms, |ms| - 1) {
      WovenMembers(headers, ms, |ms| - 1, x);
      assert ms[..|ms|] == ms;
    }
  }
}
