/**
  Shares added by several tasks at once. A task reads the place of its share, waits for the writer to store it, and
  then chooses the chain tip and updates the tip set; other tasks run in between. Genesis is set up first.
 */
module Overtaking {
  import opened Types
  import opened Database
  import opened Runs
  import opened IndexTheorems
  import opened ChainState
  import opened LiveChain
  import opened LiveWork

  datatype Task =
    | Placed(a: Arrival, height: nat, chainWork: nat)
    | Stored(a: Arrival, chainWork: nat)
    | Done(a: Arrival)

  /** The chain, the tasks, and the arrivals in the order in which they were stored and in which they chose. */
  datatype World = World(live: Live, tasks: seq<Task>, stored: seq<Arrival>, chosen: seq<Arrival>)

  datatype Turn = Begin(a: Arrival) | Commit(task: nat) | Choose(task: nat)

  function Start(g: Arrival, work: ShareHeader -> nat): World {
    World(LiveAfter([g], work), [], [g], [g])
  }

  function CallOf(t: Task): Call
    requires t.Placed?
  {
    AddShareCall(t.a.share, t.height, t.chainWork, t.a.confirmTxs)
  }

  /** One turn of one task; a turn that is not due changes nothing. */
  function TakeTurn(w: World, turn: Turn, work: ShareHeader -> nat): World {
    match turn
    case Begin(a) =>
      var (height, chainWork) := PlaceOf(After(map[], w.live.run), a.share.header, work);
      w.(tasks := w.tasks + [Placed(a, height, chainWork)])
    case Commit(k) =>
      if k < |w.tasks| && w.tasks[k].Placed? then
        var t := w.tasks[k];
        w.(live := w.live.(run := w.live.run + [[CallOf(t)]]), tasks := w.tasks[k := Stored(t.a, t.chainWork)],
           stored := w.stored + [t.a])
      else w
    case Choose(k) =>
      if k < |w.tasks| && w.tasks[k].Stored? then
        var t := w.tasks[k];
        w.(live := Reorged(w.live, t.a.share.header, t.chainWork, work), tasks := w.tasks[k := Done(t.a)],
           chosen := w.chosen + [t.a])
      else w
  }

  function AfterTurns(g: Arrival, turns: seq<Turn>, work: ShareHeader -> nat): World {
    if turns == [] then Start(g, work)
    else TakeTurn(AfterTurns(g, turns[..|turns| - 1], work), turns[|turns| - 1], work)
  }

  /** The three turns of a task without a break are an arrival. */
  lemma UndisturbedIsArrival(w: World, a: Arrival, work: ShareHeader -> nat)
    requires w.live.tips != {}
    ensures var begun := TakeTurn(w, Begin(a), work);
            var stored := TakeTurn(begun, Commit(|w.tasks|), work);
            TakeTurn(stored, Choose(|w.tasks|), work).live == Arrive(w.live, a, work)
  {
    var k, w1 := |w.tasks|, TakeTurn(w, Begin(a), work);
    assert CallOf(w1.tasks[k]) == ShareCalls(After(map[], w.live.run), a, work)[0];
    assert [[CallOf(w1.tasks[k])]] == [ShareCalls(After(map[], w.live.run), a, work)];
  }

  // ----- what every turn keeps -----

  ghost predicate Waiting(w: World, a: Arrival) {
    exists k :: 0 <= k < |w.tasks| && w.tasks[k].Stored? && w.tasks[k].a == a
  }

  /** The store holds what was stored, which is what chose and what is waiting to; the chain tip is one that chose. */
  ghost predicate Accounted(w: World) {
    && (forall b :: Added(Calls(w.live.run), b) <==> Arrived(w.stored, b))
    && (forall a :: a in w.stored <==> a in w.chosen || Waiting(w, a))
    && Arrived(w.chosen, w.live.tip)
  }

  /** The tip set is that of the order of the choices. */
  ghost predicate FollowsChoices(w: World) {
    forall t :: t in w.live.tips <==> Open(w.chosen, t)
  }

  lemma StartKeeps(g: Arrival, work: ShareHeader -> nat)
    ensures Accounted(Start(g, work)) && FollowsChoices(Start(g, work))
  {
    forall b ensures Added(Calls(Start(g, work).live.run), b) <==> Arrived([g], b) {
      AddedIsArrived([g], work, b);
    }
    forall t ensures t in LiveAfter([g], work).tips <==> Open([g], t) {
      LiveTipsAre([g], work, t);
    }
    LiveIsSet([g], work);
  }

  lemma CommitKeeps(w: World, k: nat, work: ShareHeader -> nat)
    requires Accounted(w) && k < |w.tasks| && w.tasks[k].Placed?
    ensures Accounted(TakeTurn(w, Commit(k), work))
  {
    var t, next := w.tasks[k], TakeTurn(w, Commit(k), work);
    CallsPush(w.live.run, [CallOf(t)]);
    forall b ensures Added(Calls(next.live.run), b) <==> Arrived(next.stored, b) {
      AddedByBatch(Calls(w.live.run), [CallOf(t)], t.a.share.Hash(), b);
      ArrivedPush(w.stored, t.a, b);
    }
    forall a ensures Waiting(next, a) <==> Waiting(w, a) || a == t.a {
      CommitWaits(w.tasks, k, w, next, a);
    }
  }

  lemma CommitWaits(tasks: seq<Task>, k: nat, w: World, next: World, a: Arrival)
    requires k < |tasks| && tasks[k].Placed? && w.tasks == tasks
    requires next.tasks == tasks[k := Stored(tasks[k].a, tasks[k].chainWork)]
    ensures Waiting(next, a) <==> Waiting(w, a) || a == tasks[k].a
  {
    if Waiting(w, a) {
      var i :| 0 <= i < |tasks| && tasks[i].Stored? && tasks[i].a == a;
      assert next.tasks[i] == tasks[i];
    } else if a == tasks[k].a {
      assert next.tasks[k].a == a;
    }
  }

  lemma ChooseWaits(tasks: seq<Task>, k: nat, w: World, next: World, a: Arrival)
    requires k < |tasks| && tasks[k].Stored? && w.tasks == tasks && next.tasks == tasks[k := Done(tasks[k].a)]
    ensures Waiting(next, a) || a == tasks[k].a <==> Waiting(w, a)
  {
    if Waiting(w, a) && a != tasks[k].a {
      var i :| 0 <= i < |tasks| && tasks[i].Stored? && tasks[i].a == a;
      assert next.tasks[i] == tasks[i];
    }
    if Waiting(next, a) {
      var i :| 0 <= i < |tasks| && next.tasks[i].Stored? && next.tasks[i].a == a;
      assert tasks[i] == next.tasks[i];
    }
  }

  /** The chain tip is recorded, so no choice ends in an error. */
  lemma TipIsRecorded(w: World)
    requires Accounted(w)
    ensures GetMetadata(After(map[], w.live.run), w.live.tip).Some?
  {
    var i :| 0 <= i < |w.chosen| && w.chosen[i].share.Hash() == w.live.tip;
    assert w.chosen[i] in w.stored;
    var j :| 0 <= j < |w.stored| && w.stored[j] == w.chosen[i];
    assert Arrived(w.stored, w.live.tip);
    AddedHasMetadata(w.live.run, w.live.tip);
  }

  lemma ChooseKeeps(w: World, k: nat, work: ShareHeader -> nat)
    requires Accounted(w) && FollowsChoices(w) && k < |w.tasks| && w.tasks[k].Stored?
    ensures Accounted(TakeTurn(w, Choose(k), work)) && FollowsChoices(TakeTurn(w, Choose(k), work))
  {
    var t, next := w.tasks[k], TakeTurn(w, Choose(k), work);
    TipIsRecorded(w);
    forall a ensures Waiting(next, a) || a == t.a <==> Waiting(w, a) {
      ChooseWaits(w.tasks, k, w, next, a);
    }
    forall b ensures b in next.live.tips <==> Open(next.chosen, b) {
      JoinsTips(w.live.tips, t.a.share.header, b);
      OpenPush(w.chosen, t.a, b);
    }
    ArrivedPush(w.chosen, t.a, next.live.tip);
  }

  lemma BeginKeeps(w: World, a: Arrival, work: ShareHeader -> nat)
    requires Accounted(w) && FollowsChoices(w)
    ensures Accounted(TakeTurn(w, Begin(a), work)) && FollowsChoices(TakeTurn(w, Begin(a), work))
  {
    var next := TakeTurn(w, Begin(a), work);
    forall x ensures Waiting(next, x) <==> Waiting(w, x) {
      if Waiting(w, x) {
        var i :| 0 <= i < |w.tasks| && w.tasks[i].Stored? && w.tasks[i].a == x;
        assert next.tasks[i] == w.tasks[i];
      }
    }
  }

  /** In every interleaving the tip set holds exactly the shares that none of those that chose later names. */
  lemma {:induction false} TipsFollowChoices(g: Arrival, turns: seq<Turn>, work: ShareHeader -> nat)
    ensures Accounted(AfterTurns(g, turns, work)) && FollowsChoices(AfterTurns(g, turns, work))
  {
    if turns == [] {
      StartKeeps(g, work);
    } else {
      var init, turn := turns[..|turns| - 1], turns[|turns| - 1];
      var w := AfterTurns(g, init, work);
      TipsFollowChoices(g, init, work);
      match turn
      case Begin(a) => BeginKeeps(w, a, work);
      case Commit(k) =>
        if k < |w.tasks| && w.tasks[k].Placed? {
          CommitKeeps(w, k, work);
        }
      case Choose(k) =>
        if k < |w.tasks| && w.tasks[k].Stored? {
          ChooseKeeps(w, k, work);
        }
    }
  }

  /** There is always a tip, so no task takes its share for genesis. */
  lemma AlwaysATip(w: World)
    requires Accounted(w) && FollowsChoices(w)
    ensures w.live.tips != {}
  {
    var last := w.chosen[|w.chosen| - 1].share.Hash();
    assert UnnamedSince(w.chosen, |w.chosen| - 1, last);
    assert last in w.live.tips;
  }

  // ----- choices out of order -----

  /** No task is between its store and its choice. */
  ghost predicate Settled(w: World) {
    forall k :: 0 <= k < |w.tasks| ==> !w.tasks[k].Stored?
  }

  /** Choice `i` came after those of all the shares that name its share, and there are such. */
  ghost predicate Overtaken(chosen: seq<Arrival>, i: nat)
    requires i < |chosen|
  {
    var t := chosen[i].share.Hash();
    Named(chosen, t) && UnnamedSince(chosen, i, t)
  }

  lemma SettledSame(w: World, t: BlockHash)
    requires Accounted(w) && Settled(w)
    ensures Arrived(w.stored, t) <==> Arrived(w.chosen, t)
    ensures Named(w.stored, t) <==> Named(w.chosen, t)
  {
    forall i | 0 <= i < |w.stored| ensures w.stored[i] in w.chosen {
      assert w.stored[i] in w.stored && !Waiting(w, w.stored[i]);
    }
    forall i | 0 <= i < |w.chosen| ensures w.chosen[i] in w.stored {
      assert w.chosen[i] in w.chosen;
    }
    SameMembers(w.stored, w.chosen, t);
    SameMembers(w.chosen, w.stored, t);
  }

  lemma SameMembers(xs: seq<Arrival>, ys: seq<Arrival>, t: BlockHash)
    requires forall i :: 0 <= i < |xs| ==> xs[i] in ys
    ensures (Arrived(xs, t) ==> Arrived(ys, t)) && (Named(xs, t) ==> Named(ys, t))
  {
    if Arrived(xs, t) {
      var i :| 0 <= i < |xs| && xs[i].share.Hash() == t;
      var j :| 0 <= j < |ys| && ys[j] == xs[i];
    }
    if Named(xs, t) {
      var i :| 0 <= i < |xs| && t in Parents(xs[i].share.header);
      var j :| 0 <= j < |ys| && ys[j] == xs[i];
    }
  }

  /** When shares come after their parents, the open ones are those nothing names. */
  lemma OrderlyOpen(arrivals: seq<Arrival>, t: BlockHash)
    requires Orderly(arrivals)
    ensures Open(arrivals, t) <==> Arrived(arrivals, t) && !Named(arrivals, t)
  {
    if Open(arrivals, t) {
      var i :| 0 <= i < |arrivals| && arrivals[i].share.Hash() == t && UnnamedSince(arrivals, i, t);
      forall j | 0 <= j < |arrivals| ensures t !in Parents(arrivals[j].share.header) {
        if j <= i {
          NotNamedEarly(arrivals, i, j);
        }
      }
    }
    if Arrived(arrivals, t) && !Named(arrivals, t) {
      var i :| 0 <= i < |arrivals| && arrivals[i].share.Hash() == t;
      assert UnnamedSince(arrivals, i, t);
    }
  }

  /**
    Once the tasks have settled, with shares stored once and after their parents, the tip set is that of the order
    in which shares were stored exactly when no share was overtaken by all that name it.
   */
  lemma TipsAsStoredIff(g: Arrival, turns: seq<Turn>, work: ShareHeader -> nat)
    requires Settled(AfterTurns(g, turns, work)) && Orderly(AfterTurns(g, turns, work).stored)
    ensures var w := AfterTurns(g, turns, work);
            (forall t :: t in w.live.tips <==> Open(w.stored, t)) <==>
            (forall i :: 0 <= i < |w.chosen| ==> !Overtaken(w.chosen, i))
  {
    var w := AfterTurns(g, turns, work);
    TipsFollowChoices(g, turns, work);
    forall t ensures Open(w.stored, t) <==> Arrived(w.chosen, t) && !Named(w.chosen, t) {
      OrderlyOpen(w.stored, t);
      SettledSame(w, t);
    }
    if i :| 0 <= i < |w.chosen| && Overtaken(w.chosen, i) {
      assert Open(w.chosen, w.chosen[i].share.Hash());
    } else {
      forall t ensures Open(w.chosen, t) <==> Arrived(w.chosen, t) && !Named(w.chosen, t) {
        NotOvertaken(w.chosen, t);
      }
    }
  }

  lemma NotOvertaken(chosen: seq<Arrival>, t: BlockHash)
    requires forall i :: 0 <= i < |chosen| ==> !Overtaken(chosen, i)
    ensures Open(chosen, t) <==> Arrived(chosen, t) && !Named(chosen, t)
  {
    if Open(chosen, t) {
      var i :| 0 <= i < |chosen| && chosen[i].share.Hash() == t && UnnamedSince(chosen, i, t);
      assert !Overtaken(chosen, i);
    }
    if Arrived(chosen, t) && !Named(chosen, t) {
      var i :| 0 <= i < |chosen| && chosen[i].share.Hash() == t;
      assert UnnamedSince(chosen, i, t);
    }
  }

  // What a turn does to the tasks and the two orders, whatever the chain.

  predicate Begins(w: World, a: Arrival, next: World) {
    && |next.tasks| == |w.tasks| + 1 && next.tasks[..|w.tasks|] == w.tasks
    && next.tasks[|w.tasks|].Placed? && next.tasks[|w.tasks|].a == a
    && next.stored == w.stored && next.chosen == w.chosen
  }

  predicate Commits(w: World, k: nat, next: World) {
    && k < |w.tasks| && w.tasks[k].Placed?
    && next.tasks == w.tasks[k := Stored(w.tasks[k].a, w.tasks[k].chainWork)]
    && next.stored == w.stored + [w.tasks[k].a] && next.chosen == w.chosen
  }

  predicate Chooses(w: World, k: nat, next: World) {
    && k < |w.tasks| && w.tasks[k].Stored? && next.tasks == w.tasks[k := Done(w.tasks[k].a)]
    && next.stored == w.stored && next.chosen == w.chosen + [w.tasks[k].a]
  }

  lemma OutOfOrder(p: Arrival, c: Arrival, w0: World, w1: World, w2: World, w3: World, w4: World, w5: World, w6: World)
    requires w0.tasks == [] && Begins(w0, p, w1) && Commits(w1, 0, w2) && Begins(w2, c, w3) && Commits(w3, 1, w4)
    requires Chooses(w4, 1, w5) && Chooses(w5, 0, w6)
    ensures Settled(w6) && w6.stored == w0.stored + [p, c] && w6.chosen == w0.chosen + [c, p]
  {
    assert w2.tasks[0].a == p && w3.tasks[0] == w2.tasks[0] && w3.tasks[1].a == c;
  }

  predicate Books(w: World, turn: Turn, next: World) {
    match turn
    case Begin(a) => Begins(w, a, next)
    case Commit(k) => k < |w.tasks| && w.tasks[k].Placed? ==> Commits(w, k, next)
    case Choose(k) => k < |w.tasks| && w.tasks[k].Stored? ==> Chooses(w, k, next)
  }

  lemma TurnBooks(w: World, turn: Turn, work: ShareHeader -> nat)
    ensures Books(w, turn, TakeTurn(w, turn, work))
  {
  }

  /** The worlds between the turns. */
  lemma {:induction false} History(g: Arrival, turns: seq<Turn>, work: ShareHeader -> nat) returns (ws: seq<World>)
    ensures |ws| == |turns| + 1 && ws[|turns|] == AfterTurns(g, turns, work)
    ensures ws[0].tasks == [] && ws[0].stored == [g] && ws[0].chosen == [g]
    ensures forall i :: 0 <= i < |turns| ==> Books(ws[i], turns[i], ws[i + 1])
  {
    if turns == [] {
      ws := [Start(g, work)];
    } else {
      var init, turn := turns[..|turns| - 1], turns[|turns| - 1];
      var front := History(g, init, work);
      TurnBooks(front[|init|], turn, work);
      ws := front + [TakeTurn(front[|init|], turn, work)];
    }
  }

  /** A parent and its child are stored in order and choose the other way round. */
  function CrossedTurns(p: Arrival, c: Arrival): seq<Turn> {
    [Begin(p), Commit(0), Begin(c), Commit(1), Choose(1), Choose(0)]
  }

  lemma CrossedBooks(g: Arrival, p: Arrival, c: Arrival, work: ShareHeader -> nat)
    ensures var w := AfterTurns(g, CrossedTurns(p, c), work);
            Settled(w) && w.stored == [g, p, c] && w.chosen == [g, c, p]
  {
    var turns := CrossedTurns(p, c);
    var ws := History(g, turns, work);
    assert Books(ws[0], turns[0], ws[1]) && Books(ws[1], turns[1], ws[2]) && Books(ws[2], turns[2], ws[3]);
    assert Books(ws[3], turns[3], ws[4]) && Books(ws[4], turns[4], ws[5]) && Books(ws[5], turns[5], ws[6]);
    OutOfOrder(p, c, ws[0], ws[1], ws[2], ws[3], ws[4], ws[5], ws[6]);
  }

  /** Then the parent stays a tip. */
  lemma ParentStaysTip(g: Arrival, p: Arrival, c: Arrival, work: ShareHeader -> nat)
    requires p.share.Hash() in Parents(c.share.header)
    ensures var w := AfterTurns(g, CrossedTurns(p, c), work);
            Settled(w) && p.share.Hash() in w.live.tips && !Open(w.stored, p.share.Hash())
  {
    CrossedBooks(g, p, c, work);
    TipsFollowChoices(g, CrossedTurns(p, c), work);
    NotOwnParent(c.share.header);
    assert UnnamedSince([g, c, p], 2, p.share.Hash());
    assert [g, p, c][2] == c;
  }

  // ----- the chain tip -----

  /** If this turn is a choice, the share and the chain tip have a common ancestor. */
  ghost predicate ChoiceMeets(w: World, turn: Turn) {
    turn.Choose? && turn.task < |w.tasks| && w.tasks[turn.task].Stored? ==>
      Ancestor(After(map[], w.live.run), w.tasks[turn.task].a.share.Hash(), w.live.tip).Some?
  }

  ghost predicate ChoicesMeet(g: Arrival, turns: seq<Turn>, work: ShareHeader -> nat) {
    turns != [] ==>
      && ChoicesMeet(g, turns[..|turns| - 1], work)
      && ChoiceMeets(AfterTurns(g, turns[..|turns| - 1], work), turns[|turns| - 1])
  }

  /** Waiting shares have the work their tasks know, and the chain tip is as heavy as any share that chose. */
  ghost predicate Weighed(w: World) {
    WeighedIn(w, After(map[], w.live.run))
  }

  ghost predicate WeighedIn(w: World, db: Db) {
    && (forall k :: 0 <= k < |w.tasks| && w.tasks[k].Stored? ==>
          ChainWork(db, w.tasks[k].a.share.Hash()) == w.tasks[k].chainWork)
    && AtMost(w.chosen, db, ChainWork(db, w.live.tip))
  }

  lemma StoredHash(w: World, a: Arrival)
    requires Accounted(w) && (a in w.chosen || Waiting(w, a))
    ensures Arrived(w.stored, a.share.Hash())
  {
    assert a in w.stored;
    var j :| 0 <= j < |w.stored| && w.stored[j] == a;
  }

  lemma NewHash(w: World, h: BlockHash)
    requires Accounted(w) && !Arrived(w.stored, h)
    ensures !Arrived(w.chosen, h)
    ensures forall k :: 0 <= k < |w.tasks| && w.tasks[k].Stored? ==> w.tasks[k].a.share.Hash() != h
  {
    forall i | 0 <= i < |w.chosen| ensures w.chosen[i].share.Hash() != h {
      StoredHash(w, w.chosen[i]);
    }
    forall k | 0 <= k < |w.tasks| && w.tasks[k].Stored? ensures w.tasks[k].a.share.Hash() != h {
      assert Waiting(w, w.tasks[k].a);
      StoredHash(w, w.tasks[k].a);
    }
  }

  lemma OneMoreRecord(w: World, k: nat, next: World, db: Db, db': Db)
    requires WeighedIn(w, db) && Commits(w, k, next) && next.live.tip == w.live.tip && Arrived(w.chosen, w.live.tip)
    requires var h := w.tasks[k].a.share.Hash();
             && SameElsewhere(db, db', h) && ChainWork(db', h) == w.tasks[k].chainWork
             && !Arrived(w.chosen, h)
             && forall j :: 0 <= j < |w.tasks| && w.tasks[j].Stored? ==> w.tasks[j].a.share.Hash() != h
    ensures WeighedIn(next, db')
  {
  }

  lemma CommitWeighs(w: World, k: nat, work: ShareHeader -> nat)
    requires Accounted(w) && Weighed(w) && k < |w.tasks| && w.tasks[k].Placed?
    requires !Arrived(w.stored, w.tasks[k].a.share.Hash())
    ensures Weighed(TakeTurn(w, Commit(k), work))
  {
    var t, h := w.tasks[k], w.tasks[k].a.share.Hash();
    var db, db' := After(map[], w.live.run), After(map[], w.live.run + [[CallOf(t)]]);
    forall b ensures ChainWork(db', b) == if b == h then t.chainWork else ChainWork(db, b) {
      RecordPush(w.live.run, CallOf(t), b);
    }
    NewHash(w, h);
    OneMoreRecord(w, k, TakeTurn(w, Commit(k), work), db, db');
  }

  lemma ChooseWeighs(w: World, k: nat, work: ShareHeader -> nat)
    requires Accounted(w) && Weighed(w) && k < |w.tasks| && w.tasks[k].Stored? && ChoiceMeets(w, Choose(k))
    ensures Weighed(TakeTurn(w, Choose(k), work))
  {
    var t, next := w.tasks[k], TakeTurn(w, Choose(k), work);
    var db := After(map[], w.live.run);
    TipIsRecorded(w);
    assert next.live.run == w.live.run;
    assert ChainWork(db, t.a.share.Hash()) == t.chainWork;
    forall b | Arrived(next.chosen, b) ensures ChainWork(db, b) <= ChainWork(db, next.live.tip) {
      ArrivedPush(w.chosen, t.a, b);
    }
  }

  lemma StartWeighs(g: Arrival, work: ShareHeader -> nat)
    ensures Weighed(Start(g, work))
  {
    LiveIsSet([g], work);
  }

  /**
    While shares are stored once and every choice finds a common ancestor, no share that chose is heavier than the
    chain tip, however the tasks interleave.
   */
  lemma {:induction false} TipHeaviestOfChosen(g: Arrival, turns: seq<Turn>, work: ShareHeader -> nat)
    requires ChoicesMeet(g, turns, work) && Once(AfterTurns(g, turns, work).stored)
    ensures Weighed(AfterTurns(g, turns, work))
  {
    if turns == [] {
      StartWeighs(g, work);
    } else {
      var init, turn := turns[..|turns| - 1], turns[|turns| - 1];
      var w := AfterTurns(g, init, work);
      TipsFollowChoices(g, init, work);
      OnceBefore(w, turn, work);
      TipHeaviestOfChosen(g, init, work);
      match turn
      case Begin(a) =>
      case Commit(k) =>
        if k < |w.tasks| && w.tasks[k].Placed? {
          OnceInit(w.stored, w.tasks[k].a);
          CommitWeighs(w, k, work);
        }
      case Choose(k) =>
        if k < |w.tasks| && w.tasks[k].Stored? {
          ChooseWeighs(w, k, work);
        }
    }
  }

  lemma OnceBefore(w: World, turn: Turn, work: ShareHeader -> nat)
    requires Once(TakeTurn(w, turn, work).stored)
    ensures Once(w.stored)
  {
    if turn.Commit? && turn.task < |w.tasks| && w.tasks[turn.task].Placed? {
      OnceInit(w.stored, w.tasks[turn.task].a);
    }
  }
}
