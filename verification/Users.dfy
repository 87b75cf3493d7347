/** Users and PPLNS shares numbered by one id generator, by calls whose lookups, ids and writes interleave. */
module Users {
  import opened Primitives
  import opened Codec
  import opened Snowflake
  import opened TimeStores

  datatype StoredUser = StoredUser(userId: Word64, btcaddress: string, createdAt: Word64)

  /** Where a call in flight has got to. `call` is its place in the generator's history. */
  datatype Pending =
    | NotFound(btcaddress: string)
    | UserNumbered(btcaddress: string, call: nat)
    | ShareNumbered(share: PplnsShare, call: nat)

  /** The stored column families, the calls in flight, and the history of clock readings and answers. */
  datatype World = World(
    users: map<Word64, StoredUser>,
    index: map<string, Word64>,
    shares: Shares,
    pending: map<nat, Pending>,
    calls: seq<Word64>,
    answers: set<(Word64, string)>,
    userWrites: map<nat, string>,
    shareWrites: map<nat, PplnsShare>)

  const EMPTY := World(map[], map[], map[], map[], [], {}, map[], map[])

  /** The atomic steps of `add_user` and `add_pplns_share`; `caller` names the running call. */
  datatype Event =
    | LookUp(caller: nat, btcaddress: string)
    | NumberUser(caller: nat, now: Word64)
    | WriteUser(caller: nat, createdAt: Word64)
    | NumberShare(caller: nat, share: PplnsShare, now: Word64)
    | WriteShare(caller: nat)

  /** A step that its caller is not ready for changes nothing. */
  function Step(w: World, e: Event): World {
    match e
    case LookUp(c, a) =>
      if c in w.pending then w
      else if a in w.index then w.(answers := w.answers + {(w.index[a], a)})
      else w.(pending := w.pending[c := NotFound(a)])
    case NumberUser(c, now) =>
      if c in w.pending && w.pending[c].NotFound?
      then w.(pending := w.pending[c := UserNumbered(w.pending[c].btcaddress, |w.calls|)], calls := w.calls + [now])
      else w
    case WriteUser(c, at) =>
      if c in w.pending && w.pending[c].UserNumbered? && w.pending[c].call < |w.calls|
      then
        var a, k := w.pending[c].btcaddress, w.pending[c].call;
        var id := IdAt(w.calls, k);
        w.(users := w.users[id := StoredUser(id, a, at)], index := w.index[a := id], answers := w.answers + {(id, a)},
           userWrites := w.userWrites[k := a], pending := w.pending - {c})
      else w
    case NumberShare(c, s, now) =>
      if c in w.pending then w
      else w.(pending := w.pending[c := ShareNumbered(s, |w.calls|)], calls := w.calls + [now])
    case WriteShare(c) =>
      if c in w.pending && w.pending[c].ShareNumbered? && w.pending[c].call < |w.calls|
      then
        var s, k := w.pending[c].share, w.pending[c].call;
        w.(shares := w.shares[ShareKey(s, IdAt(w.calls, k)) := s.(btcaddress := None)],
           shareWrites := w.shareWrites[k := s], pending := w.pending - {c})
      else w
  }

  function After(events: seq<Event>): World {
    if events == [] then EMPTY else Step(After(events[..|events| - 1]), events[|events| - 1])
  }

  // ----- what the getters return -----

  function GetUserById(w: World, id: Word64): Option<StoredUser> {
    if id in w.users then Some(w.users[id]) else None
  }

  function GetUserByBtcaddress(w: World, a: string): Option<StoredUser> {
    if a in w.index then GetUserById(w, w.index[a]) else None
  }

  /** `id` is a user, with this address. */
  ghost predicate Resolves(w: World, id: Word64, a: string) {
    GetUserById(w, id).Some? && GetUserById(w, id).value.userId == id && GetUserById(w, id).value.btcaddress == a
  }

  // ----- the invariant of every step -----

  /** Each place in the history belongs to at most one call in flight or finished write. */
  ghost predicate Owned(w: World) {
    Ownership(w.pending, |w.calls|, w.userWrites.Keys, w.shareWrites.Keys)
  }

  ghost predicate Ownership(pending: map<nat, Pending>, n: nat, users: set<nat>, shares: set<nat>) {
    && (forall c {:trigger pending[c]} :: c in pending && !pending[c].NotFound? ==>
          pending[c].call < n && pending[c].call !in users && pending[c].call !in shares)
    && (forall c, d {:trigger pending[c], pending[d]} ::
          c in pending && d in pending && c != d && !pending[c].NotFound? && !pending[d].NotFound? ==>
          pending[c].call != pending[d].call)
    && (forall k :: k in users ==> k < n)
    && (forall k :: k in shares ==> k < n)
  }

  ghost predicate Kept(w: World)
    requires Owned(w)
  {
    && (forall k {:trigger w.userWrites[k]} :: k in w.userWrites ==> Resolves(w, IdAt(w.calls, k), w.userWrites[k]))
    && (forall k {:trigger w.shareWrites[k]} :: k in w.shareWrites ==> Holds(w, k))
  }

  /** The share written at place `k` is still under its own key. */
  ghost predicate Holds(w: World, k: nat)
    requires k in w.shareWrites && k < |w.calls|
  {
    var key := ShareKey(w.shareWrites[k], IdAt(w.calls, k));
    key in w.shares && w.shares[key] == w.shareWrites[k].(btcaddress := None)
  }

  /** Index entries and answers all come from some write. */
  ghost predicate Backed(w: World)
    requires Owned(w)
  {
    && (forall p {:trigger p in w.answers} :: p in w.answers ==> Written(w, p.0, p.1))
    && (forall a {:trigger w.index[a]} :: a in w.index ==> Written(w, w.index[a], a))
  }

  ghost predicate Written(w: World, id: Word64, a: string)
    requires Owned(w)
  {
    exists k :: k in w.userWrites && w.userWrites[k] == a && IdAt(w.calls, k) == id
  }

  /** The places a step adds to the history or to the writes. */
  lemma StepGrows(w: World, e: Event)
    ensures w.calls <= Step(w, e).calls && w.answers <= Step(w, e).answers
  {
  }

  lemma NumberingOwned(pending: map<nat, Pending>, n: nat, users: set<nat>, shares: set<nat>, c: nat, p: Pending)
    requires Ownership(pending, n, users, shares) && !p.NotFound? && p.call == n
    ensures Ownership(pending[c := p], n + 1, users, shares)
  {
  }

  lemma WritingOwned(pending: map<nat, Pending>, n: nat, users: set<nat>, shares: set<nat>, c: nat)
    requires Ownership(pending, n, users, shares) && c in pending && !pending[c].NotFound?
    ensures Ownership(pending - {c}, n, users + {pending[c].call}, shares)
    ensures Ownership(pending - {c}, n, users, shares + {pending[c].call})
  {
  }

  lemma StepOwned(w: World, e: Event)
    requires Owned(w)
    ensures Owned(Step(w, e)) && w.calls <= Step(w, e).calls
  {
    StepGrows(w, e);
    if e.caller in w.pending && !w.pending[e.caller].NotFound? {
      WriteOwned(w, e);
    } else if e.NumberUser? || e.NumberShare? {
      NumberOwned(w, e);
    } else if e.LookUp? {
      LookUpOwned(w, e.caller, e.btcaddress);
    } else {
      NotReady(w, e);
    }
  }

  lemma NumberOwned(w: World, e: Event)
    requires Owned(w) && (e.NumberUser? || e.NumberShare?)
    ensures Owned(Step(w, e))
  {
    var v := Step(w, e);
    if v != w {
      assert v.userWrites == w.userWrites && v.shareWrites == w.shareWrites && |v.calls| == |w.calls| + 1;
      NumberingOwned(w.pending, |w.calls|, w.userWrites.Keys, w.shareWrites.Keys, e.caller, v.pending[e.caller]);
      assert v.pending == w.pending[e.caller := v.pending[e.caller]];
    }
  }

  /** A write by a caller that is not numbered changes nothing. */
  lemma NotReady(w: World, e: Event)
    requires e.WriteUser? || e.WriteShare?
    requires e.caller in w.pending ==> w.pending[e.caller].NotFound?
    ensures Step(w, e) == w
  {
  }

  lemma LookUpOwned(w: World, c: nat, a: string)
    requires Owned(w)
    ensures Owned(Step(w, LookUp(c, a)))
  {
    var v := Step(w, LookUp(c, a));
    if v.pending != w.pending {
      AskingOwned(w.pending, |w.calls|, w.userWrites.Keys, w.shareWrites.Keys, c, a);
    }
  }

  lemma AskingOwned(pending: map<nat, Pending>, n: nat, users: set<nat>, shares: set<nat>, c: nat, a: string)
    requires Ownership(pending, n, users, shares)
    ensures Ownership(pending[c := NotFound(a)], n, users, shares)
  {
  }

  lemma WriteOwned(w: World, e: Event)
    requires Owned(w) && e.caller in w.pending && !w.pending[e.caller].NotFound?
    ensures Owned(Step(w, e))
  {
    var v, k := Step(w, e), w.pending[e.caller].call;
    WritingOwned(w.pending, |w.calls|, w.userWrites.Keys, w.shareWrites.Keys, e.caller);
    if v != w {
      assert v.pending == w.pending - {e.caller} && v.calls == w.calls;
      if e.WriteUser? {
        assert v.userWrites.Keys == w.userWrites.Keys + {k};
      } else {
        assert v.shareWrites.Keys == w.shareWrites.Keys + {k};
      }
    }
  }

  lemma WrittenStays(w: World, e: Event, id: Word64, a: string)
    requires Owned(w) && Owned(Step(w, e)) && Written(w, id, a)
    ensures Written(Step(w, e), id, a)
  {
    var k :| k in w.userWrites && w.userWrites[k] == a && IdAt(w.calls, k) == id;
    var v := Step(w, e);
    assert k in v.userWrites && v.userWrites[k] == a && IdAt(v.calls, k) == id;
  }

  lemma StepBacked(w: World, e: Event)
    requires Owned(w) && Backed(w)
    ensures Owned(Step(w, e)) && Backed(Step(w, e))
  {
    StepOwned(w, e);
    var v := Step(w, e);
    if e.WriteUser? && e.caller in w.pending && w.pending[e.caller].UserNumbered? {
      var p := w.pending[e.caller];
      assert v.userWrites[p.call] == p.btcaddress;
      assert Written(v, IdAt(v.calls, p.call), p.btcaddress);
    }
    forall q | q in v.answers ensures Written(v, q.0, q.1) {
      if q in w.answers || e.LookUp? {
        WrittenStays(w, e, q.0, q.1);
      }
    }
    forall a | a in v.index ensures Written(v, v.index[a], a) {
      if a in w.index && w.index[a] == v.index[a] {
        WrittenStays(w, e, w.index[a], a);
      }
    }
  }

  lemma StepKept(w: World, e: Event)
    requires Owned(w) && Kept(w) && DistinctIds(Step(w, e).calls)
    ensures Owned(Step(w, e)) && Kept(Step(w, e))
  {
    StepOwned(w, e);
    var v := Step(w, e);
    forall k | k in v.userWrites ensures Resolves(v, IdAt(v.calls, k), v.userWrites[k]) {
      UserStays(w, e, k);
    }
    forall k | k in v.shareWrites ensures Holds(v, k) {
      ShareStays(w, e, k);
    }
  }

  /** Two places differ in id, in whichever order they come. */
  lemma OtherId(calls: seq<Word64>, i: nat, j: nat)
    requires DistinctIds(calls) && i < |calls| && j < |calls| && i != j
    ensures IdAt(calls, i) != IdAt(calls, j)
  {
    if i < j {
      assert IdAt(calls, i) != IdAt(calls, j);
    } else {
      assert IdAt(calls, j) != IdAt(calls, i);
    }
  }

  lemma UserStays(w: World, e: Event, k: nat)
    requires Owned(w) && Kept(w) && Owned(Step(w, e)) && DistinctIds(Step(w, e).calls) && k in Step(w, e).userWrites
    ensures Resolves(Step(w, e), IdAt(Step(w, e).calls, k), Step(w, e).userWrites[k])
  {
    if e.WriteUser? {
      UserStaysOnWrite(w, e.caller, e.createdAt, k);
    } else {
      UsersUntouched(w, e);
      StillResolves(w, Step(w, e), k);
    }
  }

  lemma UsersUntouched(w: World, e: Event)
    requires !e.WriteUser?
    ensures Step(w, e).users == w.users && Step(w, e).userWrites == w.userWrites && w.calls <= Step(w, e).calls
  {
  }

  lemma StillResolves(w: World, v: World, k: nat)
    requires Owned(w) && Kept(w) && k in w.userWrites
    requires v.users == w.users && v.userWrites == w.userWrites && w.calls <= v.calls
    ensures Resolves(v, IdAt(v.calls, k), v.userWrites[k])
  {
    assert Resolves(w, IdAt(w.calls, k), w.userWrites[k]);
  }

  lemma UserStaysOnWrite(w: World, c: nat, at: Word64, k: nat)
    requires Owned(w) && Kept(w) && Owned(Step(w, WriteUser(c, at))) && DistinctIds(w.calls)
             && k in Step(w, WriteUser(c, at)).userWrites
    ensures Resolves(Step(w, WriteUser(c, at)), IdAt(w.calls, k), Step(w, WriteUser(c, at)).userWrites[k])
  {
    if k in w.userWrites {
      assert Resolves(w, IdAt(w.calls, k), w.userWrites[k]);
      if c in w.pending && w.pending[c].UserNumbered? {
        OtherId(w.calls, k, w.pending[c].call);
      }
    }
  }

  lemma ShareStays(w: World, e: Event, k: nat)
    requires Owned(w) && Kept(w) && Owned(Step(w, e)) && DistinctIds(Step(w, e).calls) && k in Step(w, e).shareWrites
    ensures Holds(Step(w, e), k)
  {
    if e.WriteShare? {
      ShareStaysOnWrite(w, e.caller, k);
    } else {
      SharesUntouched(w, e);
      StillHolds(w, Step(w, e), k);
    }
  }

  lemma SharesUntouched(w: World, e: Event)
    requires !e.WriteShare?
    ensures Step(w, e).shares == w.shares && Step(w, e).shareWrites == w.shareWrites && w.calls <= Step(w, e).calls
  {
  }

  lemma StillHolds(w: World, v: World, k: nat)
    requires Owned(w) && Kept(w) && k in w.shareWrites
    requires v.shares == w.shares && v.shareWrites == w.shareWrites && w.calls <= v.calls
    ensures Holds(v, k)
  {
    assert w.shareWrites[k] == w.shareWrites[k] && Holds(w, k);
  }

  lemma ShareStaysOnWrite(w: World, c: nat, k: nat)
    requires Owned(w) && Kept(w) && Owned(Step(w, WriteShare(c))) && DistinctIds(w.calls)
             && k in Step(w, WriteShare(c)).shareWrites
    ensures Holds(Step(w, WriteShare(c)), k)
  {
    if k in w.shareWrites {
      assert w.shareWrites[k] == w.shareWrites[k] && Holds(w, k);
      if c in w.pending && w.pending[c].ShareNumbered? {
        var p := w.pending[c];
        OtherId(w.calls, k, p.call);
        DifferentKeys(w.shareWrites[k], IdAt(w.calls, k), p.share, IdAt(w.calls, p.call));
      }
    }
  }

  lemma DifferentKeys(s: PplnsShare, id: Word64, t: PplnsShare, id': Word64)
    requires id != id'
    ensures ShareKey(s, id) != ShareKey(t, id')
  {
    MakeKeyOrder(Micros(s.nTime), s.userId, id, Micros(t.nTime), t.userId, id');
  }

  lemma DistinctPrefix(a: seq<Word64>, b: seq<Word64>)
    requires a <= b && DistinctIds(b)
    ensures DistinctIds(a)
  {
    forall i: nat, j: nat | i < j < |a| ensures IdAt(a, i) != IdAt(a, j) {
      assert IdAt(b, i) != IdAt(b, j);
    }
  }

  lemma {:induction false} RunBacked(events: seq<Event>)
    ensures Owned(After(events)) && Backed(After(events))
  {
    if events == [] {
    } else {
      RunBacked(events[..|events| - 1]);
      StepBacked(After(events[..|events| - 1]), events[|events| - 1]);
    }
  }

  lemma {:induction false} RunKept(events: seq<Event>)
    requires DistinctIds(After(events).calls)
    ensures Owned(After(events)) && Kept(After(events))
  {
    if events == [] {
    } else {
      var before, e := events[..|events| - 1], events[|events| - 1];
      RunBacked(before);
      StepOwned(After(before), e);
      DistinctPrefix(After(before).calls, After(events).calls);
      RunKept(before);
      StepKept(After(before), e);
    }
  }

  // ----- theorems over every run -----

  /** Every answer `add_user` gave at any earlier point still resolves to its address at the end. */
  lemma AnswersResolveForever(events: seq<Event>, n: nat, id: Word64, a: string)
    requires n <= |events| && Paced(After(events).calls) && (id, a) in After(events[..n]).answers
    ensures Resolves(After(events), id, a)
  {
    PacedAreDistinct(After(events).calls);
    AnswersGrow(events, n);
    RunBacked(events);
    RunKept(events);
    var w := After(events);
    assert (id, a) in w.answers && Written(w, id, a);
    var k :| k in w.userWrites && w.userWrites[k] == a && IdAt(w.calls, k) == id;
  }

  lemma {:induction false} AnswersGrow(events: seq<Event>, n: nat)
    requires n <= |events|
    ensures After(events[..n]).answers <= After(events).answers
    decreases |events|
  {
    if n == |events| {
      assert events[..n] == events;
    } else {
      AnswersGrow(events[..|events| - 1], n);
      StepGrows(After(events[..|events| - 1]), events[|events| - 1]);
      assert events[..|events| - 1][..n] == events[..n];
    }
  }

  /** The address index always leads to a user with that address, and to no user for an address never written. */
  lemma IndexIsSound(events: seq<Event>, a: string)
    requires Paced(After(events).calls)
    ensures GetUserByBtcaddress(After(events), a).Some? <==>
              exists k :: k in After(events).userWrites && After(events).userWrites[k] == a
    ensures GetUserByBtcaddress(After(events), a).Some? ==> GetUserByBtcaddress(After(events), a).value.btcaddress == a
  {
    PacedAreDistinct(After(events).calls);
    RunBacked(events);
    RunKept(events);
    var w := After(events);
    WritesAreIndexed(events);
    if a in w.index {
      assert Written(w, w.index[a], a);
      var k :| k in w.userWrites && w.userWrites[k] == a && IdAt(w.calls, k) == w.index[a];
      assert Resolves(w, w.index[a], a);
    }
  }

  ghost predicate Indexed(w: World) {
    forall k :: k in w.userWrites ==> w.userWrites[k] in w.index
  }

  lemma StepIndexed(w: World, e: Event)
    requires Indexed(w)
    ensures Indexed(Step(w, e))
  {
  }

  lemma {:induction false} WritesAreIndexed(events: seq<Event>)
    ensures Indexed(After(events))
  {
    if events == [] {
    } else {
      WritesAreIndexed(events[..|events| - 1]);
      StepIndexed(After(events[..|events| - 1]), events[|events| - 1]);
    }
  }

  /**
    No share ever stored is overwritten by another: all keys written are different and each still holds its own
    share.
   */
  lemma SharesNeverOverwritten(events: seq<Event>, i: nat, j: nat)
    requires Paced(After(events).calls)
    requires i in After(events).shareWrites && j in After(events).shareWrites
    ensures Owned(After(events)) && Holds(After(events), i)
    ensures var w := After(events);
            i != j ==> ShareKey(w.shareWrites[i], IdAt(w.calls, i)) != ShareKey(w.shareWrites[j], IdAt(w.calls, j))
  {
    PacedAreDistinct(After(events).calls);
    RunKept(events);
    var w := After(events);
    assert w.shareWrites[i] == w.shareWrites[i] && Holds(w, i);
    if i != j {
      OtherId(w.calls, i, j);
      DifferentKeys(w.shareWrites[i], IdAt(w.calls, i), w.shareWrites[j], IdAt(w.calls, j));
    }
  }

  /**
    What distinct ids are for: a write loses an earlier user exactly when it repeats that user's id for another
    address.
   */
  lemma WriteKeepsUserIff(w: World, c: nat, at: Word64, id: Word64, a: string)
    requires Owned(w) && Resolves(w, id, a) && c in w.pending && w.pending[c].UserNumbered?
    ensures Resolves(Step(w, WriteUser(c, at)), id, a) <==>
              IdAt(w.calls, w.pending[c].call) != id || w.pending[c].btcaddress == a
  {
    assert w.pending[c].call < |w.calls|;
  }

  lemma BothNumbered(w: World, c: nat, d: nat, a: string, now: Word64, now': Word64)
    requires c !in w.pending && d !in w.pending && c != d && a !in w.index
    ensures var v := Step(Step(Step(Step(w, LookUp(c, a)), LookUp(d, a)), NumberUser(c, now)), NumberUser(d, now'));
            && v.calls == w.calls + [now] + [now'] && v.answers == w.answers && v.index == w.index
            && c in v.pending && v.pending[c] == UserNumbered(a, |w.calls|)
            && d in v.pending && v.pending[d] == UserNumbered(a, |w.calls| + 1)
  {
  }

  lemma BothWritten(v: World, c: nat, d: nat, a: string, i: nat, j: nat, at: Word64, at': Word64)
    requires c in v.pending && d in v.pending && c != d && i < |v.calls| && j < |v.calls|
    requires v.pending[c] == UserNumbered(a, i) && v.pending[d] == UserNumbered(a, j)
    ensures var u := Step(Step(v, WriteUser(c, at)), WriteUser(d, at'));
            && u.answers == v.answers + {(IdAt(v.calls, i), a), (IdAt(v.calls, j), a)}
            && u.index == v.index[a := IdAt(v.calls, j)]
            && Resolves(u, IdAt(v.calls, i), a) && Resolves(u, IdAt(v.calls, j), a)
  {
  }

  /**
    Two calls for one new address that both look up before either writes are both answered, with an id each; the
    index keeps the later.
   */
  lemma RacingCalls(w: World, c: nat, d: nat, a: string, now: Word64, now': Word64, at: Word64, at': Word64)
    requires c !in w.pending && d !in w.pending && c != d && a !in w.index
    ensures var v := Step(Step(Step(Step(w, LookUp(c, a)), LookUp(d, a)), NumberUser(c, now)), NumberUser(d, now'));
            var u := Step(Step(v, WriteUser(c, at)), WriteUser(d, at'));
            var calls := w.calls + [now] + [now'];
            var first, second := IdAt(calls, |w.calls|), IdAt(calls, |w.calls| + 1);
            && u.answers == w.answers + {(first, a), (second, a)}
            && first != second
            && u.index == w.index[a := second]
            && Resolves(u, first, a) && Resolves(u, second, a)
  {
    BothNumbered(w, c, d, a, now, now');
    var v := Step(Step(Step(Step(w, LookUp(c, a)), LookUp(d, a)), NumberUser(c, now)), NumberUser(d, now'));
    BothWritten(v, c, d, a, |w.calls|, |w.calls| + 1, at, at');
    SameIdIff(v.calls, |w.calls|, |w.calls| + 1);
    CloseDiffer(|w.calls|, |w.calls| + 1);
  }

  // ----- one call on its own -----

  /** The two column families `add_user` writes; `nextId` is what the generator gives if it is asked. */
  class UserStore {
    var users: map<Word64, StoredUser>
    var index: map<string, Word64>

    constructor ()
      ensures users == map[] && index == map[]
    {
      users, index := map[], map[];
    }

    method AddUser(btcaddress: string, nextId: Word64, createdAt: Word64) returns (id: Word64)
      modifies this
      ensures old(btcaddress in index) ==> id == old(index)[btcaddress] && users == old(users) && index == old(index)
      ensures old(btcaddress !in index) ==>
                && id == nextId
                && users == old(users)[id := StoredUser(id, btcaddress, createdAt)]
                && index == old(index)[btcaddress := id]
    {
      if btcaddress in index {
        return index[btcaddress];
      }
      id := nextId;
      users := users[id := StoredUser(id, btcaddress, createdAt)];
      index := index[btcaddress := id];
    }
  }

  /** A call nobody interleaves with takes the machine through the same change. */
  lemma CallAlone(w: World, c: nat, a: string, now: Word64, at: Word64)
    requires c !in w.pending
    ensures var v := Step(Step(Step(w, LookUp(c, a)), NumberUser(c, now)), WriteUser(c, at));
            if a in w.index
            then v == w.(answers := w.answers + {(w.index[a], a)})
            else var id := IdAt(w.calls + [now], |w.calls|);
              && v.users == w.users[id := StoredUser(id, a, at)]
              && v.index == w.index[a := id]
              && v.answers == w.answers + {(id, a)}
              && v.pending == w.pending && v.shares == w.shares
  {
  }
}
