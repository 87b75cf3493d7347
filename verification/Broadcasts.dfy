/**
  A broadcast offer by offer: client tasks receive and hang up between the offers and removals of `send_to_all`.
  Every such run ends where a run with the broadcast in one step ends.
 */
module Broadcasts {
  import opened ClientConnections

  // ----- what a client's task does to its own channel -----

  predicate IsOwn(step: Step) {
    step.Receive? || step.DropReceiver?
  }

  function OwnStep(ch: Channel, step: Step): Channel {
    match step
    case Receive(_) =>
      if !ch.receiverGone && ch.queue != []
      then ch.(queue := ch.queue[1..], received := ch.received + [ch.queue[0]]) else ch
    case DropReceiver(_) => ch.(receiverGone := true)
    case _ => ch
  }

  /** The steps of connection `id` among `steps`. */
  function Of(steps: seq<Step>, id: nat): seq<Step> {
    if steps == [] then []
    else
      var last := steps[|steps| - 1];
      Of(steps[..|steps| - 1], id) + (if IsOwn(last) && last.id == id then [last] else [])
  }

  lemma OfPush(steps: seq<Step>, step: Step, id: nat)
    ensures Of(steps + [step], id) == Of(steps, id) + (if IsOwn(step) && step.id == id then [step] else [])
  {
    assert (steps + [step])[..|steps + [step]| - 1] == steps;
  }

  function OwnRun(ch: Channel, steps: seq<Step>): Channel {
    if steps == [] then ch else OwnStep(OwnRun(ch, steps[..|steps| - 1]), steps[|steps| - 1])
  }

  lemma OwnRunPush(ch: Channel, steps: seq<Step>, step: Step)
    ensures OwnRun(ch, steps + [step]) == OwnStep(OwnRun(ch, steps), step)
  {
    assert (steps + [step])[..|steps + [step]| - 1] == steps;
  }

  /** Receiving and hanging up do not depend on the shutdown channel. */
  lemma {:induction false} OwnRunSignalled(ch: Channel, steps: seq<Step>)
    ensures OwnRun(ch.(shutdown := Signalled), steps) == OwnRun(ch, steps).(shutdown := Signalled)
  {
    if steps == [] {
    } else {
      OwnRunSignalled(ch, steps[..|steps| - 1]);
    }
  }

  function OwnEffect(s: State, step: Step): State {
    match step
    case Receive(id) => ReceiveEffect(s, id)
    case DropReceiver(id) => DropReceiverEffect(s, id)
    case _ => s
  }

  function OwnAll(s: State, steps: seq<Step>): State {
    if steps == [] then s else OwnEffect(OwnAll(s, steps[..|steps| - 1]), steps[|steps| - 1])
  }

  lemma OwnEffectAt(s: State, step: Step, id: nat)
    requires id < |s.channels|
    ensures var t := OwnEffect(s, step);
            && t.clients == s.clients && |t.channels| == |s.channels|
            && t.channels[id] == if IsOwn(step) && step.id == id then OwnStep(s.channels[id], step) else s.channels[id]
  {
  }

  /** Each channel runs on its own. */
  lemma {:induction false} OwnAllAt(s: State, steps: seq<Step>, id: nat)
    requires id < |s.channels|
    ensures var t := OwnAll(s, steps);
            && t.clients == s.clients && |t.channels| == |s.channels|
            && t.channels[id] == OwnRun(s.channels[id], Of(steps, id))
  {
    if steps == [] {
    } else {
      var init, last := steps[..|steps| - 1], steps[|steps| - 1];
      OwnAllAt(s, init, id);
      OwnEffectAt(OwnAll(s, init), last, id);
      OwnRunPush(s.channels[id], Of(init, id), last);
      assert Of(init, id) + [] == Of(init, id);
    }
  }

  lemma {:induction false} OwnRunAddr(ch: Channel, steps: seq<Step>)
    ensures OwnRun(ch, steps).addr == ch.addr && OwnRun(ch, steps).shutdown == ch.shutdown
  {
    if steps == [] {
    } else {
      OwnRunAddr(ch, steps[..|steps| - 1]);
    }
  }

  // ----- a broadcast under way -----

  /** `todo` are still to be offered the message, `failed` could not take it and are still to be removed. */
  datatype Casting = Casting(s: State, todo: set<Addr>, failed: set<Addr>)

  datatype Fine = OfferTo(addr: Addr) | RemoveFailed(addr: Addr) | ClientStep(step: Step)

  function Begin(s: State): Casting {
    Casting(s, s.clients.Keys, {})
  }

  /** Removals start once everybody was offered the message; steps that are not due change nothing. */
  function Go(c: Casting, m: Msg, f: Fine): Casting {
    match f
    case OfferTo(a) =>
      if a in c.todo && a in c.s.clients && c.s.clients[a] < |c.s.channels| then
        var id := c.s.clients[a];
        var ch := c.s.channels[id];
        if CanTake(ch)
        then Casting(c.s.(channels := c.s.channels[id := ch.(queue := ch.queue + [m])]), c.todo - {a}, c.failed)
        else Casting(c.s, c.todo - {a}, c.failed + {a})
      else c
    case RemoveFailed(a) =>
      if c.todo == {} && a in c.failed && a in c.s.clients && c.s.clients[a] < |c.s.channels|
      then Casting(RemoveEffect(c.s, a), c.todo, c.failed - {a}) else c
    case ClientStep(step) => c.(s := OwnEffect(c.s, step))
  }

  function GoAll(c: Casting, m: Msg, fs: seq<Fine>): Casting {
    if fs == [] then c else Go(GoAll(c, m, fs[..|fs| - 1]), m, fs[|fs| - 1])
  }

  predicate Finished(c: Casting) {
    c.todo == {} && c.failed == {}
  }

  /** The client steps of a broadcast. */
  function ClientSteps(fs: seq<Fine>): seq<Step> {
    if fs == [] then []
    else
      var last := fs[|fs| - 1];
      ClientSteps(fs[..|fs| - 1]) + (if last.ClientStep? && IsOwn(last.step) then [last.step] else [])
  }

  // ----- where each channel stands -----

  /**
    Channel `id` of a broadcast that started in `s`, when its own steps `before` came before its offer and `after`
    behind it.
   */
  ghost predicate Stands(s: State, m: Msg, id: nat, before: seq<Step>, after: seq<Step>, c: Casting)
    requires id < |s.channels| == |c.s.channels|
  {
    var a, ch, now := s.channels[id].addr, OwnRun(s.channels[id], before), c.s.channels[id];
    if !Registered(s, id) then now == ch && after == []
    else if a in c.todo then now == ch && after == [] && a !in c.failed && Keeps(s, c, a)
    else if CanTake(ch) then now == OwnRun(ch.(queue := ch.queue + [m]), after) && a !in c.failed && Keeps(s, c, a)
    else if a in c.failed then now == OwnRun(ch, after) && Keeps(s, c, a)
    else now == OwnRun(ch, after).(shutdown := Signalled) && a !in c.s.clients
  }

  predicate Keeps(s: State, c: Casting, a: Addr) {
    a in c.s.clients && a in s.clients && c.s.clients[a] == s.clients[a]
  }

  ghost predicate Split(s: State, m: Msg, before: seq<Step>, after: seq<Step>, c: Casting) {
    && |c.s.channels| == |s.channels|
    && c.s.clients.Keys <= s.clients.Keys && c.todo + c.failed <= s.clients.Keys
    && (forall a :: a in c.s.clients ==> Keeps(s, c, a))
    && (forall id: nat :: |s.channels| <= id ==> Of(after, id) == [])
    && forall id :: 0 <= id < |s.channels| ==> Stands(s, m, id, Of(before, id), Of(after, id), c)
  }

  lemma OfferStands(s: State, m: Msg, id: nat, before: seq<Step>, after: seq<Step>, c: Casting, a: Addr)
    requires Valid(s) && id < |s.channels| == |c.s.channels| && Stands(s, m, id, before, after, c)
    requires forall x :: x in c.s.clients ==> Keeps(s, c, x)
    requires c.todo <= s.clients.Keys
    ensures |Go(c, m, OfferTo(a)).s.channels| == |s.channels|
    ensures Stands(s, m, id, before, after, Go(c, m, OfferTo(a)))
  {
  }

  lemma RemoveStands(s: State, m: Msg, id: nat, before: seq<Step>, after: seq<Step>, c: Casting, a: Addr)
    requires Valid(s) && id < |s.channels| == |c.s.channels| && Stands(s, m, id, before, after, c)
    requires forall x :: x in c.s.clients ==> Keeps(s, c, x)
    requires c.failed <= s.clients.Keys
    ensures |Go(c, m, RemoveFailed(a)).s.channels| == |s.channels|
    ensures Stands(s, m, id, before, after, Go(c, m, RemoveFailed(a)))
  {
  }

  /** Whether a client step is still to come before the offer to its channel. */
  predicate IsEarly(s: State, c: Casting, step: Step) {
    IsOwn(step) && step.id < |s.channels| && Registered(s, step.id) ==> s.channels[step.id].addr in c.todo
  }

  lemma EarlyStands(s: State, m: Msg, id: nat, before: seq<Step>, after: seq<Step>, c: Casting, step: Step)
    requires id < |s.channels| == |c.s.channels| && Stands(s, m, id, before, after, c)
    requires IsOwn(step) && IsEarly(s, c, step)
    ensures |OwnEffect(c.s, step).channels| == |s.channels|
    ensures Stands(s, m, id, before + (if step.id == id then [step] else []), after, c.(s := OwnEffect(c.s, step)))
  {
    OwnEffectAt(c.s, step, id);
    OwnRunPush(s.channels[id], before, step);
    assert before + [] == before;
  }

  lemma LateStands(s: State, m: Msg, id: nat, before: seq<Step>, after: seq<Step>, c: Casting, step: Step)
    requires id < |s.channels| == |c.s.channels| && Stands(s, m, id, before, after, c)
    requires IsOwn(step) && !IsEarly(s, c, step)
    ensures |OwnEffect(c.s, step).channels| == |s.channels|
    ensures Stands(s, m, id, before, after + (if step.id == id then [step] else []), c.(s := OwnEffect(c.s, step)))
  {
    OwnEffectAt(c.s, step, id);
    var ch := OwnRun(s.channels[id], before);
    OwnRunPush(ch, after, step);
    OwnRunPush(ch.(queue := ch.queue + [m]), after, step);
    assert after + [] == after;
  }

  lemma ActorKeepsSplit(s: State, m: Msg, before: seq<Step>, after: seq<Step>, c: Casting, f: Fine)
    requires Valid(s) && Split(s, m, before, after, c) && !f.ClientStep?
    ensures Split(s, m, before, after, Go(c, m, f))
  {
    forall id | 0 <= id < |s.channels|
      ensures |Go(c, m, f).s.channels| == |s.channels|
      ensures Stands(s, m, id, Of(before, id), Of(after, id), Go(c, m, f))
    {
      if f.OfferTo? {
        OfferStands(s, m, id, Of(before, id), Of(after, id), c, f.addr);
      } else {
        RemoveStands(s, m, id, Of(before, id), Of(after, id), c, f.addr);
      }
    }
  }

  lemma EarlyKeepsSplit(s: State, m: Msg, before: seq<Step>, after: seq<Step>, c: Casting, step: Step)
    requires Split(s, m, before, after, c) && IsOwn(step) && IsEarly(s, c, step)
    ensures Split(s, m, before + [step], after, c.(s := OwnEffect(c.s, step)))
  {
    forall id | 0 <= id < |s.channels|
      ensures |OwnEffect(c.s, step).channels| == |s.channels| && OwnEffect(c.s, step).clients == c.s.clients
      ensures Stands(s, m, id, Of(before + [step], id), Of(after, id), c.(s := OwnEffect(c.s, step)))
    {
      OwnEffectAt(c.s, step, id);
      OfPush(before, step, id);
      EarlyStands(s, m, id, Of(before, id), Of(after, id), c, step);
    }
  }

  lemma LateKeepsSplit(s: State, m: Msg, before: seq<Step>, after: seq<Step>, c: Casting, step: Step)
    requires Split(s, m, before, after, c) && IsOwn(step) && !IsEarly(s, c, step)
    ensures Split(s, m, before, after + [step], c.(s := OwnEffect(c.s, step)))
  {
    forall id: nat | |s.channels| <= id ensures Of(after + [step], id) == [] {
      OfPush(after, step, id);
    }
    forall id | 0 <= id < |s.channels|
      ensures |OwnEffect(c.s, step).channels| == |s.channels| && OwnEffect(c.s, step).clients == c.s.clients
      ensures Stands(s, m, id, Of(before, id), Of(after + [step], id), c.(s := OwnEffect(c.s, step)))
    {
      OwnEffectAt(c.s, step, id);
      OfPush(after, step, id);
      LateStands(s, m, id, Of(before, id), Of(after, id), c, step);
    }
  }

  lemma BeginsSplit(s: State, m: Msg)
    requires Valid(s)
    ensures Split(s, m, [], [], Begin(s))
  {
  }

  /** `before` and `after` hold the client steps of `fs`, those of each client in their order. */
  ghost predicate SplitsSteps(fs: seq<Fine>, before: seq<Step>, after: seq<Step>) {
    && (forall step :: step in before + after ==> IsOwn(step))
    && forall id :: Of(before, id) + Of(after, id) == Of(ClientSteps(fs), id)
  }

  lemma ClientStepsPush(fs: seq<Fine>, f: Fine)
    ensures ClientSteps(fs + [f]) == ClientSteps(fs) + (if f.ClientStep? && IsOwn(f.step) then [f.step] else [])
  {
    assert (fs + [f])[..|fs + [f]| - 1] == fs;
  }

  lemma QuietSplits(fs: seq<Fine>, f: Fine, before: seq<Step>, after: seq<Step>)
    requires SplitsSteps(fs, before, after) && !(f.ClientStep? && IsOwn(f.step))
    ensures SplitsSteps(fs + [f], before, after)
  {
    ClientStepsPush(fs, f);
    assert ClientSteps(fs) + [] == ClientSteps(fs);
  }

  lemma EarlySplits(s: State, m: Msg, c: Casting, fs: seq<Fine>, step: Step, before: seq<Step>, after: seq<Step>)
    requires Split(s, m, before, after, c) && SplitsSteps(fs, before, after) && IsOwn(step) && IsEarly(s, c, step)
    ensures SplitsSteps(fs + [ClientStep(step)], before + [step], after)
  {
    ClientStepsPush(fs, ClientStep(step));
    forall id ensures Of(before + [step], id) + Of(after, id) == Of(ClientSteps(fs) + [step], id) {
      OfPush(before, step, id);
      OfPush(ClientSteps(fs), step, id);
      if step.id == id {
        assert Of(after, id) == [];
      }
    }
  }

  lemma LateSplits(fs: seq<Fine>, step: Step, before: seq<Step>, after: seq<Step>)
    requires SplitsSteps(fs, before, after) && IsOwn(step)
    ensures SplitsSteps(fs + [ClientStep(step)], before, after + [step])
  {
    ClientStepsPush(fs, ClientStep(step));
    forall id ensures Of(before, id) + Of(after + [step], id) == Of(ClientSteps(fs) + [step], id) {
      OfPush(after, step, id);
      OfPush(ClientSteps(fs), step, id);
    }
  }

  lemma {:induction false} BroadcastSplits(s: State, m: Msg, fs: seq<Fine>)
    returns (before: seq<Step>, after: seq<Step>)
    requires Valid(s)
    ensures Split(s, m, before, after, GoAll(Begin(s), m, fs)) && SplitsSteps(fs, before, after)
  {
    if fs == [] {
      before, after := [], [];
      BeginsSplit(s, m);
    } else {
      var init, f := fs[..|fs| - 1], fs[|fs| - 1];
      var c := GoAll(Begin(s), m, init);
      assert fs == init + [f];
      before, after := BroadcastSplits(s, m, init);
      if !f.ClientStep? {
        ActorKeepsSplit(s, m, before, after, c, f);
        QuietSplits(init, f, before, after);
      } else if !IsOwn(f.step) {
        QuietSplits(init, f, before, after);
      } else if IsEarly(s, c, f.step) {
        EarlyKeepsSplit(s, m, before, after, c, f.step);
        EarlySplits(s, m, c, init, f.step, before, after);
        before := before + [f.step];
      } else {
        LateKeepsSplit(s, m, before, after, c, f.step);
        LateSplits(init, f.step, before, after);
        after := after + [f.step];
      }
    }
  }

  /** The state a broadcast in one step leads to, with `before` in front of it and `after` behind. */
  function InOneStep(s: State, m: Msg, before: seq<Step>, after: seq<Step>): State {
    OwnAll(SendToAllEffect(OwnAll(s, before), m), after)
  }

  lemma InOneStepAt(s: State, m: Msg, before: seq<Step>, after: seq<Step>, id: nat)
    requires Valid(s) && id < |s.channels|
    ensures var t, ch := InOneStep(s, m, before, after), OwnRun(s.channels[id], Of(before, id));
            && |t.channels| == |s.channels|
            && t.channels[id] ==
               if !Registered(s, id) then OwnRun(ch, Of(after, id))
               else if CanTake(ch) then OwnRun(ch.(queue := ch.queue + [m]), Of(after, id))
               else OwnRun(ch, Of(after, id)).(shutdown := Signalled)
  {
    var b := OwnAll(s, before);
    OwnAllAt(s, before, id);
    OwnRunAddr(s.channels[id], Of(before, id));
    var sent := SendToAllEffect(b, m);
    assert sent.channels[id] == Offer(b, id, m);
    OwnAllAt(sent, after, id);
    OwnRunSignalled(b.channels[id], Of(after, id));
  }

  lemma InOneStepClients(s: State, m: Msg, before: seq<Step>, after: seq<Step>, a: Addr)
    requires Valid(s)
    ensures var t := InOneStep(s, m, before, after);
            && (a in t.clients <==>
                a in s.clients && CanTake(OwnRun(s.channels[s.clients[a]], Of(before, s.clients[a]))))
            && (a in t.clients ==> t.clients[a] == s.clients[a])
  {
    var b := OwnAll(s, before);
    OwnAllClients(s, before);
    OwnAllClients(SendToAllEffect(b, m), after);
    if a in s.clients {
      OwnAllAt(s, before, s.clients[a]);
    }
  }

  lemma {:induction false} OwnAllClients(s: State, steps: seq<Step>)
    ensures OwnAll(s, steps).clients == s.clients && |OwnAll(s, steps).channels| == |s.channels|
  {
    if steps == [] {
    } else {
      OwnAllClients(s, steps[..|steps| - 1]);
    }
  }

  lemma FinishedIsOneStep(s: State, m: Msg, before: seq<Step>, after: seq<Step>, c: Casting)
    requires Valid(s) && Split(s, m, before, after, c) && Finished(c)
    ensures c.s == InOneStep(s, m, before, after)
  {
    var t := InOneStep(s, m, before, after);
    forall id | 0 <= id < |s.channels| ensures |t.channels| == |s.channels| && c.s.channels[id] == t.channels[id] {
      InOneStepAt(s, m, before, after, id);
      assert Stands(s, m, id, Of(before, id), Of(after, id), c);
    }
    OwnAllClients(s, before);
    OwnAllClients(SendToAllEffect(OwnAll(s, before), m), after);
    assert c.s.channels == t.channels;
    forall a ensures a in c.s.clients <==> a in t.clients
      ensures a in c.s.clients ==> c.s.clients[a] == t.clients[a]
    {
      InOneStepClients(s, m, before, after, a);
      if a in s.clients {
        var id := s.clients[a];
        assert Registered(s, id) && Stands(s, m, id, Of(before, id), Of(after, id), c);
      }
    }
    assert c.s.clients == t.clients;
  }

  /**
    However client tasks interleave with a broadcast, it ends where the broadcast in one step ends: a client's own
    steps up to its offer come before it, the others behind it, each client's in their order.
   */
  lemma BroadcastIsOneStep(s: State, m: Msg, fs: seq<Fine>) returns (before: seq<Step>, after: seq<Step>)
    requires Valid(s) && Finished(GoAll(Begin(s), m, fs))
    ensures GoAll(Begin(s), m, fs).s == InOneStep(s, m, before, after)
    ensures SplitsSteps(fs, before, after)
  {
    before, after := BroadcastSplits(s, m, fs);
    FinishedIsOneStep(s, m, before, after, GoAll(Begin(s), m, fs));
  }

  // ----- whole runs -----

  /** A step of the actor or of a client, or a broadcast with all that happens during it. */
  datatype Event = Whole(step: Step) | Broadcast(msg: Msg, fine: seq<Fine>)

  /** Every broadcast came to its end. */
  ghost predicate Allowed(events: seq<Event>)
    decreases |events|, 0
  {
    events != [] ==>
      var init, last := events[..|events| - 1], events[|events| - 1];
      && Allowed(init)
      && (last.Broadcast? ==> Finished(GoAll(Begin(Reached(init)), last.msg, last.fine)))
  }

  ghost function Reached(events: seq<Event>): (s: State)
    requires Allowed(events)
    ensures Valid(s)
    decreases |events|, 1
  {
    if events == [] then State(map[], [])
    else
      var s, last := Reached(events[..|events| - 1]), events[|events| - 1];
      match last
      case Whole(step) =>
        TakeKeepsValid(s, step);
        Take(s, step)
      case Broadcast(m, fs) =>
        BroadcastKeepsValid(s, m, fs);
        GoAll(Begin(s), m, fs).s
  }

  lemma {:induction false} OwnAllKeepsValid(s: State, steps: seq<Step>)
    requires Valid(s)
    ensures Valid(OwnAll(s, steps))
  {
    if steps == [] {
    } else {
      var init, last := steps[..|steps| - 1], steps[|steps| - 1];
      OwnAllKeepsValid(s, init);
      if IsOwn(last) {
        TakeKeepsValid(OwnAll(s, init), last);
      }
    }
  }

  lemma BroadcastKeepsValid(s: State, m: Msg, fs: seq<Fine>)
    requires Valid(s) && Finished(GoAll(Begin(s), m, fs))
    ensures Valid(GoAll(Begin(s), m, fs).s)
  {
    var before, after := BroadcastIsOneStep(s, m, fs);
    OwnAllKeepsValid(s, before);
    SendToAllKeepsValid(OwnAll(s, before), m);
    OwnAllKeepsValid(SendToAllEffect(OwnAll(s, before), m), after);
  }

  /** What the actor does, in order. */
  function ActorSteps(steps: seq<Step>): seq<Step> {
    if steps == [] then []
    else ActorSteps(steps[..|steps| - 1]) + (if IsOwn(steps[|steps| - 1]) then [] else [steps[|steps| - 1]])
  }

  function ActorEvents(events: seq<Event>): seq<Step> {
    if events == [] then []
    else
      var last := events[|events| - 1];
      ActorEvents(events[..|events| - 1]) +
      (match last case Whole(step) => if IsOwn(step) then [] else [step] case Broadcast(m, _) => [SendToAll(m)])
  }

  lemma ActorStepsPush(steps: seq<Step>, step: Step)
    ensures ActorSteps(steps + [step]) == ActorSteps(steps) + (if IsOwn(step) then [] else [step])
  {
    assert (steps + [step])[..|steps + [step]| - 1] == steps;
  }

  lemma AfterPush(steps: seq<Step>, step: Step)
    ensures After(steps + [step]) == Take(After(steps), step)
  {
    assert (steps + [step])[..|steps + [step]| - 1] == steps;
  }

  /** `steps` lead to `s` with the actor steps `actor`. */
  ghost predicate LeadsTo(steps: seq<Step>, s: State, actor: seq<Step>) {
    After(steps) == s && ActorSteps(steps) == actor
  }

  lemma OwnLeadsOn(steps: seq<Step>, s: State, actor: seq<Step>, step: Step)
    requires LeadsTo(steps, s, actor) && IsOwn(step)
    ensures LeadsTo(steps + [step], OwnEffect(s, step), actor)
  {
    AfterPush(steps, step);
    ActorStepsPush(steps, step);
    assert actor + [] == actor;
  }

  lemma ActorLeadsOn(steps: seq<Step>, s: State, actor: seq<Step>, step: Step)
    requires LeadsTo(steps, s, actor) && Valid(s) && !IsOwn(step)
    ensures LeadsTo(steps + [step], Take(s, step), actor + [step])
  {
    AfterPush(steps, step);
    ActorStepsPush(steps, step);
  }

  lemma {:induction false} OwnAllLeadsOn(steps: seq<Step>, s: State, actor: seq<Step>, own: seq<Step>)
    requires LeadsTo(steps, s, actor) && forall step :: step in own ==> IsOwn(step)
    ensures LeadsTo(steps + own, OwnAll(s, own), actor)
  {
    if own == [] {
      assert steps + own == steps;
    } else {
      var init, last := own[..|own| - 1], own[|own| - 1];
      assert last in own && forall step :: step in init ==> step in own;
      OwnAllLeadsOn(steps, s, actor, init);
      OwnLeadsOn(steps + init, OwnAll(s, init), actor, last);
      assert steps + own == (steps + init) + [last];
    }
  }

  /**
    Every run with interleaved broadcasts ends where some run of whole steps ends that has the same actor steps in
    the same order, so what holds after every such run holds here.
   */
  lemma {:induction false} EventsAreSteps(events: seq<Event>) returns (steps: seq<Step>)
    requires Allowed(events)
    ensures LeadsTo(steps, Reached(events), ActorEvents(events))
  {
    if events == [] {
      steps := [];
    } else {
      var init, last := events[..|events| - 1], events[|events| - 1];
      var first := EventsAreSteps(init);
      var s, actor := Reached(init), ActorEvents(init);
      match last
      case Whole(step) =>
        steps := first + [step];
        if IsOwn(step) {
          OwnLeadsOn(first, s, actor, step);
          assert actor + [] == actor;
        } else {
          ActorLeadsOn(first, s, actor, step);
        }
      case Broadcast(m, fs) =>
        var before, after := BroadcastIsOneStep(s, m, fs);
        steps := OneStepLeadsOn(first, s, actor, m, before, after);
    }
  }

  lemma OneStepLeadsOn(steps: seq<Step>, s: State, actor: seq<Step>, m: Msg, before: seq<Step>, after: seq<Step>)
    returns (more: seq<Step>)
    requires LeadsTo(steps, s, actor) && Valid(s) && forall step :: step in before + after ==> IsOwn(step)
    ensures LeadsTo(more, InOneStep(s, m, before, after), actor + [SendToAll(m)])
  {
    OwnAllLeadsOn(steps, s, actor, before);
    OwnAllKeepsValid(s, before);
    ActorLeadsOn(steps + before, OwnAll(s, before), actor, SendToAll(m));
    var sent := steps + before + [SendToAll(m)];
    OwnAllLeadsOn(sent, SendToAllEffect(OwnAll(s, before), m), actor + [SendToAll(m)], after);
    more := sent + after;
  }

  lemma {:induction false} ActorStepsConcat(a: seq<Step>, b: seq<Step>)
    ensures ActorSteps(a + b) == ActorSteps(a) + ActorSteps(b)
  {
    if b == [] {
      assert a + b == a;
    } else {
      var init, last := b[..|b| - 1], b[|b| - 1];
      ActorStepsConcat(a, init);
      assert a + b == (a + init) + [last];
      ActorStepsPush(a + init, last);
    }
  }

  lemma {:induction false} AddressedByActor(steps: seq<Step>, addr: Addr)
    ensures AllAddressed(steps, addr) == AllAddressed(ActorSteps(steps), addr)
  {
    if steps == [] {
    } else {
      var init, last := steps[..|steps| - 1], steps[|steps| - 1];
      AddressedByActor(init, addr);
      if IsOwn(last) {
        assert AllAddressed(init, addr) + [] == AllAddressed(init, addr);
        assert ActorSteps(init) + [] == ActorSteps(init);
      } else {
        AddressedPush(ActorSteps(init), last, addr);
      }
    }
  }

  lemma ActorInStep(steps: seq<Step>, at: nat, ch: Channel, registered: bool) returns (born: nat)
    requires InStep(steps, at, ch, registered)
    ensures InStep(ActorSteps(steps), born, ch, registered)
  {
    var front, back := steps[..at], steps[at + 1..];
    assert steps == (front + [steps[at]]) + back;
    ActorStepsPush(front, steps[at]);
    ActorStepsConcat(front + [steps[at]], back);
    born := |ActorSteps(front)|;
    assert ActorSteps(steps) == ActorSteps(front) + [steps[at]] + ActorSteps(back);
    assert ActorSteps(steps)[born + 1..] == ActorSteps(back);
    AddressedByActor(back, ch.addr);
  }

  /** Delivery in order and without gaps, with receives and hang-ups in the middle of broadcasts. */
  lemma InOrderThroughBroadcasts(events: seq<Event>, id: nat) returns (born: nat)
    requires Allowed(events) && id < |Reached(events).channels|
    ensures InStep(ActorEvents(events), born, Reached(events).channels[id], Registered(Reached(events), id))
  {
    var steps := EventsAreSteps(events);
    InOrderWithoutGaps(steps, id);
    born := ActorInStep(steps, Births(steps)[id], Reached(events).channels[id], Registered(Reached(events), id));
  }
}
