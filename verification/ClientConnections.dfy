/**
  The stratum client actor. The actor thread adds clients and sends; the other end of each bounded channel is
  read, or dropped, by the client's own task. Every interleaving of these steps is considered.
 */
module ClientConnections {
  import opened Primitives

  const MSG_CHANNEL_SIZE: nat := 10

  type Addr = nat
  type Msg = string

  /** What has become of the shutdown sender of a connection. */
  datatype Shutdown = Held | Signalled | Dropped

  /** Both ends of one connection's channels. */
  datatype Channel = Channel(addr: Addr, queue: seq<Msg>, received: seq<Msg>, receiverGone: bool, shutdown: Shutdown)

  /** `try_send` succeeds. */
  predicate CanTake(ch: Channel) {
    !ch.receiverGone && |ch.queue| < MSG_CHANNEL_SIZE
  }

  /** Registered clients by address, and every connection ever made, numbered in order. */
  datatype State = State(clients: map<Addr, nat>, channels: seq<Channel>)

  predicate Registered(s: State, id: nat) {
    id < |s.channels| && s.channels[id].addr in s.clients && s.clients[s.channels[id].addr] == id
  }

  ghost predicate Valid(s: State) {
    && (forall a :: a in s.clients ==> s.clients[a] < |s.channels| && s.channels[s.clients[a]].addr == a)
    && (forall id :: 0 <= id < |s.channels| ==> |s.channels[id].queue| <= MSG_CHANNEL_SIZE)
    && (forall id :: 0 <= id < |s.channels| ==> (s.channels[id].shutdown == Held <==> Registered(s, id)))
  }

  // ----- the effect of each step -----

  /** Adding an address that is still registered replaces its client and drops the old senders. */
  function AddEffect(s: State, addr: Addr): State
    requires addr in s.clients ==> s.clients[addr] < |s.channels|
  {
    var kept := if addr in s.clients
        then s.channels[s.clients[addr] := s.channels[s.clients[addr]].(shutdown := Dropped)] else s.channels;
    State(s.clients[addr := |s.channels|], kept + [Channel(addr, [], [], false, Held)])
  }

  function RemoveEffect(s: State, addr: Addr): State
    requires addr in s.clients ==> s.clients[addr] < |s.channels|
  {
    if addr in s.clients then
      State(s.clients - {addr}, s.channels[s.clients[addr] := s.channels[s.clients[addr]].(shutdown := Signalled)])
    else s
  }

  /** A registered client takes the message or is removed and signalled. */
  function Offer(s: State, id: nat, m: Msg): Channel
    requires id < |s.channels|
  {
    var ch := s.channels[id];
    if !Registered(s, id) then ch
    else if CanTake(ch) then ch.(queue := ch.queue + [m])
    else ch.(shutdown := Signalled)
  }

  function SendToAllEffect(s: State, m: Msg): State {
    State(map a | a in s.clients && s.clients[a] < |s.channels| && CanTake(s.channels[s.clients[a]]) :: s.clients[a],
          seq(|s.channels|, id requires 0 <= id < |s.channels| => Offer(s, id, m)))
  }

  function SendToClientEffect(s: State, addr: Addr, m: Msg): State
    requires addr in s.clients ==> s.clients[addr] < |s.channels|
  {
    if addr in s.clients && CanTake(s.channels[s.clients[addr]]) then
      var id := s.clients[addr];
      s.(channels := s.channels[id := s.channels[id].(queue := s.channels[id].queue + [m])])
    else RemoveEffect(s, addr)
  }

  /** The client's task takes the oldest queued message. */
  function ReceiveEffect(s: State, id: nat): State {
    if id < |s.channels| && !s.channels[id].receiverGone && s.channels[id].queue != [] then
      var ch := s.channels[id];
      s.(channels := s.channels[id := ch.(queue := ch.queue[1..], received := ch.received + [ch.queue[0]])])
    else s
  }

  /** The client's task ends and drops its receiver. */
  function DropReceiverEffect(s: State, id: nat): State {
    if id < |s.channels| then s.(channels := s.channels[id := s.channels[id].(receiverGone := true)]) else s
  }

  // ----- the actor -----

  class ClientConnections {
    var clients: map<Addr, nat>
    var channels: seq<Channel>

    constructor ()
      ensures Abstract() == State(map[], []) && Valid(Abstract())
    {
      clients := map[];
      channels := [];
    }

    function Abstract(): State
      reads this
    {
      State(clients, channels)
    }

    /** `add`; returns the number of the new connection. */
    method Add(addr: Addr) returns (id: nat)
      requires Valid(Abstract())
      modifies this
      ensures Abstract() == AddEffect(old(Abstract()), addr) && id == |old(channels)|
    {
      id := |channels|;
      if addr in clients {
        var was := clients[addr];
        channels := channels[was := channels[was].(shutdown := Dropped)];
      }
      channels := channels + [Channel(addr, [], [], false, Held)];
      clients := clients[addr := id];
    }

    /** `remove`. */
    method Remove(addr: Addr) returns (found: bool)
      requires addr in clients ==> clients[addr] < |channels|
      modifies this
      ensures Abstract() == RemoveEffect(old(Abstract()), addr) && found == (addr in old(clients))
    {
      if addr in clients {
        var id := clients[addr];
        clients := clients - {addr};
        channels := channels[id := channels[id].(shutdown := Signalled)];
        return true;
      }
      return false;
    }

    /** `send_to_client`. */
    method SendToClient(addr: Addr, m: Msg) returns (sent: bool)
      requires Valid(Abstract())
      modifies this
      ensures Abstract() == SendToClientEffect(old(Abstract()), addr, m)
      ensures sent == (addr in old(clients) && CanTake(old(channels)[old(clients)[addr]]))
    {
      if addr in clients {
        var id := clients[addr];
        if CanTake(channels[id]) {
          channels := channels[id := channels[id].(queue := channels[id].queue + [m])];
          return true;
        }
        var _ := Remove(addr);
      }
      return false;
    }

    /** `send_to_all`: offer to every client in arbitrary order, collect the failures, then remove them. */
    method SendToAll(m: Msg)
      requires Valid(Abstract())
      modifies this
      ensures Abstract() == SendToAllEffect(old(Abstract()), m)
    {
      ghost var s := Abstract();
      var failed := OfferAll(m);
      var i := 0;
      while i < |failed|
        invariant 0 <= i <= |failed|
        invariant Removed(s, m, failed[..i], Abstract())
      {
        assert failed[i] in failed;
        RemovedStep(s, m, failed, i, Abstract());
        var _ := Remove(failed[i]);
        i := i + 1;
      }
      assert failed[..|failed|] == failed;
      RemovedAll(s, m, failed, Abstract());
    }

    /** The first loop of `send_to_all`. */
    method OfferAll(m: Msg) returns (failed: seq<Addr>)
      requires Valid(Abstract())
      modifies this`channels
      ensures Failures(old(Abstract()), failed)
      ensures Removed(old(Abstract()), m, [], Abstract())
    {
      ghost var s := Abstract();
      failed := [];
      var todo := clients.Keys;
      while todo != {}
        invariant todo <= clients.Keys && |channels| == |s.channels|
        invariant NoDup(failed) && forall a :: a in failed <==>
                   a in clients && a !in todo && !CanTake(s.channels[clients[a]])
        invariant forall id :: 0 <= id < |channels| ==> channels[id] == Pushed(s, todo, id, m)
        decreases |todo|
      {
        var a :| a in todo;
        var id := clients[a];
        if CanTake(channels[id]) {
          channels := channels[id := channels[id].(queue := channels[id].queue + [m])];
        } else {
          NoDupPush(failed, a);
          failed := failed + [a];
        }
        todo := todo - {a};
      }
    }
  }

  /** The clients that cannot take a message, each once. */
  ghost predicate Failures(s: State, failed: seq<Addr>)
    requires Valid(s)
  {
    NoDup(failed) && forall a :: a in failed <==> a in s.clients && !CanTake(s.channels[s.clients[a]])
  }

  /** A channel while the clients in `todo` still have to be offered the message. */
  ghost function Pushed(s: State, todo: set<Addr>, id: nat, m: Msg): Channel
    requires id < |s.channels|
  {
    var ch := s.channels[id];
    if Registered(s, id) && ch.addr !in todo && CanTake(ch) then ch.(queue := ch.queue + [m]) else ch
  }

  /** The state of `send_to_all` once the clients in `gone` were removed. */
  ghost predicate Removed(s: State, m: Msg, gone: seq<Addr>, t: State) {
    && |t.channels| == |s.channels|
    && t.clients == s.clients - Elements(gone)
    && forall id :: 0 <= id < |s.channels| ==>
         t.channels[id] == if Registered(s, id) && s.channels[id].addr in gone
             then s.channels[id].(shutdown := Signalled) else Pushed(s, {}, id, m)
  }

  lemma RemovedStep(s: State, m: Msg, failed: seq<Addr>, i: nat, t: State)
    requires Valid(s) && Failures(s, failed) && i < |failed| && Removed(s, m, failed[..i], t)
    ensures failed[i] in t.clients && t.clients[failed[i]] < |t.channels|
    ensures Removed(s, m, failed[..i + 1], RemoveEffect(t, failed[i]))
  {
    var a := failed[i];
    assert failed[..i + 1] == failed[..i] + [a];
    assert a in failed && a !in failed[..i];
    assert Elements(failed[..i + 1]) == Elements(failed[..i]) + {a};
  }

  lemma RemovedAll(s: State, m: Msg, failed: seq<Addr>, t: State)
    requires Valid(s) && Failures(s, failed) && Removed(s, m, failed, t)
    ensures t == SendToAllEffect(s, m)
  {
    var e := SendToAllEffect(s, m);
    assert t.clients == e.clients;
    assert t.channels == e.channels;
  }

  // ----- runs -----

  datatype Step = Add(addr: Addr) | SendToAll(msg: Msg) | SendToClient(addr: Addr, msg: Msg) | Receive(id: nat)
      | DropReceiver(id: nat)

  function Take(s: State, step: Step): State
    requires forall a :: a in s.clients ==> s.clients[a] < |s.channels|
  {
    match step
    case Add(addr) => AddEffect(s, addr)
    case SendToAll(m) => SendToAllEffect(s, m)
    case SendToClient(addr, m) => SendToClientEffect(s, addr, m)
    case Receive(id) => ReceiveEffect(s, id)
    case DropReceiver(id) => DropReceiverEffect(s, id)
  }

  lemma TakeKeepsValid(s: State, step: Step)
    requires Valid(s)
    ensures Valid(Take(s, step))
  {
    var t := Take(s, step);
    match step
    case Add(addr) => AddKeepsValid(s, addr);
    case SendToAll(m) => SendToAllKeepsValid(s, m);
    case SendToClient(addr, m) =>
    case Receive(id) =>
    case DropReceiver(id) =>
  }

  lemma AddKeepsValid(s: State, addr: Addr)
    requires Valid(s)
    ensures Valid(AddEffect(s, addr))
  {
    var t := AddEffect(s, addr);
    forall id | 0 <= id < |t.channels| ensures t.channels[id].shutdown == Held <==> Registered(t, id) {
      if id < |s.channels| {
        assert t.channels[id].addr == s.channels[id].addr;
      }
    }
  }

  lemma SendToAllKeepsValid(s: State, m: Msg)
    requires Valid(s)
    ensures Valid(SendToAllEffect(s, m))
  {
    var t := SendToAllEffect(s, m);
    forall id | 0 <= id < |t.channels|
      ensures t.channels[id].shutdown == Held <==> Registered(t, id)
      ensures |t.channels[id].queue| <= MSG_CHANNEL_SIZE
    {
      assert t.channels[id] == Offer(s, id, m);
      assert t.channels[id].addr == s.channels[id].addr;
    }
    forall a | a in t.clients ensures t.clients[a] < |t.channels| && t.channels[t.clients[a]].addr == a {
      assert t.channels[t.clients[a]] == Offer(s, t.clients[a], m);
    }
  }

  ghost function After(steps: seq<Step>): (s: State)
    ensures Valid(s)
  {
    if steps == [] then State(map[], [])
    else
      var before := After(steps[..|steps| - 1]);
      TakeKeepsValid(before, steps[|steps| - 1]);
      Take(before, steps[|steps| - 1])
  }

  /** The positions of the add steps: connection `id` was made by step `Births(steps)[id]`. */
  function Births(steps: seq<Step>): (r: seq<nat>)
    ensures forall i :: 0 <= i < |r| ==> r[i] < |steps|
  {
    if steps == [] then []
    else Births(steps[..|steps| - 1]) + (if steps[|steps| - 1].Add? then [|steps| - 1] else [])
  }

  /** The message a step addresses to a client at `addr`. */
  function Addressed(step: Step, addr: Addr): seq<Msg> {
    match step
    case SendToAll(m) => [m]
    case SendToClient(a, m) => if a == addr then [m] else []
    case _ => []
  }

  /** All messages addressed to `addr` by a list of steps, in order. */
  function AllAddressed(steps: seq<Step>, addr: Addr): seq<Msg> {
    if steps == [] then [] else AllAddressed(steps[..|steps| - 1], addr) + Addressed(steps[|steps| - 1], addr)
  }

  /** What the client has seen or can still read. */
  function Delivered(ch: Channel): seq<Msg> {
    ch.received + ch.queue
  }

  /** What a connection born at step `born` has, against what was addressed to it since. */
  ghost predicate InStep(steps: seq<Step>, born: nat, ch: Channel, registered: bool) {
    && born < |steps| && steps[born] == Add(ch.addr)
    && Delivered(ch) <= AllAddressed(steps[born + 1..], ch.addr)
    && (registered ==> Delivered(ch) == AllAddressed(steps[born + 1..], ch.addr))
  }

  /** How one step may change what a connection has. */
  ghost predicate Advances(ch: Channel, registered: bool, step: Step, ch': Channel, registered': bool) {
    && ch'.addr == ch.addr
    && (registered' ==> registered && Delivered(ch') == Delivered(ch) + Addressed(step, ch.addr))
    && (!registered' ==> Delivered(ch') == Delivered(ch))
  }

  /**
    One step: what a connection has is extended by what the step addresses to it, or the connection is
    unregistered.
   */
  lemma StepDelivers(s: State, step: Step, id: nat)
    requires Valid(s) && id < |s.channels|
    ensures var t := Take(s, step);
            id < |t.channels| && Advances(s.channels[id], Registered(s, id), step, t.channels[id], Registered(t, id))
  {
    var t, ch := Take(s, step), s.channels[id];
    match step
    case Add(addr) =>
    case SendToAll(m) =>
      assert t.channels[id] == Offer(s, id, m);
      assert Delivered(ch.(queue := ch.queue + [m])) == Delivered(ch) + [m];
    case SendToClient(addr, m) =>
      assert Delivered(ch.(queue := ch.queue + [m])) == Delivered(ch) + [m];
    case Receive(k) =>
      if k == id && ch.queue != [] {
        assert ch.received + [ch.queue[0]] + ch.queue[1..] == ch.received + ch.queue;
      }
    case DropReceiver(k) =>
  }

  lemma NewbornDelivers(s: State, addr: Addr)
    requires Valid(s)
    ensures var t := AddEffect(s, addr);
            |t.channels| == |s.channels| + 1 && t.channels[|s.channels|] == Channel(addr, [], [], false, Held)
  {
  }

  lemma BirthsPush(steps: seq<Step>, step: Step)
    ensures Births(steps + [step]) == Births(steps) + (if step.Add? then [|steps|] else [])
  {
    assert (steps + [step])[..|steps + [step]| - 1] == steps;
  }

  lemma AddressedPush(steps: seq<Step>, step: Step, addr: Addr)
    ensures AllAddressed(steps + [step], addr) == AllAddressed(steps, addr) + Addressed(step, addr)
  {
    assert (steps + [step])[..|steps + [step]| - 1] == steps;
  }

  lemma TakeCounts(s: State, step: Step)
    requires Valid(s)
    ensures |Take(s, step).channels| == |s.channels| + (if step.Add? then 1 else 0)
  {
  }

  lemma {:induction false} BirthsCount(steps: seq<Step>)
    ensures |Births(steps)| == |After(steps).channels|
  {
    if steps == [] {
    } else {
      BirthsCount(steps[..|steps| - 1]);
      TakeCounts(After(steps[..|steps| - 1]), steps[|steps| - 1]);
    }
  }

  lemma AdvanceKeepsInStep(steps: seq<Step>, born: nat, ch: Channel, registered: bool, step: Step, ch': Channel,
                           registered': bool)
    requires InStep(steps, born, ch, registered) && Advances(ch, registered, step, ch', registered')
    ensures InStep(steps + [step], born, ch', registered')
  {
    assert (steps + [step])[born + 1..] == steps[born + 1..] + [step];
    AddressedPush(steps[born + 1..], step, ch.addr);
  }

  lemma NewbornInStep(steps: seq<Step>, s: State, addr: Addr)
    requires Valid(s)
    ensures |AddEffect(s, addr).channels| == |s.channels| + 1
    ensures InStep(steps + [Add(addr)], |steps|, AddEffect(s, addr).channels[|s.channels|], true)
  {
    NewbornDelivers(s, addr);
    assert (steps + [Add(addr)])[|steps| + 1..] == [];
  }

  /**
    After any interleaving, what a connection received and still has queued is, in order and without gaps, a
    prefix of everything addressed to it since it was added, and all of it while it is registered.
   */
  lemma {:induction false} InOrderWithoutGaps(steps: seq<Step>, id: nat)
    requires id < |After(steps).channels|
    ensures |Births(steps)| == |After(steps).channels|
    ensures InStep(steps, Births(steps)[id], After(steps).channels[id], Registered(After(steps), id))
  {
    var init, step := steps[..|steps| - 1], steps[|steps| - 1];
    assert steps == init + [step];
    BirthsCount(init);
    BirthsCount(steps);
    BirthsPush(init, step);
    var s, t := After(init), After(steps);
    if id < |s.channels| {
      InOrderWithoutGaps(init, id);
      StepDelivers(s, step, id);
      AdvanceKeepsInStep(init, Births(init)[id], s.channels[id], Registered(s, id), step, t.channels[id],
          Registered(t, id));
    } else {
      TakeCounts(s, step);
      NewbornInStep(init, s, step.addr);
    }
  }

  /**
    Queues are bounded, and a connection that lost its registration was signalled or its sender was dropped by a
    newer add.
   */
  lemma UnregisteredIsToldSo(steps: seq<Step>, id: nat)
    requires id < |After(steps).channels|
    ensures |Births(steps)| == |After(steps).channels|
    ensures |After(steps).channels[id].queue| <= 10
    ensures Registered(After(steps), id) <==> After(steps).channels[id].shutdown == Held
    ensures var ch := After(steps).channels[id];
            Delivered(ch) != AllAddressed(steps[Births(steps)[id] + 1..], ch.addr) ==> ch.shutdown != Held
  {
    InOrderWithoutGaps(steps, id);
  }

  /**
    How a registration ends: by an add at the same address, which drops the sender, or by a message the client cannot
    take, which signals it. Nothing happens to the shutdown channel of a connection that is no longer registered.
   */
  lemma RegistrationEnds(s: State, step: Step, id: nat)
    requires Valid(s) && id < |s.channels|
    ensures var ch, t := s.channels[id], Take(s, step);
            && id < |t.channels|
            && t.channels[id].shutdown ==
               if !Registered(s, id) then ch.shutdown
               else if step == Add(ch.addr) then Dropped
               else if Addressed(step, ch.addr) != [] && (ch.receiverGone || |ch.queue| >= 10) then Signalled
               else Held
  {
    if step.SendToAll? {
      assert Take(s, step).channels[id] == Offer(s, id, step.msg);
    }
  }

  /** A client that cannot take a message addressed to it is removed and signalled by that very step. */
  lemma MissedMeansSignalled(s: State, step: Step, id: nat)
    requires Valid(s) && Registered(s, id) && Addressed(step, s.channels[id].addr) != []
    ensures var t := Take(s, step);
            if !s.channels[id].receiverGone && |s.channels[id].queue| < 10
            then Registered(t, id)
                 && Delivered(t.channels[id]) == Delivered(s.channels[id]) + Addressed(step, s.channels[id].addr)
            else !Registered(t, id) && t.channels[id].shutdown == Signalled
                 && Delivered(t.channels[id]) == Delivered(s.channels[id])
  {
    StepDelivers(s, step, id);
    if step.SendToAll? {
      assert Take(s, step).channels[id] == Offer(s, id, step.msg);
    }
  }
}
