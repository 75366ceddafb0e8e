/** Events get through: from wherever a run stands, what was published can reach the clients, and it
    takes no further publishing. And what a stop and the end of a subscription put an end to. */
module Progress {
  import opened HubCore
  import opened Delivery
  import opened DeliveryGuarantees
  import opened Wrappers

  ghost predicate NothingPublished(steps: seq<Step>) {
    forall i | 0 <= i < |steps| :: !steps[i].Publish?
  }

  /** The payloads of the events of one room, in order. */
  ghost function PayloadsOf(events: seq<Event>, roomId: string): seq<Payload> {
    if events == [] then []
    else (if events[0].roomId == roomId then [events[0].payload] else []) + PayloadsOf(events[1..], roomId)
  }

  /** What a replica has yet to broadcast, in the order it moves up. */
  ghost function Pending(n: Node): seq<Event> { n.hub.broadcast + n.InHand() + n.inbox }

  /** How many steps it takes to broadcast it all. */
  ghost function Distance(n: Node): nat { 3 * |n.inbox| + 2 * |n.InHand()| + |n.hub.broadcast| }

  /** The step that moves the event at the front of the replica. */
  ghost function Mover(n: Node): Action
    requires Pending(n) != []
  {
    if n.hub.broadcast != [] then Handle(TakeBroadcast) else if n.hand.Some? then Forward else Receive
  }

  ghost predicate Moves(n: Node, n1: Node) {
    && n1.running && n1.subscribed && n1.start == n.start
    && n1.handled + Pending(n1) == n.handled + Pending(n) && Distance(n1) < Distance(n)
  }

  lemma BroadcastMoves(n: Node)
    requires n.running && n.subscribed && n.hub.broadcast != [] && After(n.hub, TakeBroadcast).Next?
    ensures Acted(n, Handle(TakeBroadcast)).To? && Moves(n, Acted(n, Handle(TakeBroadcast)).state)
  {
    var n1 := Acted(n, Handle(TakeBroadcast)).state;
    assert n.hub.broadcast == [n.hub.broadcast[0]] + n.hub.broadcast[1..];
    assert n1.hub.broadcast == n.hub.broadcast[1..] && n1.handled == n.handled + [n.hub.broadcast[0]];
    assert Pending(n) == [n.hub.broadcast[0]] + Pending(n1);
  }

  lemma MovingUpMoves(n: Node)
    requires n.running && n.subscribed && n.hub.broadcast == [] && Pending(n) != []
    ensures Acted(n, Mover(n)).To? && Moves(n, Acted(n, Mover(n)).state)
  {
    if n.hand.None? { assert n.inbox == [n.inbox[0]] + n.inbox[1..]; }
    assert Pending(Acted(n, Mover(n)).state) == Pending(n);
  }

  lemma MoverMoves(n: Node)
    requires HubOk(n.hub) && n.running && n.subscribed && Pending(n) != []
    ensures Acted(n, Mover(n)).To? && Moves(n, Acted(n, Mover(n)).state)
  {
    hide HubOk, Acted, Moves;
    if n.hub.broadcast != [] {
      HandlingKeepsHubOk(n.hub, TakeBroadcast);
      BroadcastMoves(n);
    } else {
      MovingUpMoves(n);
    }
  }

  lemma ActOnce(steps: seq<Step>, m: NodeId, a: Action)
    requires Present(steps, m) && Acted(NodeAfter(steps, m), a).To?
    ensures Present(steps + [Act(m, a)], m)
    ensures NodeAfter(steps + [Act(m, a)], m) == Acted(NodeAfter(steps, m), a).state
    ensures Log(steps + [Act(m, a)]) == Log(steps)
  {
    hide Acted;
    RunOneMore(steps, Act(m, a));
  }

  lemma ReachableHubOk(steps: seq<Step>, m: NodeId)
    requires Present(steps, m)
    ensures HubOk(NodeAfter(steps, m).hub) && ClientsOk(NodeAfter(steps, m)) && LogOk(Log(steps), NodeAfter(steps, m))
  {
    hide HubOk, ClientsOk, LogOk;
    RunKeepsSystemOk(steps);
    assert NodeOk(Log(steps), NodeAfter(steps, m));
  }

  lemma {:induction false} CanDrain(steps: seq<Step>, m: NodeId) returns (more: seq<Step>)
    requires Present(steps, m) && NodeAfter(steps, m).running && NodeAfter(steps, m).subscribed
    ensures NothingPublished(more) && Present(steps + more, m) && Log(steps + more) == Log(steps)
    ensures NodeAfter(steps + more, m).start == NodeAfter(steps, m).start
    ensures NodeAfter(steps + more, m).handled == NodeAfter(steps, m).handled + Pending(NodeAfter(steps, m))
    decreases Distance(NodeAfter(steps, m))
  {
    hide HubOk, ClientsOk, LogOk, Acted, Run, Mover;
    var n := NodeAfter(steps, m);
    if Pending(n) == [] {
      more := [];
      assert steps + more == steps;
    } else {
      ReachableHubOk(steps, m);
      MoverMoves(n);
      ActOnce(steps, m, Mover(n));
      var step := Act(m, Mover(n));
      hide Distance, Pending;
      var rest := CanDrain(steps + [step], m);
      more := [step] + rest;
      assert steps + more == steps + [step] + rest;
    }
  }

  /** A replica that is running and subscribed can always catch up with the log: some continuation in
      which nothing is published broadcasts all that was published since it subscribed. */
  lemma EveryEventCanBeBroadcast(steps: seq<Step>, m: NodeId) returns (more: seq<Step>)
    requires Present(steps, m) && NodeAfter(steps, m).running && NodeAfter(steps, m).subscribed
    ensures NothingPublished(more) && Present(steps + more, m) && Log(steps + more) == Log(steps)
    ensures NodeAfter(steps + more, m).start == NodeAfter(steps, m).start <= |Log(steps)|
    ensures NodeAfter(steps + more, m).handled == Log(steps)[NodeAfter(steps, m).start..]
  {
    hide Run;
    more := CanDrain(steps, m);
    LogIsConserved(steps, m);
    PendingIsRest(steps, m);
  }

  /** What is yet to be broadcast is the log from the replica's position on. */
  lemma PendingIsRest(steps: seq<Step>, m: NodeId)
    requires Present(steps, m) && NodeAfter(steps, m).subscribed
    ensures var n, log := NodeAfter(steps, m), Log(steps);
      && n.Position() <= |log| && Pending(n) == log[n.Position()..]
      && n.start <= |log| && n.handled + Pending(n) == log[n.start..]
  {
    hide Run;
    LogIsConserved(steps, m);
    var n, log := NodeAfter(steps, m), Log(steps);
    assert n.handled + n.hub.broadcast + n.InHand() + n.inbox == n.handled + Pending(n);
    assert log[n.start..][|n.handled|..] == log[n.Position()..];
  }

  // ---------------------------------------------------------------- all the way to a client

  /** What the client has taken out, what is in its channel, and what is on its way to it. */
  ghost function Course(n: Node, c: ClientId): seq<Payload>
    requires c in n.history
  {
    n.history[c].consumed + n.hub.State(c).send + PayloadsOf(Pending(n), n.hub.RoomOf(c))
  }

  ghost predicate Subscribed(n: Node, c: ClientId) {
    c in n.history && c in n.hub.Subscribers(n.hub.RoomOf(c))
  }

  /** The step brings the client's mail further, and nothing on its way is lost. */
  ghost predicate Brings(n: Node, n1: Node, c: ClientId)
    requires c in n.history
  {
    && n1.running && n1.subscribed && n1.start == n.start && Subscribed(n1, c)
    && n1.hub.RoomOf(c) == n.hub.RoomOf(c) && n1.history[c].dropped == n.history[c].dropped
    && n1.handled + Pending(n1) == n.handled + Pending(n) && Course(n1, c) == Course(n, c)
  }

  lemma ConsumeBrings(n: Node, c: ClientId)
    requires n.running && n.subscribed && Subscribed(n, c) && c in n.hub.clients && n.hub.State(c).send != []
    ensures Acted(n, Consume(c)).To? && Brings(n, Acted(n, Consume(c)).state, c)
    ensures Distance(Acted(n, Consume(c)).state) == Distance(n)
    ensures |Acted(n, Consume(c)).state.hub.State(c).send| < |n.hub.State(c).send|
  {
    var s, h, n1 := n.hub.State(c), n.history[c], Acted(n, Consume(c)).state;
    assert n1.history[c].consumed + n1.hub.State(c).send == h.consumed + s.send;
  }

  lemma BroadcastBrings(n: Node, c: ClientId)
    requires HubOk(n.hub) && n.running && n.subscribed && n.hub.broadcast != []
    requires Subscribed(n, c) && c in n.hub.clients
    requires n.hub.State(c).send == [] && n.hub.State(c).cap >= 1
    ensures Acted(n, Handle(TakeBroadcast)).To? && Brings(n, Acted(n, Handle(TakeBroadcast)).state, c)
  {
    HandlingKeepsHubOk(n.hub, TakeBroadcast);
    SubscribersAreOpen(n.hub, n.hub.broadcast[0].roomId);
    hide HubOk, Distance;
    BroadcastMoves(n);
    var ev, s, n1 := n.hub.broadcast[0], n.hub.State(c), Acted(n, Handle(TakeBroadcast)).state;
    assert n1.hub.State(c) == if ev.roomId == s.roomId then s.(send := [ev.payload]) else s;
    assert Pending(n) == [ev] + Pending(n1) by { assert n.hub.broadcast == [ev] + n.hub.broadcast[1..]; }
    assert Pending(n)[1..] == Pending(n1);
  }

  lemma MovingUpBrings(n: Node, c: ClientId)
    requires n.running && n.subscribed && Subscribed(n, c) && n.hub.broadcast == [] && Pending(n) != []
    ensures Acted(n, Mover(n)).To? && Brings(n, Acted(n, Mover(n)).state, c)
  {
    var n1 := Acted(n, Mover(n)).state;
    if n.hand.None? { assert n.inbox == [n.inbox[0]] + n.inbox[1..]; }
    assert Pending(n1) == Pending(n);
  }

  lemma SubscriberIsClient(n: Node, c: ClientId)
    requires ClientsOk(n) && Subscribed(n, c)
    ensures c in n.hub.clients && n.hub.State(c).cap >= 1
  {
    assert ClientMail(n, c);
  }

  /** The write loop takes what is in the channel; when it is empty, the replica moves its next event. */
  ghost function Bringer(n: Node, c: ClientId): Action
    requires Pending(n) != [] || n.hub.State(c).send != []
  {
    if n.hub.State(c).send != [] then Consume(c) else Mover(n)
  }

  lemma BringerBrings(n: Node, c: ClientId)
    requires HubOk(n.hub) && ClientsOk(n) && n.running && n.subscribed && Subscribed(n, c)
    requires Pending(n) != [] || n.hub.State(c).send != []
    ensures Acted(n, Bringer(n, c)).To? && Brings(n, Acted(n, Bringer(n, c)).state, c)
    ensures var n1 := Acted(n, Bringer(n, c)).state;
      Distance(n1) < Distance(n) || (Distance(n1) == Distance(n) && |n1.hub.State(c).send| < |n.hub.State(c).send|)
  {
    SubscriberIsClient(n, c);
    hide HubOk, ClientsOk, Brings, Acted, Distance;
    if n.hub.State(c).send != [] {
      ConsumeBrings(n, c);
    } else {
      MoverMoves(n);
      if n.hub.broadcast != [] { BroadcastBrings(n, c); } else { MovingUpBrings(n, c); }
    }
  }

  lemma {:induction false} CanBeBrought(steps: seq<Step>, m: NodeId, c: ClientId) returns (more: seq<Step>)
    requires Present(steps, m) && NodeAfter(steps, m).running && NodeAfter(steps, m).subscribed
    requires Subscribed(NodeAfter(steps, m), c)
    ensures NothingPublished(more) && Known(steps + more, m, c) && Log(steps + more) == Log(steps)
    ensures NodeAfter(steps + more, m).handled == NodeAfter(steps, m).handled + Pending(NodeAfter(steps, m))
    ensures HistoryAfter(steps + more, m, c).consumed == Course(NodeAfter(steps, m), c)
    ensures HistoryAfter(steps + more, m, c).dropped == NodeAfter(steps, m).history[c].dropped
    decreases Distance(NodeAfter(steps, m)), |NodeAfter(steps, m).hub.State(c).send|
  {
    hide HubOk, ClientsOk, LogOk, Acted, Run, Bringer, Distance;
    var n := NodeAfter(steps, m);
    if Pending(n) == [] && n.hub.State(c).send == [] {
      more := [];
      assert steps + more == steps;
    } else {
      ReachableHubOk(steps, m);
      BringerBrings(n, c);
      ActOnce(steps, m, Bringer(n, c));
      var step := Act(m, Bringer(n, c));
      hide Pending, Course;
      var rest := CanBeBrought(steps + [step], m, c);
      more := [step] + rest;
      assert steps + more == steps + [step] + rest;
    }
  }

  /** And so can every client in its room: some continuation in which nothing is published ends with the
      replica caught up, and with the client's write loop having taken out everything that was in its
      channel and then the payload of each event of its room that was still to be broadcast, in order,
      none of them lost. */
  lemma EveryEventCanBeConsumed(steps: seq<Step>, m: NodeId, c: ClientId) returns (more: seq<Step>)
    requires Known(steps, m, c) && NodeAfter(steps, m).running && NodeAfter(steps, m).subscribed
    requires c in NodeAfter(steps, m).hub.Subscribers(StateAfter(steps, m, c).roomId)
    ensures NothingPublished(more) && Known(steps + more, m, c) && Log(steps + more) == Log(steps)
    ensures NodeAfter(steps, m).start <= NodeAfter(steps, m).Position() <= |Log(steps)|
    ensures NodeAfter(steps + more, m).handled == Log(steps)[NodeAfter(steps, m).start..]
    ensures HistoryAfter(steps + more, m, c).consumed ==
      Mail(steps, m, c) + PayloadsOf(Log(steps)[NodeAfter(steps, m).Position()..], StateAfter(steps, m, c).roomId)
    ensures HistoryAfter(steps + more, m, c).dropped == HistoryAfter(steps, m, c).dropped
  {
    hide Run;
    more := CanBeBrought(steps, m, c);
    PendingIsRest(steps, m);
  }

  /** A publish enters the log behind everything before it, and lines up in every replica whose
      subscription stands; nothing else in the replica moves. */
  lemma PublishLinesUp(steps: seq<Step>, ev: Event)
    requires Run(steps).To?
    ensures Run(steps + [Publish(ev)]).To? && Log(steps + [Publish(ev)]) == Log(steps) + [ev]
    ensures forall m | Present(steps, m) ::
      && Present(steps + [Publish(ev)], m)
      && var n, n1 := NodeAfter(steps, m), NodeAfter(steps + [Publish(ev)], m);
      && Pending(n1) == Pending(n) + (if n.subscribed then [ev] else [])
      && n1.handled == n.handled && n1.hub == n.hub && n1.history == n.history
  {
    RunOneMore(steps, Publish(ev));
    forall m | Present(steps, m)
      ensures Pending(NodeAfter(steps + [Publish(ev)], m)) ==
        Pending(NodeAfter(steps, m)) + if NodeAfter(steps, m).subscribed then [ev] else []
    {
      assert NodeAfter(steps + [Publish(ev)], m) == Delivered(NodeAfter(steps, m), ev);
    }
  }

  /** A replica starts running and subscribed at the end of the log, with nothing queued and nobody in. */
  lemma BootIsFresh(steps: seq<Step>, m: NodeId)
    requires Run(steps).To? && m !in Run(steps).state.nodes
    ensures Present(steps + [Boot(m)], m) && Log(steps + [Boot(m)]) == Log(steps)
    ensures var n := NodeAfter(steps + [Boot(m)], m);
      && n.running && n.subscribed && n.start == |Log(steps)| && n.handled == [] && Pending(n) == []
      && n.hub.rooms == map[] && n.hub.register == [] && n.hub.unregister == [] && n.history == map[]
  {
    RunOneMore(steps, Boot(m));
  }

  // ---------------------------------------------------------------- stops

  lemma OneMore(steps: seq<Step>, step: Step)
    ensures Run(steps).To? ==>
      Run(steps + [step]) ==
        if Stepped(Run(steps).state, step).Blocked? then Run(steps) else Stepped(Run(steps).state, step)
  {
    assert (steps + [step])[..|steps|] == steps;
  }

  /** A stopped Hub broadcasts nothing and lets nobody in or out. */
  ghost predicate StandsStill(n: Node, n1: Node) {
    !n1.running && n1.handled == n.handled && n1.hub.rooms == n.hub.rooms && n1.tick == n.tick
  }

  lemma {:induction false} StoppedStandsStill(steps: seq<Step>, more: seq<Step>, m: NodeId)
    requires Present(steps, m) && !NodeAfter(steps, m).running
    ensures Present(steps + more, m) && StandsStill(NodeAfter(steps, m), NodeAfter(steps + more, m))
    decreases |more|
  {
    hide Run;
    if more == [] {
      assert steps + more == steps;
    } else {
      var front, last := more[..|more| - 1], more[|more| - 1];
      assert steps + more == steps + front + [last];
      StoppedStandsStill(steps, front, m);
      NoCrash(steps + front, last);
      OneMore(steps + front, last);
    }
  }

  lemma NoCrash(steps: seq<Step>, step: Step)
    requires Run(steps).To?
    ensures !Stepped(Run(steps).state, step).Crashed?
  {
    hide SystemOk, Stepped;
    RunKeepsSystemOk(steps);
    StepKeepsSystemOk(Run(steps).state, step);
  }

  /** After Stop the Hub takes no further steps, whatever is still queued and whatever else happens. */
  lemma NothingAfterStop(steps: seq<Step>, more: seq<Step>, m: NodeId)
    requires Present(steps, m)
    ensures Present(steps + [Act(m, StopHub)] + more, m)
    ensures StandsStill(NodeAfter(steps, m), NodeAfter(steps + [Act(m, StopHub)] + more, m))
  {
    hide Run;
    ActOnce(steps, m, StopHub);
    StoppedStandsStill(steps + [Act(m, StopHub)], more, m);
  }

  /** What the replica has taken from the log, broadcast or not. */
  ghost function Taken(n: Node): seq<Event> { n.handled + n.hub.broadcast + n.InHand() }

  lemma {:induction false} EndedTakesNothing(steps: seq<Step>, more: seq<Step>, m: NodeId)
    requires Present(steps, m) && !NodeAfter(steps, m).subscribed
    ensures Present(steps + more, m) && !NodeAfter(steps + more, m).subscribed
    ensures Taken(NodeAfter(steps + more, m)) == Taken(NodeAfter(steps, m))
    decreases |more|
  {
    hide Run;
    if more == [] {
      assert steps + more == steps;
    } else {
      hide Taken;
      var front, last := more[..|more| - 1], more[|more| - 1];
      assert steps + more == steps + front + [last];
      EndedTakesNothing(steps, front, m);
      NoCrash(steps + front, last);
      OneMore(steps + front, last);
      if last.Act? && last.node == m && Acted(NodeAfter(steps + front, m), last.action).To? {
        ActingTakesNothing(NodeAfter(steps + front, m), last.action);
      } else {
        SameTaken(NodeAfter(steps + front, m), NodeAfter(steps + more, m));
      }
    }
  }

  lemma SameTaken(n: Node, n1: Node)
    requires n1.handled == n.handled && n1.hub == n.hub && n1.hand == n.hand
    ensures Taken(n1) == Taken(n)
  {
  }

  lemma ActingTakesNothing(n: Node, a: Action)
    requires !n.subscribed && Acted(n, a).To?
    ensures !Acted(n, a).state.subscribed && Taken(Acted(n, a).state) == Taken(n)
  {
    if a == Handle(TakeBroadcast) {
      assert n.hub.broadcast == [n.hub.broadcast[0]] + n.hub.broadcast[1..];
      assert n.handled + n.hub.broadcast == Acted(n, a).state.handled + Acted(n, a).state.hub.broadcast;
    } else if a.Handle? && a.pick.TakeUnregister? {
      assert AfterUnregister(n.hub).Next?;
    }
  }

  /** When Subscribe has returned, with no event in the callback, the replica takes nothing more. */
  lemma NothingAfterEndOfSubscription(steps: seq<Step>, more: seq<Step>, m: NodeId)
    requires Present(steps, m) && NodeAfter(steps, m).subscribed && NodeAfter(steps, m).hand.None?
    ensures Present(steps + [Act(m, EndSubscription)] + more, m)
    ensures Taken(NodeAfter(steps + [Act(m, EndSubscription)] + more, m)) == Taken(NodeAfter(steps, m))
  {
    hide Run;
    ActOnce(steps, m, EndSubscription);
    EndedTakesNothing(steps + [Act(m, EndSubscription)], more, m);
  }

  /** A step waits for nothing but what the source's channel operations wait for: room among 16, 16 and
      256, something to receive, a Hub that runs; and each client is handed over and taken back once. */
  lemma StepsBlockExactly(n: Node, a: Action)
    requires n.history.Keys == n.hub.clients.Keys
    ensures Acted(n, a).Blocked? <==>
      match a
      case Connect(c, roomId, _) => c in n.history || roomId == ""
      case Register(c) => !(c in n.history && n.history[c].phase == Created && |n.hub.register| < 16)
      case Unregister(c) => !(c in n.history && n.history[c].phase == Serving && |n.hub.unregister| < 16)
      case Receive => !(n.subscribed && n.hand == None && |n.inbox| > 0)
      case Forward => !(n.hand.Some? && |n.hub.broadcast| < 256)
      case Handle(TakeRegister) => !(n.running && |n.hub.register| > 0)
      case Handle(TakeUnregister) => !(n.running && |n.hub.unregister| > 0)
      case Handle(TakeBroadcast) => !(n.running && |n.hub.broadcast| > 0)
      case Consume(c) => !(c in n.history && |n.hub.State(c).send| > 0)
      case EndSubscription => !n.subscribed || n.hand.Some?
      case StopHub => false
  {
  }
}
