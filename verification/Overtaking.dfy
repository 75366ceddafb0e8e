/** An unregister that overtakes its register, seen ahead of time: what every continuation of a run
    makes of it. */
module Overtaking {
  import opened HubCore
  import opened Delivery
  import opened DeliveryGuarantees
  import opened Wrappers

  /** What later stamps and earlier stamps of one client have to do with each other; `tick` is the
      Hub's count of iterations at the earlier moment. */
  ghost predicate StampLasts(a: Option<Stamp>, b: Option<Stamp>, tick: nat) {
    if a.Some? then b == a else b.Some? ==> b.value.tick >= tick
  }

  ghost predicate Continues(n: Node, n1: Node, c: ClientId)
    requires c in n.history
  {
    && c in n1.history && n1.tick >= n.tick && n1.hub.RoomOf(c) == n.hub.RoomOf(c)
    && StampLasts(n.history[c].joined, n1.history[c].joined, n.tick)
    && StampLasts(n.history[c].unregistered, n1.history[c].unregistered, n.tick)
  }

  /** No request is handled twice, so a stamp stays. */
  lemma RegisterContinues(n: Node, c: ClientId)
    requires c in n.history && ClientLife(n, c) && n.hub.register != []
    ensures Continues(n, Handled(n, TakeRegister), c)
  {
    hide ClientMail, MailOk, InWindow, RoomsOk;
    assert n.hub.register[0] in n.hub.register;
  }

  lemma UnregisterContinues(n: Node, c: ClientId)
    requires c in n.history && ClientLife(n, c) && n.hub.unregister != [] && After(n.hub, TakeUnregister).Next?
    ensures Continues(n, Handled(n, TakeUnregister), c)
  {
    hide ClientMail, MailOk, InWindow, RoomsOk;
    assert n.hub.unregister[0] in n.hub.unregister;
  }

  lemma BroadcastContinues(n: Node, c: ClientId)
    requires c in n.history && c in n.hub.clients && n.hub.broadcast != [] && After(n.hub, TakeBroadcast).Next?
    ensures Continues(n, Handled(n, TakeBroadcast), c)
  {
    hide ClientMail, MailOk, InWindow, RoomsOk;
  }

  lemma HandlingContinues(n: Node, p: Pick, c: ClientId)
    requires HubOk(n.hub) && ClientsOk(n) && c in n.history && Ready(n.hub, p) && After(n.hub, p).Next?
    ensures Continues(n, Handled(n, p), c)
  {
    assert c in n.hub.clients && ClientLife(n, c);
    hide HubOk, ClientsOk, ClientLife, ClientMail, Continues, Handled;
    match p
    case TakeRegister => RegisterContinues(n, c);
    case TakeUnregister => UnregisterContinues(n, c);
    case TakeBroadcast => BroadcastContinues(n, c);
  }

  lemma ActionContinues(n: Node, a: Action, c: ClientId)
    requires HubOk(n.hub) && ClientsOk(n) && c in n.history && Acted(n, a).To?
    ensures Continues(n, Acted(n, a).state, c)
  {
    hide HubOk, ClientLife, ClientMail, Handled;
    match a
    case Handle(p) => HandlingContinues(n, p, c);
    case _ =>
  }

  lemma StepContinues(s: System, step: Step, m: NodeId, c: ClientId)
    requires SystemOk(s) && Stepped(s, step).To? && m in s.nodes && c in s.nodes[m].history
    ensures m in Stepped(s, step).state.nodes && Continues(s.nodes[m], Stepped(s, step).state.nodes[m], c)
  {
    hide HubOk, ClientsOk, LogOk, CapacitiesOk, Acted;
    assert NodeOk(s.log, s.nodes[m]);
    match step
    case Boot(_) =>
    case Publish(_) =>
    case Act(k, a) => if k == m { ActionContinues(s.nodes[m], a, c); }
  }

  lemma ContinuesIsTransitive(a: Node, b: Node, d: Node, c: ClientId)
    requires c in a.history && Continues(a, b, c) && Continues(b, d, c)
    ensures Continues(a, d, c)
  {
  }

  lemma OneStepContinues(steps: seq<Step>, step: Step, m: NodeId, c: ClientId)
    requires Known(steps, m, c)
    ensures Known(steps + [step], m, c) && Continues(NodeAfter(steps, m), NodeAfter(steps + [step], m), c)
  {
    hide SystemOk, Stepped;
    RunKeepsSystemOk(steps);
    RunKeepsSystemOk(steps + [step]);
    assert (steps + [step])[..|steps|] == steps;
    var s := Run(steps).state;
    if Stepped(s, step).Blocked? {
      assert Run(steps + [step]) == Run(steps);
    } else {
      assert Run(steps + [step]) == Stepped(s, step);
      StepContinues(s, step, m, c);
    }
  }

  /** A longer run carries on where a shorter one stood. */
  lemma {:induction false} RunContinues(steps: seq<Step>, more: seq<Step>, m: NodeId, c: ClientId)
    requires Known(steps, m, c)
    ensures Known(steps + more, m, c) && Continues(NodeAfter(steps, m), NodeAfter(steps + more, m), c)
    decreases |more|
  {
    hide Run;
    if more == [] {
      assert steps + more == steps;
    } else {
      hide Continues;
      var front, last := more[..|more| - 1], more[|more| - 1];
      assert steps + more == steps + front + [last];
      RunContinues(steps, front, m, c);
      OneStepContinues(steps + front, last, m, c);
      ContinuesIsTransitive(NodeAfter(steps, m), NodeAfter(steps + front, m), NodeAfter(steps + more, m), c);
    }
  }

  ghost predicate BothHandled(h: History) { h.joined.Some? && h.unregistered.Some? }

  ghost predicate Overtaken(h: History) { BothHandled(h) && h.unregistered.value.tick < h.joined.value.tick }

  /** A client whose unregister came first is in its room for good: whatever happens from then on, it
      stays among the subscribers and its channel stays open. */
  lemma OvertakenStaysForGood(steps: seq<Step>, more: seq<Step>, m: NodeId, c: ClientId)
    requires Known(steps, m, c) && Overtaken(HistoryAfter(steps, m, c))
    ensures Known(steps + more, m, c)
    ensures c in NodeAfter(steps + more, m).hub.Subscribers(StateAfter(steps, m, c).roomId)
    ensures !StateAfter(steps + more, m, c).closed
  {
    RunContinues(steps, more, m, c);
    StaysRegisteredIffOvertaken(steps + more, m, c);
  }

  /** Once both requests are handled, the channel is closed for sure. */
  ghost predicate SureToClose(steps: seq<Step>, m: NodeId, c: ClientId)
    requires Known(steps, m, c)
  {
    forall more | Known(steps + more, m, c) && BothHandled(HistoryAfter(steps + more, m, c)) ::
      StateAfter(steps + more, m, c).closed
  }

  /** The Hub picks the unregister queue until it has come to this client's request. */
  lemma {:induction false} UnregisterCanBeHandled(steps: seq<Step>, m: NodeId, c: ClientId) returns (more: seq<Step>)
    requires Known(steps, m, c) && NodeAfter(steps, m).running && c in NodeAfter(steps, m).hub.unregister
    ensures Known(steps + more, m, c) && NodeAfter(steps + more, m).running
    ensures HistoryAfter(steps + more, m, c).unregistered.Some?
    ensures NodeAfter(steps + more, m).hub.register == NodeAfter(steps, m).hub.register
    ensures HistoryAfter(steps + more, m, c).joined == HistoryAfter(steps, m, c).joined
    decreases |NodeAfter(steps, m).hub.unregister|
  {
    var n := NodeAfter(steps, m);
    var step := Act(m, Handle(TakeUnregister));
    HandledNext(steps, m, c, TakeUnregister);
    if c == n.hub.unregister[0] {
      more := [step];
    } else {
      OthersStayQueued(n.hub.unregister, c);
      var rest := UnregisterCanBeHandled(steps + [step], m, c);
      more := [step] + rest;
      assert steps + more == steps + [step] + rest;
    }
  }

  lemma {:induction false} RegisterCanBeHandled(steps: seq<Step>, m: NodeId, c: ClientId) returns (more: seq<Step>)
    requires Known(steps, m, c) && NodeAfter(steps, m).running && c in NodeAfter(steps, m).hub.register
    ensures Known(steps + more, m, c) && HistoryAfter(steps + more, m, c).joined.Some?
    decreases |NodeAfter(steps, m).hub.register|
  {
    var n := NodeAfter(steps, m);
    var step := Act(m, Handle(TakeRegister));
    HandledNext(steps, m, c, TakeRegister);
    if c == n.hub.register[0] {
      more := [step];
    } else {
      OthersStayQueued(n.hub.register, c);
      var rest := RegisterCanBeHandled(steps + [step], m, c);
      more := [step] + rest;
      assert steps + more == steps + [step] + rest;
    }
  }

  lemma ActNext(steps: seq<Step>, m: NodeId, c: ClientId, a: Action)
    requires Known(steps, m, c) && Acted(NodeAfter(steps, m), a).To?
    ensures Known(steps + [Act(m, a)], m, c)
    ensures NodeAfter(steps + [Act(m, a)], m) == Acted(NodeAfter(steps, m), a).state
  {
    hide Acted, Continues;
    RunOneMore(steps, Act(m, a));
    RunContinues(steps, [Act(m, a)], m, c);
  }

  /** A running Hub with something in a queue can handle it. */
  lemma HandledNext(steps: seq<Step>, m: NodeId, c: ClientId, p: Pick)
    requires Known(steps, m, c) && NodeAfter(steps, m).running && Ready(NodeAfter(steps, m).hub, p)
    ensures After(NodeAfter(steps, m).hub, p).Next?
    ensures Known(steps + [Act(m, Handle(p))], m, c)
    ensures NodeAfter(steps + [Act(m, Handle(p))], m) == Handled(NodeAfter(steps, m), p)
  {
    hide HubOk, ClientsOk, CapacitiesOk, LogOk, Run, Handled;
    RunKeepsSystemOk(steps);
    assert NodeOk(Log(steps), NodeAfter(steps, m));
    HandlingKeepsHubOk(NodeAfter(steps, m).hub, p);
    ActNext(steps, m, c, Handle(p));
  }

  /** Neither request has been handled. */
  ghost predicate Untouched(steps: seq<Step>, m: NodeId, c: ClientId) {
    && Known(steps, m, c) && NodeAfter(steps, m).running
    && HistoryAfter(steps, m, c).joined.None? && HistoryAfter(steps, m, c).unregistered.None?
  }

  /** A client that is not in a queue is left as it is when the Hub takes from that queue. */
  lemma MakeRoom(steps: seq<Step>, m: NodeId, c: ClientId, p: Pick) returns (more: seq<Step>)
    requires Untouched(steps, m, c)
    requires p == if HistoryAfter(steps, m, c).phase == Created then TakeRegister else TakeUnregister
    requires HistoryAfter(steps, m, c).phase != Leaving
    ensures Untouched(steps + more, m, c)
    ensures HistoryAfter(steps + more, m, c).phase == HistoryAfter(steps, m, c).phase
    ensures var hub := NodeAfter(steps + more, m).hub;
      if p == TakeRegister then |hub.register| < REGISTER_CAP else |hub.unregister| < UNREGISTER_CAP
  {
    hide ClientMail, HubOk, LogOk, Run;
    Facts(steps, m, c);
    var hub := NodeAfter(steps, m).hub;
    if (if p == TakeRegister then |hub.register| < REGISTER_CAP else |hub.unregister| < UNREGISTER_CAP) {
      more := [];
      assert steps + more == steps;
    } else {
      HandledNext(steps, m, c, p);
      more := [Act(m, Handle(p))];
      if p == TakeRegister {
        assert hub.register[0] in hub.register;
      } else {
        assert hub.unregister[0] in hub.unregister;
      }
    }
  }

  /** Whatever its handler has done so far, it can come to wait with its unregister. */
  lemma {:induction false} UnregisterCanBeSent(steps: seq<Step>, m: NodeId, c: ClientId) returns (more: seq<Step>)
    requires Untouched(steps, m, c)
    ensures Untouched(steps + more, m, c) && HistoryAfter(steps + more, m, c).phase == Leaving
    decreases match HistoryAfter(steps, m, c).phase case Created => 2 case Serving => 1 case Leaving => 0
  {
    hide Run;
    var phase := HistoryAfter(steps, m, c).phase;
    if phase == Leaving {
      more := [];
      assert steps + more == steps;
    } else {
      var room := MakeRoom(steps, m, c, if phase == Created then TakeRegister else TakeUnregister);
      var step := Act(m, if phase == Created then Register(c) else Unregister(c));
      ActNext(steps + room, m, c, step.action);
      var rest := UnregisterCanBeSent(steps + room + [step], m, c);
      more := room + [step] + rest;
      assert steps + more == steps + room + [step] + rest;
    }
  }

  /** What the handler can rely on, at any point before the Hub has handled its unregister, in
      particular just before it calls Unregister: the channel is sure to be closed if and only if the
      Hub has already handled the register. Otherwise the two queues race, and some continuation leaves
      the client in its room with an open channel. */
  lemma SureToCloseIffJoined(steps: seq<Step>, m: NodeId, c: ClientId)
    requires Known(steps, m, c) && NodeAfter(steps, m).running && HistoryAfter(steps, m, c).unregistered.None?
    ensures SureToClose(steps, m, c) <==> HistoryAfter(steps, m, c).joined.Some?
  {
    hide ClientMail, NodeOk, Run;
    Facts(steps, m, c);
    if HistoryAfter(steps, m, c).joined.Some? {
      forall more | Known(steps + more, m, c) && BothHandled(HistoryAfter(steps + more, m, c))
        ensures StateAfter(steps + more, m, c).closed
      {
        RunContinues(steps, more, m, c);
        StaysRegisteredIffOvertaken(steps + more, m, c);
      }
    } else {
      RaceCanBeLost(steps, m, c);
    }
  }

  lemma RaceCanBeLost(steps: seq<Step>, m: NodeId, c: ClientId)
    requires Untouched(steps, m, c)
    ensures !SureToClose(steps, m, c)
  {
    hide ClientMail, NodeOk, Run;
    var send := UnregisterCanBeSent(steps, m, c);
    Facts(steps + send, m, c);
    var leave := UnregisterCanBeHandled(steps + send, m, c);
    Facts(steps + send + leave, m, c);
    var join := RegisterCanBeHandled(steps + send + leave, m, c);
    RunContinues(steps + send + leave, join, m, c);
    var more := send + leave + join;
    assert steps + more == steps + send + leave + join;
    StaysRegisteredIffOvertaken(steps + more, m, c);
    assert BothHandled(HistoryAfter(steps + more, m, c));
  }
}
