/** What every run of the delivery system guarantees. Each lemma speaks of all runs, that is of
    all interleavings of all steps. */
module DeliveryGuarantees {
  import opened HubCore
  import opened Delivery
  import opened Wrappers

  ghost predicate Present(steps: seq<Step>, m: NodeId) {
    Run(steps).To? && m in Run(steps).state.nodes
  }

  ghost predicate Known(steps: seq<Step>, m: NodeId, c: ClientId) {
    Present(steps, m) && c in Run(steps).state.nodes[m].history
  }

  ghost function Log(steps: seq<Step>): seq<Event>
    requires Run(steps).To?
  {
    Run(steps).state.log
  }

  ghost function NodeAfter(steps: seq<Step>, m: NodeId): Node
    requires Present(steps, m)
  {
    Run(steps).state.nodes[m]
  }

  ghost function HistoryAfter(steps: seq<Step>, m: NodeId, c: ClientId): History
    requires Known(steps, m, c)
  {
    NodeAfter(steps, m).history[c]
  }

  ghost function StateAfter(steps: seq<Step>, m: NodeId, c: ClientId): ClientState
    requires Known(steps, m, c)
  {
    NodeAfter(steps, m).hub.State(c)
  }

  /** What the client has got: written out by its write loop, then still in its channel. */
  ghost function Mail(steps: seq<Step>, m: NodeId, c: ClientId): seq<Payload>
    requires Known(steps, m, c)
  {
    HistoryAfter(steps, m, c).consumed + StateAfter(steps, m, c).send
  }

  lemma Facts(steps: seq<Step>, m: NodeId, c: ClientId)
    requires Known(steps, m, c)
    ensures ClientLife(NodeAfter(steps, m), c) && ClientMail(NodeAfter(steps, m), c)
    ensures NodeOk(Log(steps), NodeAfter(steps, m))
  {
    hide HubOk, LogOk, ClientLife, ClientMail;
    RunKeepsSystemOk(steps);
  }

  /** Channel safety: no run sends on or closes a closed channel, even when an unregister
      overtakes its register; and a closed client is in no room set and in no register queue. */
  lemma NoRunTouchesClosedChannel(steps: seq<Step>)
    ensures Run(steps).To?
    ensures forall m, c | Known(steps, m, c) && StateAfter(steps, m, c).closed ::
      c !in NodeAfter(steps, m).hub.register && forall r :: c !in NodeAfter(steps, m).hub.Subscribers(r)
  {
    RunKeepsSystemOk(steps);
    forall m, c | Known(steps, m, c) && StateAfter(steps, m, c).closed
      ensures c !in NodeAfter(steps, m).hub.register && forall r :: c !in NodeAfter(steps, m).hub.Subscribers(r)
    {
      assert NodeOk(Log(steps), NodeAfter(steps, m));
    }
  }

  /** Conservation: what a replica broadcast, has queued, holds in hand and has still to read is,
      in this order, exactly the log from where it subscribed. */
  lemma LogIsConserved(steps: seq<Step>, m: NodeId)
    requires Present(steps, m)
    ensures var n, log := NodeAfter(steps, m), Log(steps);
      && n.start <= |log|
      && n.handled + n.hub.broadcast + n.InHand() + n.inbox <= log[n.start..]
      && (n.subscribed ==> n.handled + n.hub.broadcast + n.InHand() + n.inbox == log[n.start..])
  {
    RunKeepsSystemOk(steps);
    var n, log := NodeAfter(steps, m), Log(steps);
    assert LogOk(log, n);
    assert log[n.start..n.start + |Pipeline(n)|] == log[n.start..][..|Pipeline(n)|];
  }

  lemma HandledIsLog(log: seq<Event>, n: Node, i: nat)
    requires LogOk(log, n) && n.start <= i < n.start + |n.handled|
    ensures i < |log| && n.handled[i - n.start] == log[i]
  {
    assert Pipeline(n)[i - n.start] == n.handled[i - n.start];
  }

  /** The k-th payload the client got is that of the log position recorded for it: an event of its
      room, broadcast while it was registered. */
  ghost predicate MailEntryOk(steps: seq<Step>, m: NodeId, c: ClientId, k: nat)
    requires Known(steps, m, c)
  {
    var h, s := HistoryAfter(steps, m, c), StateAfter(steps, m, c);
    && k < |h.delivered| && k < |Mail(steps, m, c)| && h.delivered[k] < |Log(steps)|
    && Mail(steps, m, c)[k] == Log(steps)[h.delivered[k]].payload
    && Log(steps)[h.delivered[k]].roomId == s.roomId
    && h.joined.Some? && h.joined.value.at <= h.delivered[k]
    && (Left(h) ==> h.delivered[k] < h.unregistered.value.at)
  }

  /** Each client gets, in log order and at most once, events of its own room that were broadcast
      while it was registered, and nothing else. */
  lemma MailIsInOrder(steps: seq<Step>, m: NodeId, c: ClientId)
    requires Known(steps, m, c)
    ensures var h := HistoryAfter(steps, m, c);
      && Increasing(h.delivered)
      && |Mail(steps, m, c)| == |h.delivered|
      && forall k | 0 <= k < |h.delivered| :: MailEntryOk(steps, m, c, k)
  {
    Facts(steps, m, c);
    forall k | 0 <= k < |HistoryAfter(steps, m, c).delivered| ensures MailEntryOk(steps, m, c, k) {
      MailEntry(steps, m, c, k);
    }
  }

  lemma MailEntry(steps: seq<Step>, m: NodeId, c: ClientId, k: nat)
    requires Known(steps, m, c) && k < |HistoryAfter(steps, m, c).delivered|
    ensures MailEntryOk(steps, m, c, k)
  {
    hide HubOk, ClientsOk, CapacitiesOk, LogOk, ClientLife, Run;
    Facts(steps, m, c);
    var n := NodeAfter(steps, m);
    var i := n.history[c].delivered[k];
    assert i in n.history[c].delivered;
    assert InWindow(n.history[c], n.hub.RoomOf(c), n.start, n.handled, i);
    HandledIsLog(Log(steps), n, i);
  }

  ghost function Window(n: Node, c: ClientId): set<nat>
    requires c in n.history
  {
    set i: nat | n.start <= i < n.Position() && InWindow(n.history[c], n.hub.RoomOf(c), n.start, n.handled, i)
  }

  ghost function Elements(s: seq<nat>): set<nat> { set x | x in s }

  lemma {:induction false} IncreasingCount(s: seq<nat>)
    requires Increasing(s)
    ensures |Elements(s)| == |s|
  {
    if s != [] {
      var f, l := s[..|s| - 1], s[|s| - 1];
      assert s == f + [l];
      IncreasingCount(f);
      assert l !in f;
      assert Elements(s) == Elements(f) + {l};
    }
  }

  /** Every broadcast for the client's room while it was registered was either put into its
      channel or dropped, never both; none is dropped before a whole channel's worth was taken up;
      and the channel never holds more than its capacity. */
  lemma LossIsAccountedFor(steps: seq<Step>, m: NodeId, c: ClientId)
    requires Known(steps, m, c)
    ensures var n, h, s := NodeAfter(steps, m), HistoryAfter(steps, m, c), StateAfter(steps, m, c);
      && |h.delivered| + |h.dropped| == |Window(n, c)|
      && (forall i: nat :: i in Window(n, c) <==> i in h.delivered || i in h.dropped)
      && (forall i | i in h.dropped :: i !in h.delivered)
      && (h.dropped != [] ==> |h.delivered| >= s.cap >= 1 && h.delivered[s.cap - 1] < h.dropped[0])
      && |s.send| <= s.cap
  {
    Facts(steps, m, c);
    LossCounts(NodeAfter(steps, m), c);
  }

  lemma LossCounts(n: Node, c: ClientId)
    requires c in n.history && ClientMail(n, c)
    ensures var h, s := n.history[c], n.hub.State(c);
      && |h.delivered| + |h.dropped| == |Window(n, c)|
      && (forall i: nat :: i in Window(n, c) <==> i in h.delivered || i in h.dropped)
      && (h.dropped != [] ==> |h.delivered| >= s.cap >= 1 && h.delivered[s.cap - 1] < h.dropped[0])
  {
    var h := n.history[c];
    IncreasingCount(h.delivered);
    IncreasingCount(h.dropped);
    assert h.dropped != [] ==> h.dropped[0] in h.dropped;
    assert Elements(h.delivered) * Elements(h.dropped) == {};
    forall i: nat ensures i in Window(n, c) <==> i in h.delivered || i in h.dropped {
      assert i in h.delivered || i in h.dropped <==> InWindow(h, n.hub.RoomOf(c), n.start, n.handled, i);
    }
    assert Window(n, c) == Elements(h.delivered) + Elements(h.dropped);
  }

  /** The only loss is the default branch of the non-blocking send: a step that adds to what a
      client lost found that client's channel full, and adds just the event it broadcast. */
  lemma {:induction false} LossNeedsFullChannel(log: seq<Event>, n: Node, a: Action, c: ClientId)
    requires NodeOk(log, n) && c in n.history && Acted(n, a).To?
    ensures var h, h1 := n.history[c], HistoryOf(Acted(n, a).state, c);
      h1.dropped != h.dropped ==>
        && a == Handle(TakeBroadcast) && |n.hub.State(c).send| == n.hub.State(c).cap
        && h1.dropped == h.dropped + [n.Position()] && h1.delivered == h.delivered
  {
    hide HubOk, LogOk, CapacitiesOk;
    match a
    case Handle(TakeBroadcast) => assert ClientMail(n, c);
    case _ =>
  }

  /** Agreement: two clients of any replicas see the events they both got in the same order, and
      with the same payloads. */
  lemma ReplicasAgree(steps: seq<Step>, m: NodeId, c: ClientId, m': NodeId, c': ClientId, p: nat, q: nat, p': nat,
          q': nat)
    requires Known(steps, m, c) && Known(steps, m', c')
    requires var d, d' := HistoryAfter(steps, m, c).delivered, HistoryAfter(steps, m', c').delivered;
      p < |d| && q < |d| && p' < |d'| && q' < |d'| && d[p] == d'[p'] && d[q] == d'[q']
    ensures p < |Mail(steps, m, c)| && p' < |Mail(steps, m', c')|
    ensures Mail(steps, m, c)[p] == Mail(steps, m', c')[p']
    ensures p < q <==> p' < q'
  {
    MailIsInOrder(steps, m, c);
    MailIsInOrder(steps, m', c');
    MailEntry(steps, m, c, p);
    MailEntry(steps, m', c', p');
  }

  ghost function Between(s: seq<nat>, x: nat, y: nat): seq<nat> {
    if s == [] then [] else Between(s[..|s| - 1], x, y) + (if x <= s[|s| - 1] < y then [s[|s| - 1]] else [])
  }

  lemma {:induction false} BetweenMembers(s: seq<nat>, x: nat, y: nat)
    requires Increasing(s)
    ensures Increasing(Between(s, x, y))
    ensures forall i :: i in Between(s, x, y) <==> i in s && x <= i < y
  {
    if s != [] {
      var f, l := s[..|s| - 1], s[|s| - 1];
      assert s == f + [l];
      BetweenMembers(f, x, y);
      forall i | i in Between(f, x, y) ensures i < l {
        var k :| 0 <= k < |f| && f[k] == i;
        assert s[k] < s[|s| - 1];
      }
      if x <= l < y { IncreasingSnoc(Between(f, x, y), l); }
    }
  }

  lemma HeadIsMember(s: seq<nat>)
    ensures s == [] || s[0] in s
  {
  }

  lemma {:induction false} IncreasingIsUnique(a: seq<nat>, b: seq<nat>)
    requires Increasing(a) && Increasing(b) && forall i :: i in a <==> i in b
    ensures a == b
  {
    HeadIsMember(a);
    HeadIsMember(b);
    if a != [] && b != [] {
      assert a[0] == b[0];
      assert a == [a[0]] + a[1..] && b == [b[0]] + b[1..];
      assert a[0] !in a[1..] && b[0] !in b[1..];
      forall i ensures i in a[1..] <==> i in b[1..] {
        assert i in a[1..] ==> i in b;
        assert i in b[1..] ==> i in a;
      }
      IncreasingIsUnique(a[1..], b[1..]);
    }
  }

  /** A stretch of the log that a replica has broadcast, throughout which the client was
      registered and lost nothing. */
  ghost predicate WellServed(n: Node, c: ClientId, x: nat, y: nat)
    requires c in n.history
  {
    var h := n.history[c];
    && h.joined.Some? && n.start <= x && h.joined.value.at <= x && y <= n.Position()
    && (Left(h) ==> y <= h.unregistered.value.at)
    && (forall i | i in h.dropped :: !(x <= i < y))
  }

  /** Two clients of one room, on whatever replicas, got the very same events from any stretch
      of the log in which both were well served. */
  lemma WellServedClientsGetTheSame(steps: seq<Step>, m: NodeId, c: ClientId, m': NodeId, c': ClientId, x: nat, y: nat)
    requires Known(steps, m, c) && Known(steps, m', c')
    requires StateAfter(steps, m, c).roomId == StateAfter(steps, m', c').roomId
    requires WellServed(NodeAfter(steps, m), c, x, y) && WellServed(NodeAfter(steps, m'), c', x, y)
    ensures Between(HistoryAfter(steps, m, c).delivered, x, y) == Between(HistoryAfter(steps, m', c').delivered, x, y)
    ensures forall i | x <= i < y && i < |Log(steps)| ::
      i in HistoryAfter(steps, m, c).delivered <==> Log(steps)[i].roomId == StateAfter(steps, m, c).roomId
  {
    var d, d' := HistoryAfter(steps, m, c).delivered, HistoryAfter(steps, m', c').delivered;
    WellServedGetsRoom(steps, m, c, x, y);
    WellServedGetsRoom(steps, m', c', x, y);
    BetweenMembers(d, x, y);
    BetweenMembers(d', x, y);
    IncreasingIsUnique(Between(d, x, y), Between(d', x, y));
  }

  lemma WellServedGetsRoom(steps: seq<Step>, m: NodeId, c: ClientId, x: nat, y: nat)
    requires Known(steps, m, c) && WellServed(NodeAfter(steps, m), c, x, y)
    ensures Increasing(HistoryAfter(steps, m, c).delivered)
    ensures y <= |Log(steps)|
    ensures forall i | x <= i < y ::
      i in HistoryAfter(steps, m, c).delivered <==> Log(steps)[i].roomId == StateAfter(steps, m, c).roomId
  {
    hide HubOk, ClientsOk, CapacitiesOk, LogOk, ClientLife, ClientMail, Run;
    Facts(steps, m, c);
    var n, log := NodeAfter(steps, m), Log(steps);
    MailIncreases(n, c);
    HandledIsInLog(log, n);
    forall i | x <= i < y
      ensures i in HistoryAfter(steps, m, c).delivered <==> Log(steps)[i].roomId == StateAfter(steps, m, c).roomId
    {
      WellServedEntry(log, n, c, x, y, i);
    }
  }

  lemma HandledIsInLog(log: seq<Event>, n: Node)
    requires LogOk(log, n)
    ensures n.Position() <= |log|
  {
  }

  lemma MailIncreases(n: Node, c: ClientId)
    requires c in n.history && ClientMail(n, c)
    ensures Increasing(n.history[c].delivered)
  {
  }

  lemma WellServedEntry(log: seq<Event>, n: Node, c: ClientId, x: nat, y: nat, i: nat)
    requires c in n.history && ClientMail(n, c) && LogOk(log, n)
    requires WellServed(n, c, x, y) && x <= i < y
    ensures i < |log| && (i in n.history[c].delivered <==> log[i].roomId == n.hub.State(c).roomId)
  {
    hide LogOk;
    var h, s := n.history[c], n.hub.State(c);
    HandledIsLog(log, n, i);
    assert i in h.delivered || i in h.dropped <==> InWindow(h, s.roomId, n.start, n.handled, i);
  }

  /** Unregistering does not always take a client out. Once the Hub has handled both requests, the
      client is still in its room, its channel open, exactly if the unregister came first. */
  lemma StaysRegisteredIffOvertaken(steps: seq<Step>, m: NodeId, c: ClientId)
    requires Known(steps, m, c)
    requires HistoryAfter(steps, m, c).joined.Some? && HistoryAfter(steps, m, c).unregistered.Some?
    ensures var n, h, s := NodeAfter(steps, m), HistoryAfter(steps, m, c), StateAfter(steps, m, c);
      && (c in n.hub.Subscribers(s.roomId) <==> h.unregistered.value.tick < h.joined.value.tick)
      && (s.closed <==> h.joined.value.tick < h.unregistered.value.tick)
  {
    Facts(steps, m, c);
  }

  /** In every reachable state each stored room set is non-empty and holds clients of its room. */
  lemma RoomSetsAreTight(steps: seq<Step>, m: NodeId)
    requires Present(steps, m)
    ensures var hub := NodeAfter(steps, m).hub;
      forall r | r in hub.rooms :: hub.rooms[r] != {} && forall c | c in hub.rooms[r] ::
        c in hub.clients && hub.RoomOf(c) == r
  {
    RunKeepsSystemOk(steps);
    assert NodeOk(Log(steps), NodeAfter(steps, m));
  }

  lemma RunOneMore(steps: seq<Step>, step: Step)
    requires Run(steps).To? && Stepped(Run(steps).state, step).To?
    ensures Run(steps + [step]) == Stepped(Run(steps).state, step)
  {
    assert (steps + [step])[..|steps|] == steps;
  }

  /** A run in which the unregister overtakes: the client stays in its room. */
  lemma OvertakingHappens() returns (steps: seq<Step>)
    ensures Known(steps, 0, 7)
    ensures HistoryAfter(steps, 0, 7).joined.Some? && HistoryAfter(steps, 0, 7).unregistered.Some?
    ensures 7 in NodeAfter(steps, 0).hub.Subscribers("r")
  {
    steps := [];
    RunOneMore(steps, Boot(0));
    steps := steps + [Boot(0)];
    var n := NewNode(0);
    assert Run(steps).state.nodes[0] == n;
    n := Connected(n, 7, "r", 32);
    steps := OneAction(steps, Connect(7, "r", 32), n);
    n := RegisterSent(n, 7);
    steps := OneAction(steps, Register(7), n);
    n := UnregisterSent(n, 7);
    steps := OneAction(steps, Unregister(7), n);
    n := Handled(n, TakeUnregister);
    steps := OneAction(steps, Handle(TakeUnregister), n);
    n := Handled(n, TakeRegister);
    steps := OneAction(steps, Handle(TakeRegister), n);
  }

  lemma OneAction(steps: seq<Step>, a: Action, n: Node) returns (more: seq<Step>)
    requires Present(steps, 0) && Acted(NodeAfter(steps, 0), a) == To(n)
    ensures Present(more, 0) && NodeAfter(more, 0) == n
  {
    RunOneMore(steps, Act(0, a));
    more := steps + [Act(0, a)];
  }
}
