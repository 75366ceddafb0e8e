/** End-to-end delivery: one published log, any number of replicas that read it in order, and in
    each replica the subscriber, the Hub, the WebSocket handlers and their write loops, stepping
    in any interleaving. Every record of what happened is kept in `History` and `handled`. */
module Delivery {
  import opened HubCore
  import opened Wrappers

  type ClientId = nat
  type NodeId = nat

  /** Where ServeHTTP stands with its client. */
  datatype Phase = Created | Serving | Leaving

  /** When the Hub handled a request: its iteration, and how far the log had been broadcast. */
  datatype Stamp = Stamp(tick: nat, at: nat)

  datatype History = History(
    phase: Phase,
    joined: Option<Stamp>,         // when the Hub handled the register
    unregistered: Option<Stamp>,   // when the Hub handled the unregister
    delivered: seq<nat>,           // log positions put into the send channel
    dropped: seq<nat>,             // log positions lost to a full channel
    consumed: seq<Payload>)        // what the write loop took out

  datatype Node = Node(
    hub: Hub<ClientId>,
    running: bool,                 // the Hub has not been stopped
    tick: nat,                     // iterations of the Hub so far
    subscribed: bool,              // Subscribe has not returned
    start: nat,                    // log position at which the subscription began
    inbox: seq<Event>,             // published, not yet taken by the subscriber
    hand: Option<Event>,           // taken by the subscriber, blocked in LocalBroadcast
    handled: seq<Event>,           // broadcast by the Hub
    history: map<ClientId, History>)
  {
    function Position(): nat { start + |handled| }

    function InHand(): seq<Event> { if hand.Some? then [hand.value] else [] }
  }

  datatype System = System(log: seq<Event>, nodes: map<NodeId, Node>)

  const INIT := System([], map[])

  datatype Action =
    | Connect(c: ClientId, roomId: string, sendBuf: int)
    | Register(c: ClientId)
    | Unregister(c: ClientId)
    | Receive
    | Forward
    | Handle(pick: Pick)
    | Consume(c: ClientId)
    | EndSubscription
    | StopHub

  datatype Step =
    | Boot(node: NodeId)
    | Publish(event: Event)
    | Act(node: NodeId, action: Action)

  datatype Reached<S> = Blocked | Crashed | To(state: S)

  // ---------------------------------------------------------------- steps of one replica

  ghost function NewNode(start: nat): Node {
    Node(Hub([], [], [], map[], map[]), true, 0, true, start, [], None, [], map[])
  }

  /** The record of a broadcast for one subscriber: taken up, or dropped because the channel is full. */
  ghost function Noted(h: History, s: ClientState, at: nat): History {
    if |s.send| < s.cap then h.(delivered := h.delivered + [at]) else h.(dropped := h.dropped + [at])
  }

  ghost function HistoryOf(n: Node, c: ClientId): History {
    if c in n.history then n.history[c] else History(Created, None, None, [], [], [])
  }

  /** What is written down about an iteration of the Hub. */
  ghost function Recorded(n: Node, p: Pick): Node
    requires Ready(n.hub, p)
  {
    var now := Stamp(n.tick, n.Position());
    match p
    case TakeRegister =>
      var c := n.hub.register[0];
      n.(history := n.history[c := HistoryOf(n, c).(joined := Some(now))])
    case TakeUnregister =>
      var c := n.hub.unregister[0];
      n.(history := n.history[c := HistoryOf(n, c).(unregistered := Some(now))])
    case TakeBroadcast =>
      var ev := n.hub.broadcast[0];
      var targets := n.hub.Subscribers(ev.roomId);
      n.(handled := n.handled + [ev],
         history := map c | c in n.history ::
           if c in targets then Noted(n.history[c], n.hub.State(c), n.Position()) else n.history[c])
  }

  ghost function Connected(n: Node, c: ClientId, roomId: string, sendBuf: int): Node {
    n.(hub := n.hub.(clients := n.hub.clients[c := NewClient(roomId, sendBuf)]),
       history := n.history[c := History(Created, None, None, [], [], [])])
  }

  ghost function RegisterSent(n: Node, c: ClientId): Node {
    n.(hub := n.hub.(register := n.hub.register + [c]),
       history := n.history[c := HistoryOf(n, c).(phase := Serving)])
  }

  ghost function UnregisterSent(n: Node, c: ClientId): Node {
    n.(hub := n.hub.(unregister := n.hub.unregister + [c]),
       history := n.history[c := HistoryOf(n, c).(phase := Leaving)])
  }

  ghost function Received(n: Node): Node
    requires n.inbox != []
  {
    n.(hand := Some(n.inbox[0]), inbox := n.inbox[1..])
  }

  ghost function Forwarded(n: Node): Node
    requires n.hand.Some?
  {
    n.(hand := None, hub := n.hub.(broadcast := n.hub.broadcast + [n.hand.value]))
  }

  ghost function Handled(n: Node, p: Pick): Node
    requires Ready(n.hub, p) && After(n.hub, p).Next?
  {
    Recorded(n, p).(hub := After(n.hub, p).hub, tick := n.tick + 1)
  }

  ghost function Consumed(n: Node, c: ClientId): Node
    requires c in n.hub.clients && n.hub.clients[c].send != []
  {
    var s, h := n.hub.clients[c], HistoryOf(n, c);
    n.(hub := n.hub.(clients := n.hub.clients[c := s.(send := s.send[1..])]),
       history := n.history[c := h.(consumed := h.consumed + [s.send[0]])])
  }

  /** One step of a replica, if it is enabled. A blocked sender simply does not step. */
  ghost function Acted(n: Node, a: Action): Reached<Node> {
    match a
    case Connect(c, roomId, sendBuf) =>
      // a request without a room is refused before a client is made
      if c in n.history || roomId == "" then Blocked else To(Connected(n, c, roomId, sendBuf))
    case Register(c) =>
      if c !in n.history || n.history[c].phase != Created || |n.hub.register| >= REGISTER_CAP then Blocked
      else To(RegisterSent(n, c))
    case Unregister(c) =>
      if c !in n.history || n.history[c].phase != Serving || |n.hub.unregister| >= UNREGISTER_CAP then Blocked
      else To(UnregisterSent(n, c))
    case Receive =>
      if !n.subscribed || n.hand.Some? || n.inbox == [] then Blocked else To(Received(n))
    case Forward =>
      if n.hand.None? || |n.hub.broadcast| >= BROADCAST_CAP then Blocked else To(Forwarded(n))
    case Handle(p) =>
      if !n.running || !Ready(n.hub, p) then Blocked
      else if After(n.hub, p).Panic? then Crashed
      else To(Handled(n, p))
    case Consume(c) =>
      if c !in n.hub.clients || n.hub.clients[c].send == [] then Blocked else To(Consumed(n, c))
    case EndSubscription =>
      if !n.subscribed || n.hand.Some? then Blocked else To(n.(subscribed := false))
    case StopHub =>
      To(n.(running := false))
  }

  // ---------------------------------------------------------------- steps of the system

  ghost function Delivered(n: Node, ev: Event): Node {
    if n.subscribed then n.(inbox := n.inbox + [ev]) else n
  }

  ghost function Stepped(s: System, step: Step): Reached<System> {
    match step
    case Boot(m) =>
      if m in s.nodes then Blocked else To(s.(nodes := s.nodes[m := NewNode(|s.log|)]))
    case Publish(ev) =>
      To(System(s.log + [ev], map m | m in s.nodes :: Delivered(s.nodes[m], ev)))
    case Act(m, a) =>
      if m !in s.nodes then Blocked
      else match Acted(s.nodes[m], a)
        case Blocked => Blocked
        case Crashed => Crashed
        case To(n) => To(s.(nodes := s.nodes[m := n]))
  }

  /** A run from the empty system. A step that is not enabled is simply not taken. */
  ghost function Run(steps: seq<Step>): Reached<System> {
    if steps == [] then To(INIT)
    else match Run(steps[..|steps| - 1])
      case Blocked => Blocked
      case Crashed => Crashed
      case To(s) =>
        var r := Stepped(s, steps[|steps| - 1]);
        if r.Blocked? then To(s) else r
  }

  // ---------------------------------------------------------------- the invariant of one client

  /** The Hub closed the client's channel: it handled the unregister after the register. */
  ghost predicate Left(h: History) {
    h.joined.Some? && h.unregistered.Some? && h.joined.value.tick < h.unregistered.value.tick
  }

  ghost predicate Member(h: History) { h.joined.Some? && !Left(h) }

  ghost predicate LifeOk(h: History, closed: bool, queued: bool, leaving: bool, member: bool, tick: nat,
          position: nat)
  {
    && (queued <==> h.phase != Created && h.joined.None?)
    && (leaving <==> h.phase == Leaving && h.unregistered.None?)
    && (h.joined.Some? ==> h.phase != Created)
    && (h.unregistered.Some? ==> h.phase == Leaving)
    && (h.joined.Some? ==> h.joined.value.tick < tick && h.joined.value.at <= position)
    && (h.unregistered.Some? ==> h.unregistered.value.tick < tick && h.unregistered.value.at <= position)
    && (h.joined.Some? && h.unregistered.Some? ==> h.joined.value.tick != h.unregistered.value.tick)
    && (Left(h) ==> h.joined.value.at <= h.unregistered.value.at)
    && (member <==> Member(h))
    && (closed <==> Left(h))
  }

  ghost predicate Increasing(s: seq<nat>) {
    forall i, j | 0 <= i < j < |s| :: s[i] < s[j]
  }

  /** The log positions broadcast to the client's room while it was registered. */
  ghost predicate InWindow(h: History, roomId: string, start: nat, handled: seq<Event>, i: nat) {
    && h.joined.Some? && h.joined.value.at <= i
    && (if Left(h) then i < h.unregistered.value.at else true)
    && start <= i < start + |handled| && handled[i - start].roomId == roomId
  }

  ghost predicate MailOk(h: History, s: ClientState, start: nat, handled: seq<Event>) {
    && Increasing(h.delivered) && Increasing(h.dropped)
    && (forall i | i in h.delivered :: i !in h.dropped)
    && (forall i: nat :: i in h.delivered || i in h.dropped <==> InWindow(h, s.roomId, start, handled, i))
    && |h.consumed + s.send| == |h.delivered|
    && (forall k | 0 <= k < |h.delivered| ::
          start <= h.delivered[k] < start + |handled| &&
          (h.consumed + s.send)[k] == handled[h.delivered[k] - start].payload)
    && 1 <= s.cap && |s.send| <= s.cap
    && (forall i | i in h.dropped :: |h.delivered| >= s.cap && h.delivered[s.cap - 1] < i)
  }

  ghost predicate ClientLife(n: Node, c: ClientId)
    requires c in n.history
  {
    LifeOk(n.history[c], n.hub.State(c).closed, c in n.hub.register, c in n.hub.unregister,
           c in n.hub.Subscribers(n.hub.RoomOf(c)), n.tick, n.Position())
  }

  ghost predicate ClientMail(n: Node, c: ClientId)
    requires c in n.history
  {
    MailOk(n.history[c], n.hub.State(c), n.start, n.handled)
  }

  ghost predicate ClientsOk(n: Node) {
    && n.history.Keys == n.hub.clients.Keys
    && NoDuplicates(n.hub.unregister)
    && (forall c | c in n.history :: ClientLife(n, c))
    && (forall c | c in n.history :: ClientMail(n, c))
  }

  ghost predicate CapacitiesOk(n: Node) {
    |n.hub.register| <= REGISTER_CAP && |n.hub.unregister| <= UNREGISTER_CAP && |n.hub.broadcast| <= BROADCAST_CAP
  }

  /** Everything a replica has taken from the log, in the order it moves through the replica. */
  ghost function Pipeline(n: Node): seq<Event> {
    n.handled + n.hub.broadcast + n.InHand() + n.inbox
  }

  ghost predicate LogOk(log: seq<Event>, n: Node) {
    && n.start + |Pipeline(n)| <= |log|
    && Pipeline(n) == log[n.start..n.start + |Pipeline(n)|]
    && (n.subscribed ==> n.start + |Pipeline(n)| == |log|)
  }

  ghost predicate NodeOk(log: seq<Event>, n: Node) {
    HubOk(n.hub) && ClientsOk(n) && CapacitiesOk(n) && LogOk(log, n)
  }

  ghost predicate SystemOk(s: System) {
    forall m | m in s.nodes :: NodeOk(s.log, s.nodes[m])
  }

  // ---------------------------------------------------------------- every step keeps it

  lemma IncreasingSnoc(s: seq<nat>, x: nat)
    requires Increasing(s) && forall y | y in s :: y < x
    ensures Increasing(s + [x])
  {
    forall i, j | 0 <= i < j < |s| + 1 ensures (s + [x])[i] < (s + [x])[j] {
      assert s[i] in s;
    }
  }

  /** While the client is registered, its window takes in each broadcast to its room. */
  lemma WindowGrows(h: History, roomId: string, start: nat, handled: seq<Event>, ev: Event)
    requires Member(h) && ev.roomId == roomId && h.joined.value.at <= start + |handled|
    ensures forall i: nat :: InWindow(h, roomId, start, handled + [ev], i) <==>
      i == start + |handled| || InWindow(h, roomId, start, handled, i)
  {
  }

  lemma AcceptKeepsMail(h: History, s: ClientState, start: nat, handled: seq<Event>, ev: Event)
    requires MailOk(h, s, start, handled) && Member(h) && ev.roomId == s.roomId && |s.send| < s.cap
    requires h.joined.value.at <= start + |handled|
    ensures MailOk(h.(delivered := h.delivered + [start + |handled|]), s.(send := s.send + [ev.payload]), start,
      handled + [ev])
  {
    var at := start + |handled|;
    var h1, s1 := h.(delivered := h.delivered + [at]), s.(send := s.send + [ev.payload]);
    forall i | i in h.delivered || i in h.dropped ensures i < at { assert InWindow(h, s.roomId, start, handled, i); }
    IncreasingSnoc(h.delivered, at);
    WindowGrows(h, s.roomId, start, handled, ev);
    forall i: nat ensures i in h1.delivered || i in h1.dropped <==> InWindow(h1, s.roomId, start, handled + [ev], i) {
      assert InWindow(h1, s.roomId, start, handled + [ev], i) <==> InWindow(h, s.roomId, start, handled + [ev], i);
    }
    assert h1.consumed + s1.send == (h.consumed + s.send) + [ev.payload];
  }

  lemma DropKeepsMail(h: History, s: ClientState, start: nat, handled: seq<Event>, ev: Event)
    requires MailOk(h, s, start, handled) && Member(h) && ev.roomId == s.roomId && |s.send| >= s.cap
    requires h.joined.value.at <= start + |handled|
    ensures MailOk(h.(dropped := h.dropped + [start + |handled|]), s, start, handled + [ev])
  {
    var at := start + |handled|;
    var h1 := h.(dropped := h.dropped + [at]);
    forall i | i in h.delivered || i in h.dropped ensures i < at { assert InWindow(h, s.roomId, start, handled, i); }
    IncreasingSnoc(h.dropped, at);
    WindowGrows(h, s.roomId, start, handled, ev);
    forall i: nat ensures i in h1.delivered || i in h1.dropped <==> InWindow(h1, s.roomId, start, handled + [ev], i) {
      assert InWindow(h1, s.roomId, start, handled + [ev], i) <==> InWindow(h, s.roomId, start, handled + [ev], i);
    }
    assert h.delivered[s.cap - 1] in h.delivered;
  }

  /** An event the client is not to get leaves its mail as it is. */
  lemma OthersKeepMail(h: History, s: ClientState, start: nat, handled: seq<Event>, ev: Event)
    requires MailOk(h, s, start, handled)
    requires !Member(h) || ev.roomId != s.roomId
    requires Left(h) ==> h.unregistered.value.at <= start + |handled|
    ensures MailOk(h, s, start, handled + [ev])
  {
    forall i: nat ensures InWindow(h, s.roomId, start, handled + [ev], i) <==>
      InWindow(h, s.roomId, start, handled, i)
    {
    }
  }

  /** Whatever keeps the window and moves no mail keeps the mail in order. */
  lemma SameMail(h: History, s: ClientState, h1: History, s1: ClientState, start: nat, handled: seq<Event>)
    requires MailOk(h, s, start, handled)
    requires h1.delivered == h.delivered && h1.dropped == h.dropped && h1.consumed + s1.send == h.consumed + s.send
    requires s1.cap == s.cap && |s1.send| <= |s.send| && s1.roomId == s.roomId
    requires forall i: nat :: InWindow(h, s.roomId, start, handled, i) <==> InWindow(h1, s.roomId, start, handled, i)
    ensures MailOk(h1, s1, start, handled)
  {
  }

  /** The handler moves on, or the write loop takes a payload: the mail stays in order. */
  lemma MovedMail(h: History, s: ClientState, h1: History, s1: ClientState, start: nat, handled: seq<Event>)
    requires MailOk(h, s, start, handled)
    requires h1 == h.(phase := h1.phase, consumed := h1.consumed) && s1 == s.(send := s1.send)
    requires h1.consumed + s1.send == h.consumed + s.send && |s1.send| <= |s.send|
    ensures MailOk(h1, s1, start, handled)
  {
    SameMail(h, s, h1, s1, start, handled);
  }

  /** At the moment of registering the window opens, and it is still empty. */
  lemma JoiningKeepsMail(h: History, s: ClientState, start: nat, handled: seq<Event>, tick: nat)
    requires MailOk(h, s, start, handled) && h.joined.None?
    requires h.unregistered.Some? ==> h.unregistered.value.tick < tick
    ensures MailOk(h.(joined := Some(Stamp(tick, start + |handled|))), s, start, handled)
  {
    SameMail(h, s, h.(joined := Some(Stamp(tick, start + |handled|))), s, start, handled);
  }

  /** At the moment of unregistering the window closes just behind what it already holds. */
  lemma LeavingKeepsMail(h: History, s: ClientState, start: nat, handled: seq<Event>, tick: nat, closed: bool)
    requires MailOk(h, s, start, handled) && h.unregistered.None?
    ensures MailOk(h.(unregistered := Some(Stamp(tick, start + |handled|))), s.(closed := closed), start, handled)
  {
    SameMail(h, s, h.(unregistered := Some(Stamp(tick, start + |handled|))), s.(closed := closed), start, handled);
  }

  lemma BroadcastKeepsMail(n: Node, c: ClientId)
    requires HubOk(n.hub) && ClientsOk(n) && n.hub.broadcast != [] && c in n.history
    requires After(n.hub, TakeBroadcast).Next?
    ensures ClientMail(Handled(n, TakeBroadcast), c)
  {
    hide MailOk, QueuesOk;
    var ev := n.hub.broadcast[0];
    var h, s := n.history[c], n.hub.State(c);
    assert ClientLife(n, c) && ClientMail(n, c);
    if c !in n.hub.Subscribers(ev.roomId) {
      OthersKeepMail(h, s, n.start, n.handled, ev);
    } else if |s.send| < s.cap {
      AcceptKeepsMail(h, s, n.start, n.handled, ev);
    } else {
      DropKeepsMail(h, s, n.start, n.handled, ev);
    }
  }

  lemma BroadcastKeepsLife(n: Node, c: ClientId)
    requires RoomsOk(n.hub) && ClientsOk(n) && n.hub.broadcast != [] && c in n.history
    requires After(n.hub, TakeBroadcast).Next?
    ensures ClientLife(Handled(n, TakeBroadcast), c)
  {
    hide MailOk, ClientMail;
    assert ClientLife(n, c);
    var n1 := Handled(n, TakeBroadcast);
    assert n1.hub.State(c).closed == n.hub.State(c).closed && n1.hub.RoomOf(c) == n.hub.RoomOf(c);
    assert n1.history[c].(delivered := [], dropped := []) == n.history[c].(delivered := [], dropped := []);
  }

  lemma BroadcastKeepsClients(n: Node)
    requires HubOk(n.hub) && ClientsOk(n) && n.hub.broadcast != []
    ensures After(n.hub, TakeBroadcast).Next? && ClientsOk(Handled(n, TakeBroadcast))
  {
    hide ClientMail, ClientLife, QueuesOk, RoomsOk;
    HandlingKeepsHubOk(n.hub, TakeBroadcast);
    var n1 := Handled(n, TakeBroadcast);
    forall c | c in n1.history ensures ClientLife(n1, c) && ClientMail(n1, c) {
      BroadcastKeepsLife(n, c);
      BroadcastKeepsMail(n, c);
    }
  }

  /** A client that a step does not touch. */
  lemma SameClient(n: Node, n1: Node, d: ClientId)
    requires ClientsOk(n) && d in n.history && d in n1.history
    requires n1.history[d] == n.history[d] && n1.hub.State(d) == n.hub.State(d)
    requires n1.tick >= n.tick && n1.start == n.start && n1.handled == n.handled
    requires d in n1.hub.Subscribers(n.hub.RoomOf(d)) <==> d in n.hub.Subscribers(n.hub.RoomOf(d))
    requires d in n1.hub.register <==> d in n.hub.register
    requires d in n1.hub.unregister <==> d in n.hub.unregister
    ensures ClientLife(n1, d) && ClientMail(n1, d)
  {
    hide MailOk;
    assert ClientLife(n, d) && ClientMail(n, d);
  }

  lemma OthersStayQueued<T>(s: seq<T>, d: T)
    requires s != [] && d != s[0]
    ensures d in s[1..] <==> d in s
  {
    assert s == [s[0]] + s[1..];
  }

  lemma RegisterKeepsOther(n: Node, d: ClientId)
    requires ClientsOk(n) && n.hub.register != [] && d in n.history && d != n.hub.register[0]
    ensures ClientLife(Handled(n, TakeRegister), d) && ClientMail(Handled(n, TakeRegister), d)
  {
    hide ClientsOk, ClientLife, ClientMail;
    OthersStayQueued(n.hub.register, d);
    SameClient(n, Handled(n, TakeRegister), d);
  }

  lemma RegisterKeepsHead(n: Node)
    requires QueuesOk(n.hub) && ClientsOk(n) && n.hub.register != [] && n.hub.register[0] in n.history
    ensures ClientLife(Handled(n, TakeRegister), n.hub.register[0]) &&
      ClientMail(Handled(n, TakeRegister), n.hub.register[0])
  {
    hide MailOk, InWindow;
    var c := n.hub.register[0];
    assert c in n.hub.register;
    HeadIsOnce(n.hub.register);
    assert ClientLife(n, c) && ClientMail(n, c);
    JoiningKeepsMail(n.history[c], n.hub.State(c), n.start, n.handled, n.tick);
  }

  lemma RegisterKeepsClients(n: Node)
    requires HubOk(n.hub) && ClientsOk(n) && n.hub.register != []
    ensures After(n.hub, TakeRegister).Next? && ClientsOk(Handled(n, TakeRegister))
  {
    hide ClientMail, ClientLife, RoomsOk;
    assert n.hub.register[0] in n.hub.register;
    forall d | d in Handled(n, TakeRegister).history
      ensures ClientLife(Handled(n, TakeRegister), d) && ClientMail(Handled(n, TakeRegister), d)
    {
      if d == n.hub.register[0] { RegisterKeepsHead(n); } else { RegisterKeepsOther(n, d); }
    }
  }

  lemma UnregisterKeepsOther(n: Node, d: ClientId)
    requires ClientsOk(n) && n.hub.unregister != [] && d in n.history && d != n.hub.unregister[0]
    requires After(n.hub, TakeUnregister).Next?
    ensures ClientLife(Handled(n, TakeUnregister), d) && ClientMail(Handled(n, TakeUnregister), d)
  {
    hide ClientsOk, ClientLife, ClientMail;
    OthersStayQueued(n.hub.unregister, d);
    SameClient(n, Handled(n, TakeUnregister), d);
  }

  lemma UnregisterKeepsHead(n: Node)
    requires RoomsOk(n.hub) && ClientsOk(n) && n.hub.unregister != [] && n.hub.unregister[0] in n.history
    requires After(n.hub, TakeUnregister).Next?
    ensures ClientLife(Handled(n, TakeUnregister), n.hub.unregister[0]) &&
      ClientMail(Handled(n, TakeUnregister), n.hub.unregister[0])
  {
    hide MailOk, InWindow;
    var c := n.hub.unregister[0];
    assert c in n.hub.unregister;
    HeadIsOnce(n.hub.unregister);
    assert ClientLife(n, c) && ClientMail(n, c);
    LeavingKeepsMail(n.history[c], n.hub.State(c), n.start, n.handled, n.tick,
      Handled(n, TakeUnregister).hub.State(c).closed);
  }

  lemma UnregisterKeepsClients(n: Node)
    requires HubOk(n.hub) && ClientsOk(n) && n.hub.unregister != []
    ensures After(n.hub, TakeUnregister).Next? && ClientsOk(Handled(n, TakeUnregister))
  {
    hide ClientMail, ClientLife, RoomsOk;
    HandlingKeepsHubOk(n.hub, TakeUnregister);
    HeadIsOnce(n.hub.unregister);
    assert n.hub.unregister[0] in n.hub.unregister;
    var n1 := Handled(n, TakeUnregister);
    forall d | d in n1.history ensures ClientLife(n1, d) && ClientMail(n1, d) {
      if d == n.hub.unregister[0] { UnregisterKeepsHead(n); } else { UnregisterKeepsOther(n, d); }
    }
  }

  lemma ConnectKeepsClients(n: Node, c: ClientId, roomId: string, sendBuf: int)
    requires HubOk(n.hub) && ClientsOk(n) && c !in n.history
    ensures var n1 := Connected(n, c, roomId, sendBuf); HubOk(n1.hub) && ClientsOk(n1)
  {
    hide LifeOk, MailOk;
    var n1 := Connected(n, c, roomId, sendBuf);
    assert c !in n.hub.register && c !in n.hub.unregister && c !in n.hub.Subscribers(roomId);
    NewClientOk(NewClient(roomId, sendBuf), n.tick, n.start, n.handled);
    forall d | d in n1.history ensures ClientLife(n1, d) && ClientMail(n1, d) {
      if d != c { SameClient(n, n1, d); }
    }
  }

  lemma NewClientOk(s: ClientState, tick: nat, start: nat, handled: seq<Event>)
    requires s.send == [] && !s.closed && s.cap >= 1
    ensures var h := History(Created, None, None, [], [], []);
      LifeOk(h, s.closed, false, false, false, tick, start + |handled|) && MailOk(h, s, start, handled)
  {
  }

  lemma RegisterSentKeepsSender(n: Node, c: ClientId)
    requires ClientsOk(n) && c in n.history && n.history[c].phase == Created
    ensures ClientLife(RegisterSent(n, c), c) && ClientMail(RegisterSent(n, c), c)
  {
    hide MailOk;
    var n1 := RegisterSent(n, c);
    assert ClientLife(n, c) && ClientMail(n, c);
    assert n1.hub.register[|n.hub.register|] == c;
    MovedMail(n.history[c], n.hub.State(c), n1.history[c], n.hub.State(c), n.start, n.handled);
  }

  lemma RegisterSentKeepsClients(n: Node, c: ClientId)
    requires HubOk(n.hub) && ClientsOk(n) && c in n.history && n.history[c].phase == Created
    ensures HubOk(RegisterSent(n, c).hub) && ClientsOk(RegisterSent(n, c))
  {
    hide MailOk;
    var n1 := RegisterSent(n, c);
    assert ClientLife(n, c);
    forall d | d in n1.history ensures ClientLife(n1, d) && ClientMail(n1, d) {
      if d == c { RegisterSentKeepsSender(n, c); } else { SameClient(n, n1, d); }
    }
    RegisteringKeepsHubOkIff(n.hub, c, n.hub.State(c));
    assert n1.hub.clients == n.hub.clients[c := n.hub.State(c)];
  }

  lemma UnregisterSentKeepsSender(n: Node, c: ClientId)
    requires ClientsOk(n) && c in n.history && n.history[c].phase == Serving
    ensures ClientLife(UnregisterSent(n, c), c) && ClientMail(UnregisterSent(n, c), c)
  {
    hide MailOk;
    var n1 := UnregisterSent(n, c);
    assert ClientLife(n, c) && ClientMail(n, c);
    assert n1.hub.unregister[|n.hub.unregister|] == c;
    MovedMail(n.history[c], n.hub.State(c), n1.history[c], n.hub.State(c), n.start, n.handled);
  }

  lemma UnregisterSentKeepsClients(n: Node, c: ClientId)
    requires HubOk(n.hub) && ClientsOk(n) && c in n.history && n.history[c].phase == Serving
    ensures HubOk(UnregisterSent(n, c).hub) && ClientsOk(UnregisterSent(n, c))
  {
    hide MailOk;
    var n1 := UnregisterSent(n, c);
    assert ClientLife(n, c);
    forall d | d in n1.history ensures ClientLife(n1, d) && ClientMail(n1, d) {
      if d == c { UnregisterSentKeepsSender(n, c); } else { SameClient(n, n1, d); }
    }
    UnregisteringKeepsHubOk(n.hub, c, n.hub.State(c));
    assert n1.hub.clients == n.hub.clients[c := n.hub.State(c)];
  }

  lemma ConsumeKeepsConsumer(n: Node, c: ClientId)
    requires ClientsOk(n) && c in n.history && n.hub.clients[c].send != []
    ensures ClientLife(Consumed(n, c), c) && ClientMail(Consumed(n, c), c)
  {
    hide MailOk, LifeOk;
    var n1 := Consumed(n, c);
    var h, h1, s, s1 := n.history[c], n1.history[c], n.hub.clients[c], n1.hub.clients[c];
    assert ClientLife(n, c) && ClientMail(n, c);
    assert h1.consumed + s1.send == h.consumed + s.send;
    SameLife(h, h1, s.closed, c in n.hub.register, c in n.hub.unregister, c in n.hub.Subscribers(s.roomId), n.tick,
      n.Position());
    MovedMail(h, s, h1, s1, n.start, n.handled);
  }

  lemma ConsumeKeepsClients(n: Node, c: ClientId)
    requires HubOk(n.hub) && ClientsOk(n) && c in n.history && n.hub.clients[c].send != []
    ensures HubOk(Consumed(n, c).hub) && ClientsOk(Consumed(n, c))
  {
    hide ClientLife, ClientMail;
    var n1 := Consumed(n, c);
    forall d | d in n1.history ensures ClientLife(n1, d) && ClientMail(n1, d) {
      if d == c { ConsumeKeepsConsumer(n, c); } else { SameClient(n, n1, d); }
    }
  }

  lemma SameLife(h: History, h1: History, closed: bool, queued: bool, leaving: bool, member: bool, tick: nat,
          position: nat)
    requires LifeOk(h, closed, queued, leaving, member, tick, position)
    requires h1.phase == h.phase && h1.joined == h.joined && h1.unregistered == h.unregistered
    ensures LifeOk(h1, closed, queued, leaving, member, tick, position)
  {
  }

  lemma ActionKeepsClients(n: Node, a: Action)
    requires HubOk(n.hub) && ClientsOk(n)
    ensures !Acted(n, a).Crashed?
    ensures Acted(n, a).To? ==> HubOk(Acted(n, a).state.hub) && ClientsOk(Acted(n, a).state)
  {
    hide HubOk, ClientLife, ClientMail, Connected, RegisterSent, UnregisterSent, Handled, Consumed;
    if !Acted(n, a).Blocked? {
      match a
      case Connect(c, roomId, sendBuf) => ConnectKeepsClients(n, c, roomId, sendBuf);
      case Register(c) => RegisterSentKeepsClients(n, c);
      case Unregister(c) => UnregisterSentKeepsClients(n, c);
      case Handle(p) =>
        HandlingKeepsHubOk(n.hub, p);
        HandledKeepsClients(n, p);
      case Consume(c) => ConsumeKeepsClients(n, c);
      case Forward =>
        SameButBroadcast(n.hub, n.hub.broadcast + [n.hand.value]);
        SameClients(n, Forwarded(n));
      case _ => SameClients(n, Acted(n, a).state);
    }
  }

  lemma HandledKeepsClients(n: Node, p: Pick)
    requires HubOk(n.hub) && ClientsOk(n) && Ready(n.hub, p) && After(n.hub, p).Next?
    ensures ClientsOk(Handled(n, p)) && Handled(n, p).hub == After(n.hub, p).hub
  {
    match p
    case TakeRegister => RegisterKeepsClients(n);
    case TakeUnregister => UnregisterKeepsClients(n);
    case TakeBroadcast => BroadcastKeepsClients(n);
  }

  lemma SameClients(n: Node, n1: Node)
    requires ClientsOk(n)
    requires n1.history == n.history && n1.tick == n.tick && n1.start == n.start && n1.handled == n.handled
    requires n1.hub.register == n.hub.register && n1.hub.unregister == n.hub.unregister
    requires n1.hub.rooms == n.hub.rooms && n1.hub.clients == n.hub.clients
    ensures ClientsOk(n1)
  {
    hide MailOk, LifeOk;
    forall c | c in n1.history ensures ClientLife(n1, c) && ClientMail(n1, c) {
      assert ClientLife(n, c) && ClientMail(n, c);
    }
  }

  lemma HandledKeepsPipeline(n: Node, p: Pick)
    requires Ready(n.hub, p) && After(n.hub, p).Next?
    ensures Pipeline(Handled(n, p)) == Pipeline(n)
    ensures Handled(n, p).start == n.start && Handled(n, p).subscribed == n.subscribed
  {
    if p.TakeBroadcast? {
      assert n.hub.broadcast == [n.hub.broadcast[0]] + n.hub.broadcast[1..];
      assert n.handled + n.hub.broadcast == Handled(n, p).handled + Handled(n, p).hub.broadcast;
    }
  }

  lemma ReceivedKeepsPipeline(n: Node)
    requires n.hand.None? && n.inbox != []
    ensures Pipeline(Received(n)) == Pipeline(n)
    ensures Received(n).start == n.start && Received(n).subscribed == n.subscribed
  {
    assert n.inbox == [n.inbox[0]] + n.inbox[1..];
  }

  lemma ForwardedKeepsPipeline(n: Node)
    requires n.hand.Some?
    ensures Pipeline(Forwarded(n)) == Pipeline(n)
    ensures Forwarded(n).start == n.start && Forwarded(n).subscribed == n.subscribed
  {
  }

  lemma ActionKeepsPipeline(n: Node, a: Action)
    requires Acted(n, a).To?
    ensures Pipeline(Acted(n, a).state) == Pipeline(n) && Acted(n, a).state.start == n.start
    ensures Acted(n, a).state.subscribed ==> n.subscribed
  {
    hide Handled, Received, Forwarded;
    match a
    case Handle(p) => HandledKeepsPipeline(n, p);
    case Receive => ReceivedKeepsPipeline(n);
    case Forward => ForwardedKeepsPipeline(n);
    case _ =>
  }

  lemma ActionKeepsCapacities(n: Node, a: Action)
    requires Acted(n, a).To? && CapacitiesOk(n)
    ensures CapacitiesOk(Acted(n, a).state)
  {
    if a.Handle? && a.pick.TakeUnregister? { assert AfterUnregister(n.hub).Next?; }
  }

  lemma PublishKeepsNode(log: seq<Event>, n: Node, ev: Event)
    requires NodeOk(log, n)
    ensures NodeOk(log + [ev], Delivered(n, ev))
  {
    hide HubOk, ClientsOk;
    var n1 := Delivered(n, ev);
    SameClients(n, n1);
    if n.subscribed { assert Pipeline(n1) == Pipeline(n) + [ev]; }
  }

  lemma ActionKeepsNode(log: seq<Event>, n: Node, a: Action)
    requires NodeOk(log, n)
    ensures !Acted(n, a).Crashed?
    ensures Acted(n, a).To? ==> NodeOk(log, Acted(n, a).state)
  {
    hide HubOk, ClientsOk, Acted, CapacitiesOk, Pipeline;
    ActionKeepsClients(n, a);
    if Acted(n, a).To? { ActionKeepsPipeline(n, a); ActionKeepsCapacities(n, a); }
  }

  lemma StepKeepsSystemOk(s: System, step: Step)
    requires SystemOk(s)
    ensures !Stepped(s, step).Crashed?
    ensures Stepped(s, step).To? ==> SystemOk(Stepped(s, step).state)
  {
    hide NodeOk, Acted, Delivered;
    match step
    case Boot(m) =>
      BootedNodeOk(s.log);
    case Publish(ev) =>
      forall m | m in s.nodes ensures NodeOk(s.log + [ev], Delivered(s.nodes[m], ev)) {
        PublishKeepsNode(s.log, s.nodes[m], ev);
      }
    case Act(m, a) =>
      if m in s.nodes { ActionKeepsNode(s.log, s.nodes[m], a); }
  }

  lemma BootedNodeOk(log: seq<Event>)
    ensures NodeOk(log, NewNode(|log|))
  {
  }

  lemma {:induction false} RunKeepsSystemOk(steps: seq<Step>)
    ensures Run(steps).To? && SystemOk(Run(steps).state)
  {
    if steps != [] {
      RunKeepsSystemOk(steps[..|steps| - 1]);
      StepKeepsSystemOk(Run(steps[..|steps| - 1]).state, steps[|steps| - 1]);
    }
  }
}
