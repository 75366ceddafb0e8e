/** What one iteration of the Hub's select loop does to the Hub's queues, its room map and the
    send channels of its clients. `C` is the identity of a client. */
module HubCore {
  import opened Units

  type Payload = seq<Byte>

  datatype Event = Event(roomId: string, payload: Payload)

  const REGISTER_CAP := 16
  const UNREGISTER_CAP := 16
  const BROADCAST_CAP := 256
  const DEFAULT_SEND_BUF := 32

  /** A client: its room and its send channel. */
  datatype ClientState = ClientState(roomId: string, cap: nat, send: seq<Payload>, closed: bool)

  function NewClient(roomId: string, sendBuf: int): (s: ClientState)
    ensures s.roomId == roomId && s.send == [] && !s.closed
    ensures s.cap == if sendBuf > 0 then sendBuf else 32
  {
    ClientState(roomId, if sendBuf <= 0 then DEFAULT_SEND_BUF else sendBuf, [], false)
  }

  datatype Hub<C> = Hub(
    register: seq<C>, unregister: seq<C>, broadcast: seq<Event>,
    rooms: map<string, set<C>>, clients: map<C, ClientState>)
  {
    ghost function State(c: C): ClientState {
      if c in clients then clients[c] else ClientState("", 0, [], false)
    }

    ghost function RoomOf(c: C): string { State(c).roomId }

    ghost function Subscribers(roomId: string): set<C> {
      if roomId in rooms then rooms[roomId] else {}
    }

    ghost function Queued(): nat { |register| + |unregister| + |broadcast| }
  }

  /** The case that select picks. */
  datatype Pick = TakeRegister | TakeUnregister | TakeBroadcast

  datatype Outcome<C> = Next(hub: Hub<C>) | Panic

  ghost predicate Ready<C>(h: Hub<C>, p: Pick) {
    match p
    case TakeRegister => h.register != []
    case TakeUnregister => h.unregister != []
    case TakeBroadcast => h.broadcast != []
  }

  /** The non-blocking send: a full channel drops the payload. */
  function Offer(s: ClientState, p: Payload): ClientState {
    if |s.send| < s.cap then s.(send := s.send + [p]) else s
  }

  ghost function OfferAll<C>(clients: map<C, ClientState>, targets: set<C>, p: Payload): map<C, ClientState> {
    map c | c in clients :: if c in targets then Offer(clients[c], p) else clients[c]
  }

  ghost function AfterRegister<C>(h: Hub<C>): Hub<C>
    requires h.register != []
  {
    var c := h.register[0];
    var roomId := h.RoomOf(c);
    h.(register := h.register[1..], rooms := h.rooms[roomId := h.Subscribers(roomId) + {c}])
  }

  /** A client that is in no room set is left alone: its channel stays open. */
  ghost function AfterUnregister<C>(h: Hub<C>): Outcome<C>
    requires h.unregister != []
  {
    var c := h.unregister[0];
    var roomId := h.RoomOf(c);
    var subs := h.Subscribers(roomId);
    var h1 := h.(unregister := h.unregister[1..]);
    if c !in subs then Next(h1)
    else if h.State(c).closed then Panic  // close of a closed channel
    else Next(h1.(
      clients := h.clients[c := h.State(c).(closed := true)],
      rooms := if subs - {c} == {} then h.rooms - {roomId} else h.rooms[roomId := subs - {c}]))
  }

  ghost function AfterBroadcast<C>(h: Hub<C>): Outcome<C>
    requires h.broadcast != []
  {
    var ev := h.broadcast[0];
    var targets := h.Subscribers(ev.roomId);
    if exists c | c in targets :: h.State(c).closed then Panic  // send on a closed channel
    else Next(h.(broadcast := h.broadcast[1..], clients := OfferAll(h.clients, targets, ev.payload)))
  }

  ghost function After<C>(h: Hub<C>, p: Pick): Outcome<C>
    requires Ready(h, p)
  {
    match p
    case TakeRegister => Next(AfterRegister(h))
    case TakeUnregister => AfterUnregister(h)
    case TakeBroadcast => AfterBroadcast(h)
  }

  ghost predicate NoDuplicates<T>(s: seq<T>) {
    forall i, j | 0 <= i < j < |s| :: s[i] != s[j]
  }

  // ---------------------------------------------------------------- the invariant

  ghost predicate RoomsOk<C>(h: Hub<C>) {
    && (forall r | r in h.rooms :: h.rooms[r] != {})
    && (forall r, c | r in h.rooms && c in h.rooms[r] ::
          c in h.clients && h.clients[c].roomId == r && !h.clients[c].closed)
  }

  /** A client waiting to be registered is open and in no room set yet. */
  ghost predicate QueuesOk<C>(h: Hub<C>) {
    && NoDuplicates(h.register)
    && (forall c | c in h.register :: c in h.clients && !h.clients[c].closed && c !in h.Subscribers(h.RoomOf(c)))
    && (forall c | c in h.unregister :: c in h.clients)
  }

  ghost predicate HubOk<C>(h: Hub<C>) { RoomsOk(h) && QueuesOk(h) }

  lemma HeadIsOnce<T>(s: seq<T>)
    requires NoDuplicates(s) && s != []
    ensures NoDuplicates(s[1..]) && s[0] !in s[1..] && forall x | x in s[1..] :: x in s
  {
    forall i, j | 0 <= i < j < |s[1..]| ensures s[1..][i] != s[1..][j] {
      assert s[1..][i] == s[i + 1] && s[1..][j] == s[j + 1];
    }
  }

  lemma TakingRegisterKeepsHubOk<C>(h: Hub<C>)
    requires HubOk(h) && h.register != []
    ensures HubOk(AfterRegister(h))
  {
    HeadIsOnce(h.register);
    assert h.register[0] in h.register;
  }

  lemma TakingUnregisterKeepsHubOk<C>(h: Hub<C>)
    requires HubOk(h) && h.unregister != []
    ensures AfterUnregister(h).Next? && HubOk(AfterUnregister(h).hub)
  {
    var c := h.unregister[0];
    assert c in h.unregister;
    var h1 := AfterUnregister(h).hub;
    assert forall r | r in h1.rooms :: h1.rooms[r] <= h.rooms[r];
  }

  lemma TakingBroadcastKeepsHubOk<C>(h: Hub<C>)
    requires HubOk(h) && h.broadcast != []
    ensures AfterBroadcast(h).Next? && HubOk(AfterBroadcast(h).hub)
  {
  }

  /** No iteration of the loop touches a closed channel, and the invariant survives it, whichever
      case is picked: an unregister may overtake its own register. */
  lemma HandlingKeepsHubOk<C>(h: Hub<C>, p: Pick)
    requires HubOk(h) && Ready(h, p)
    ensures After(h, p).Next? && HubOk(After(h, p).hub)
    ensures After(h, p).hub.Queued() == h.Queued() - 1
  {
    hide HubOk;
    match p
    case TakeRegister => TakingRegisterKeepsHubOk(h);
    case TakeUnregister => TakingUnregisterKeepsHubOk(h);
    case TakeBroadcast => TakingBroadcastKeepsHubOk(h);
  }

  /** Queueing a register keeps the Hub's invariant exactly if the client is open, not queued yet and
      in no room set. Registering a client twice can break it: see RegisteringTwicePanics. */
  lemma RegisteringKeepsHubOkIff<C>(h: Hub<C>, c: C, s: ClientState)
    requires HubOk(h) && (c in h.clients ==> h.clients[c] == s)
    ensures HubOk(h.(register := h.register + [c], clients := h.clients[c := s])) <==>
      !s.closed && c !in h.register && c !in h.Subscribers(s.roomId)
    ensures c !in h.clients ==> c !in h.register && c !in h.Subscribers(s.roomId)
  {
    var h1 := h.(register := h.register + [c], clients := h.clients[c := s]);
    assert h1.register[|h.register|] == c && c in h1.register;
    assert forall d | d in h.clients :: h1.RoomOf(d) == h.RoomOf(d);
    if c in h.register {
      var i :| 0 <= i < |h.register| && h.register[i] == c;
      assert h1.register[i] == c;
    }
  }

  /** Queueing an unregister or a broadcast cannot break it. */
  lemma UnregisteringKeepsHubOk<C>(h: Hub<C>, c: C, s: ClientState)
    requires HubOk(h) && (c in h.clients ==> h.clients[c] == s)
    ensures HubOk(h.(unregister := h.unregister + [c], clients := h.clients[c := s]))
  {
    var h1 := h.(unregister := h.unregister + [c], clients := h.clients[c := s]);
    assert forall d | d in h.clients :: h1.RoomOf(d) == h.RoomOf(d);
  }

  lemma SameButBroadcast<C>(h: Hub<C>, broadcast: seq<Event>)
    requires HubOk(h)
    ensures HubOk(h.(broadcast := broadcast))
  {
    assert forall c :: h.(broadcast := broadcast).RoomOf(c) == h.RoomOf(c);
  }

  lemma SubscribersAreOpen<C>(h: Hub<C>, roomId: string)
    requires HubOk(h)
    ensures forall c | c in h.Subscribers(roomId) ::
      c in h.clients && h.clients[c].roomId == roomId && !h.clients[c].closed
  {
  }

  lemma UnregisterHeadIsOpen<C>(h: Hub<C>)
    requires HubOk(h) && h.unregister != []
    ensures var c := h.unregister[0];
      c in h.clients && (c in h.Subscribers(h.RoomOf(c)) ==> !h.clients[c].closed)
  {
    assert h.unregister[0] in h.unregister;
  }

  /** Registering a client whose channel the Hub has already closed brings the Hub down at the
      next broadcast to its room: registering once is needed, not a convenience. */
  lemma RegisteringTwicePanics<C>(h: Hub<C>, c: C, ev: Event)
    requires h.register == [c, c] && h.unregister == [c] && h.broadcast == [ev]
    requires c in h.clients && !h.clients[c].closed && h.rooms == map[] && ev.roomId == h.RoomOf(c)
    ensures var h1 := AfterRegister(h);
      AfterUnregister(h1).Next? &&
      var h3 := AfterRegister(AfterUnregister(h1).hub);
      AfterBroadcast(h3).Panic?
  {
    var h3 := AfterRegister(AfterUnregister(AfterRegister(h)).hub);
    assert c in h3.Subscribers(ev.roomId) && h3.State(c).closed;
  }

  // ---------------------------------------------------------------- runs of the loop

  /** The loop on its own, with the cases that select picks. */
  ghost predicate Handles<C>(h: Hub<C>, picks: seq<Pick>, h': Hub<C>)
    decreases |picks|
  {
    if picks == [] then h' == h
    else Ready(h, picks[0]) && After(h, picks[0]).Next? && Handles(After(h, picks[0]).hub, picks[1..], h')
  }

  lemma {:induction false} HandlesOneMore<C>(h: Hub<C>, picks: seq<Pick>, h': Hub<C>, p: Pick)
    requires Handles(h, picks, h') && Ready(h', p) && After(h', p).Next?
    ensures Handles(h, picks + [p], After(h', p).hub)
    decreases |picks|
  {
    if picks != [] {
      HandlesOneMore(After(h, picks[0]).hub, picks[1..], h', p);
      assert (picks + [p])[1..] == picks[1..] + [p];
    } else {
      assert [p][1..] == [];
    }
  }

  /** Without producers the queues drain in exactly their total length, in any order. */
  lemma {:induction false} DrainTakesQueueLength<C>(h: Hub<C>, picks: seq<Pick>, h': Hub<C>)
    requires HubOk(h) && Handles(h, picks, h')
    ensures HubOk(h') && |picks| <= h.Queued() && h'.Queued() == h.Queued() - |picks|
    ensures (forall p :: !Ready(h', p)) <==> |picks| == h.Queued()
    decreases |picks|
  {
    if picks != [] {
      HandlingKeepsHubOk(h, picks[0]);
      DrainTakesQueueLength(After(h, picks[0]).hub, picks[1..], h');
    }
    if forall p :: !Ready(h', p) {
      assert !Ready(h', TakeRegister) && !Ready(h', TakeUnregister) && !Ready(h', TakeBroadcast);
    }
  }

  // ---------------------------------------------------------------- the order of the broadcast loop

  /** The broadcast loop, visiting the clients in a given order. */
  ghost function OfferInOrder<C>(clients: map<C, ClientState>, order: seq<C>, p: Payload): map<C, ClientState> {
    if order == [] then clients
    else
      var c := order[0];
      OfferInOrder(if c in clients then clients[c := Offer(clients[c], p)] else clients, order[1..], p)
  }

  /** Go leaves the iteration order of a map open. Every order in which the loop visits each
      subscriber once leaves every channel the same. */
  lemma {:induction false} BroadcastOrderIrrelevant<C>(clients: map<C, ClientState>, order: seq<C>, targets: set<C>,
          p: Payload)
    requires NoDuplicates(order) && (forall c :: c in order <==> c in targets) && targets <= clients.Keys
    ensures OfferInOrder(clients, order, p) == OfferAll(clients, targets, p)
  {
    if order == [] {
      assert targets == {};
    } else {
      var c := order[0];
      HeadIsOnce(order);
      assert order == [c] + order[1..];
      assert c in order;
      var one := clients[c := Offer(clients[c], p)];
      BroadcastOrderIrrelevant(one, order[1..], targets - {c}, p);
    }
  }
}
