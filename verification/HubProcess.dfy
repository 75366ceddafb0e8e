/** The Hub and its clients as the realtime service runs them: objects that one loop updates in
    place. Each method is proved against the step of HubCore it performs. */
module HubProcess {
  import Core = HubCore
  import opened HubCore

  /** What a receive from a client's channel finds. */
  datatype Received = Got(payload: Payload) | ChannelClosed | WouldBlock

  class Client {
    const userId: string
    const roomId: string
    const cap: nat
    var send: seq<Payload>
    var closed: bool

    constructor (userId: string, roomId: string, sendBuf: int)
      ensures this.userId == userId && State() == NewClient(roomId, sendBuf)
      ensures this.roomId == roomId && send == [] && !closed && cap == if sendBuf > 0 then sendBuf else 32
    {
      var size := sendBuf;
      if size <= 0 {
        size := DEFAULT_SEND_BUF;
      }
      this.userId, this.roomId, cap := userId, roomId, size;
      send, closed := [], false;
    }

    ghost function State(): ClientState
      reads this
    {
      ClientState(roomId, cap, send, closed)
    }

    /** The non-blocking send of the broadcast loop. */
    method TrySend(p: Payload)
      requires !closed
      modifies this`send
      ensures State() == Offer(old(State()), p)
    {
      if |send| < cap {
        send := send + [p];
      }
    }

    method Close()
      requires !closed
      modifies this`closed
      ensures State() == old(State()).(closed := true)
    {
      closed := true;
    }

    /** One receive of the write loop: buffered payloads first, then the close. */
    method Receive() returns (r: Received)
      modifies this`send
      ensures old(send) != [] ==> r == Got(old(send)[0]) && send == old(send)[1..]
      ensures old(send) == [] ==> r == (if closed then ChannelClosed else WouldBlock) && send == []
    {
      if send != [] {
        r := Got(send[0]);
        send := send[1..];
      } else if closed {
        r := ChannelClosed;
      } else {
        r := WouldBlock;
      }
    }
  }

  class Hub {
    var register: seq<Client>
    var unregister: seq<Client>
    var broadcast: seq<Event>
    var rooms: map<string, set<Client>>
    var stopped: bool
    ghost var clients: set<Client>  // every client ever handed to the Hub

    constructor ()
      ensures Valid() && fresh(this) && clients == {} && !stopped
      ensures Model() == Core.Hub([], [], [], map[], map[])
    {
      register, unregister, broadcast := [], [], [];
      rooms, stopped, clients := map[], false, {};
    }

    ghost function Model(): Core.Hub<Client>
      reads this, clients
    {
      Core.Hub(register, unregister, broadcast, rooms, map c | c in clients :: c.State())
    }

    ghost predicate Valid()
      reads this, clients
    {
      && HubOk(Model())
      && |register| <= REGISTER_CAP && |unregister| <= UNREGISTER_CAP && |broadcast| <= BROADCAST_CAP
    }

    /** The queue operation. The sender of `sent == false` is still blocked. Any client is accepted;
        the Hub's invariant survives exactly if the client is open, not yet queued and in no room
        set, as one is that is registered for the first time. */
    method Register(c: Client) returns (sent: bool)
      requires Valid()
      modifies this`register, this`clients
      ensures sent <==> |old(register)| < 16
      ensures sent ==>
        Model() == old(Model()).(register := old(register) + [c], clients := old(Model()).clients[c := c.State()])
      ensures !sent ==> Model() == old(Model())
      ensures Valid() <==> !sent || (!c.closed && c !in old(register) && c !in old(Model()).Subscribers(c.roomId))
      ensures c !in old(clients) && !c.closed ==> Valid()
    {
      sent := |register| < REGISTER_CAP;
      if sent {
        register := register + [c];
        clients := clients + {c};
        assert Model().clients == old(Model()).clients[c := c.State()];
        RegisteringKeepsHubOkIff(old(Model()), c, c.State());
      }
    }

    /** Any client is accepted, registered or not. */
    method Unregister(c: Client) returns (sent: bool)
      requires Valid()
      modifies this`unregister, this`clients
      ensures Valid()
      ensures sent <==> |old(unregister)| < 16
      ensures sent ==>
        Model() == old(Model()).(unregister := old(unregister) + [c], clients := old(Model()).clients[c := c.State()])
      ensures !sent ==> Model() == old(Model())
    {
      sent := |unregister| < UNREGISTER_CAP;
      if sent {
        unregister := unregister + [c];
        clients := clients + {c};
        assert Model().clients == old(Model()).clients[c := c.State()];
        UnregisteringKeepsHubOk(old(Model()), c, c.State());
      }
    }

    method LocalBroadcast(ev: Event) returns (sent: bool)
      requires Valid()
      modifies this`broadcast
      ensures Valid()
      ensures sent <==> |old(broadcast)| < 256
      ensures Model() == old(Model()).(broadcast := old(broadcast) + if sent then [ev] else [])
    {
      sent := |broadcast| < BROADCAST_CAP;
      if sent {
        broadcast := broadcast + [ev];
      }
      assert Model().clients == old(Model()).clients;
      SameButBroadcast(old(Model()), broadcast);
    }

    method Stop()
      modifies this`stopped
      ensures stopped
    {
      stopped := true;
    }

    method TakeOneRegister()
      requires Valid() && register != []
      modifies this`register, this`rooms
      ensures Valid() && After(old(Model()), TakeRegister) == Next(Model())
    {
      hide RoomsOk;
      HandlingKeepsHubOk(Model(), TakeRegister);
      var c := register[0];
      assert c in register;
      register := register[1..];
      if c.roomId !in rooms {
        rooms := rooms[c.roomId := {}];
      }
      rooms := rooms[c.roomId := rooms[c.roomId] + {c}];
      assert Model().clients == old(Model()).clients;
      assert Model() == AfterRegister(old(Model()));
    }

    method TakeOneUnregister()
      requires Valid() && unregister != []
      modifies this`unregister, this`rooms, clients`closed
      ensures Valid() && After(old(Model()), TakeUnregister) == Next(Model())
    {
      hide HubOk;
      HandlingKeepsHubOk(Model(), TakeUnregister);
      UnregisterHeadIsOpen(Model());
      var c := unregister[0];
      unregister := unregister[1..];
      if c.roomId in rooms && c in rooms[c.roomId] {
        var subs := rooms[c.roomId] - {c};
        rooms := rooms[c.roomId := subs];
        c.Close();
        if subs == {} {
          rooms := rooms - {c.roomId};
        }
        assert Model().clients == old(Model()).clients[c := old(c.State()).(closed := true)];
      } else {
        assert Model().clients == old(Model()).clients;
      }
      assert Model() == AfterUnregister(old(Model())).hub;
    }

    /** The range loop visits the subscribers in whatever order. */
    method TakeOneBroadcast()
      requires Valid() && broadcast != []
      modifies this`broadcast, clients`send
      ensures Valid() && After(old(Model()), TakeBroadcast) == Next(Model())
    {
      hide RoomsOk, QueuesOk;
      HandlingKeepsHubOk(Model(), TakeBroadcast);
      var ev := broadcast[0];
      SubscribersAreOpen(Model(), ev.roomId);
      broadcast := broadcast[1..];
      var targets := if ev.roomId in rooms then rooms[ev.roomId] else {};
      var todo := targets;
      while todo != {}
        invariant todo <= targets && broadcast == old(broadcast)[1..]
        invariant forall c | c in clients ::
          c.State() == if c in targets - todo then Offer(old(c.State()), ev.payload) else old(c.State())
      {
        var c :| c in todo;
        c.TrySend(ev.payload);
        todo := todo - {c};
      }
      assert Model().clients == OfferAll(old(Model()).clients, targets, ev.payload);
      assert Model() == AfterBroadcast(old(Model())).hub;
    }

    /** The loop, as long as something is queued: select picks any case that is ready. It comes to
        rest after exactly as many iterations as items were queued, unless it is stopped before. */
    method Run() returns (returned: bool, ghost picks: seq<Pick>)
      requires Valid()
      modifies this`register, this`unregister, this`broadcast, this`rooms, clients`send, clients`closed
      ensures Valid() && Handles(old(Model()), picks, Model())
      ensures returned ==> stopped
      ensures !returned ==> !stopped && register == [] && unregister == [] && broadcast == []
      ensures !returned ==> |picks| == old(Model().Queued())
    {
      returned, picks := false, [];
      while !returned && (stopped || register != [] || unregister != [] || broadcast != [])
        invariant Valid() && Handles(old(Model()), picks, Model())
        invariant returned ==> stopped
        invariant |picks| + Model().Queued() == old(Model().Queued())
        decreases Model().Queued(), !returned
      {
        ghost var before := Model();
        if {
          case register != [] =>
            HandlingKeepsHubOk(before, TakeRegister);
            TakeOneRegister();
            HandlesOneMore(old(Model()), picks, before, TakeRegister);
            picks := picks + [TakeRegister];
          case unregister != [] =>
            HandlingKeepsHubOk(before, TakeUnregister);
            TakeOneUnregister();
            HandlesOneMore(old(Model()), picks, before, TakeUnregister);
            picks := picks + [TakeUnregister];
          case broadcast != [] =>
            HandlingKeepsHubOk(before, TakeBroadcast);
            TakeOneBroadcast();
            HandlesOneMore(old(Model()), picks, before, TakeBroadcast);
            picks := picks + [TakeBroadcast];
          case stopped =>
            returned := true;
        }
      }
    }
  }
}
