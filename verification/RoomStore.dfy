/** The in-memory room repository of chat-service: rooms, and for each room its members with the
    time they joined. */
module RoomStore {
  import opened Sorting
  import opened Units
  import opened Wrappers

  datatype Error = NotFound | AlreadyMember | NotMember | InvalidArgument
  type Result<+T> = Wrappers.Result<T, Error>

  datatype Room = Room(id: string, name: string, createdBy: string, createdAt: Time)
  datatype Member = Member(userId: string, joinedAt: Time)

  datatype Store = Store(rooms: map<string, Room>, members: map<string, map<string, Time>>) {
    predicate Has(roomId: string, userId: string) {
      roomId in members && userId in members[roomId]
    }
  }

  ghost predicate StoreOk(s: Store) {
    && s.rooms.Keys == s.members.Keys
    && forall r | r in s.rooms :: s.rooms[r].id == r
  }

  // ---------------------------------------------------------------- what the updates do

  function Created(s: Store, room: Room): Store {
    Store(s.rooms[room.id := room], s.members[room.id := map[]])
  }

  function Added(s: Store, roomId: string, userId: string, now: Time): (Store, Result<()>) {
    if roomId !in s.rooms || roomId !in s.members then (s, Err(NotFound))
    else if userId in s.members[roomId] then (s, Err(AlreadyMember))
    else (s.(members := s.members[roomId := s.members[roomId][userId := now]]), Ok(()))
  }

  function Removed(s: Store, roomId: string, userId: string): (Store, Result<()>) {
    if roomId !in s.rooms || roomId !in s.members then (s, Err(NotFound))
    else if userId !in s.members[roomId] then (s, Err(NotMember))
    else (s.(members := s.members[roomId := s.members[roomId] - {userId}]), Ok(()))
  }

  // ---------------------------------------------------------------- what the listings contain

  predicate JoinedBefore(a: Member, b: Member) { a.joinedAt < b.joinedAt }

  predicate CreatedAfter(a: Room, b: Room) { a.createdAt > b.createdAt }

  /** Each member once, earliest first; members who joined at one instant in any order. */
  ghost predicate IsMemberListing(ms: map<string, Time>, out: seq<Member>) {
    && |out| == |ms| && (forall i, j | 0 <= i < j < |out| :: out[i].joinedAt <= out[j].joinedAt)
    && forall m :: m in out <==> m.userId in ms && ms[m.userId] == m.joinedAt
  }

  ghost function RoomsOf(s: Store, userId: string): set<string> {
    set r | r in s.members && userId in s.members[r]
  }

  /** Each room of the user once, newest first; rooms created at one instant in any order. */
  ghost predicate IsRoomListing(s: Store, userId: string, out: seq<Room>) {
    && |out| == |RoomsOf(s, userId)| && (forall i, j | 0 <= i < j < |out| :: out[i].createdAt >= out[j].createdAt)
    && forall room :: room in out <==> room.id in s.rooms && s.rooms[room.id] == room && s.Has(room.id, userId)
  }

  function ApplyLimit<T>(s: seq<T>, limit: int): seq<T> {
    if limit <= 0 || limit >= |s| then s else s[..limit]
  }

  /** The first rooms of a listing, as many as the limit allows; no limit allows all of them. */
  ghost predicate IsCut(full: seq<Room>, limit: int, out: seq<Room>) {
    out <= full && |out| == if 0 < limit < |full| then limit else |full|
  }

  class InMemRepository {
    var rooms: map<string, Room>
    var members: map<string, map<string, Time>>

    constructor ()
      ensures Model() == Store(map[], map[]) && StoreOk(Model())
    {
      rooms, members := map[], map[];
    }

    ghost function Model(): Store
      reads this
    {
      Store(rooms, members)
    }

    method CreateRoom(room: Room)
      requires StoreOk(Model())
      modifies this
      ensures Model() == Created(old(Model()), room) && StoreOk(Model())
      ensures rooms == old(rooms)[room.id := room] && members == old(members)[room.id := map[]]
    {
      rooms := rooms[room.id := room];
      members := members[room.id := map[]];
    }

    method GetRoom(id: string) returns (r: Result<Room>)
      ensures r == if id in rooms then Ok(rooms[id]) else Err(NotFound)
    {
      r := if id in rooms then Ok(rooms[id]) else Err(NotFound);
    }

    method AddMember(roomId: string, userId: string, now: Time) returns (r: Result<()>)
      requires StoreOk(Model())
      modifies this`members
      ensures (Model(), r) == Added(old(Model()), roomId, userId, now) && StoreOk(Model())
      ensures r ==
        if roomId !in rooms then Err(NotFound)
        else if old(Model().Has(roomId, userId)) then Err(AlreadyMember) else Ok(())
      ensures r.Err? ==> members == old(members)
      ensures r.Ok? ==> roomId in old(members) && members == old(members)[roomId := old(members)[roomId][userId := now]]
    {
      if roomId !in rooms {
        return Err(NotFound);
      }
      assert roomId in Model().members;
      if userId in members[roomId] {
        return Err(AlreadyMember);
      }
      members := members[roomId := members[roomId][userId := now]];
      r := Ok(());
    }

    method RemoveMember(roomId: string, userId: string) returns (r: Result<()>)
      requires StoreOk(Model())
      modifies this`members
      ensures (Model(), r) == Removed(old(Model()), roomId, userId) && StoreOk(Model())
      ensures r ==
        if roomId !in rooms then Err(NotFound) else if !old(Model().Has(roomId, userId)) then Err(NotMember) else Ok(())
      ensures r.Err? ==> members == old(members)
      ensures r.Ok? ==> roomId in old(members) && members == old(members)[roomId := old(members)[roomId] - {userId}]
    {
      if roomId !in rooms {
        return Err(NotFound);
      }
      assert roomId in Model().members;
      if userId !in members[roomId] {
        return Err(NotMember);
      }
      members := members[roomId := members[roomId] - {userId}];
      r := Ok(());
    }

    method ListMembers(roomId: string) returns (r: Result<seq<Member>>)
      ensures roomId !in members ==> r == Err(NotFound)
      ensures roomId in members ==> r.Ok? && IsMemberListing(members[roomId], r.value)
    {
      if roomId !in members {
        return Err(NotFound);
      }
      var ms := members[roomId];
      var todo := ms.Keys;
      var out := [];
      while todo != {}
        invariant todo <= ms.Keys && |out| + |todo| == |ms|
        invariant forall m: Member :: m in out <==> m.userId in ms && m.userId !in todo && ms[m.userId] == m.joinedAt
      {
        var u :| u in todo;
        out := out + [Member(u, ms[u])];
        todo := todo - {u};
      }
      JoinedBeforeIsStrictWeakOrder();
      SortSliceSorts(JoinedBefore, out);
      SortingMembers(JoinedBefore, out, SortSlice(JoinedBefore, out));
      r := Ok(SortSlice(JoinedBefore, out));
    }

    method IsMember(roomId: string, userId: string) returns (ok: bool)
      ensures ok <==> Model().Has(roomId, userId)
    {
      if roomId !in members {
        return false;
      }
      ok := userId in members[roomId];
    }

    method CountMembers(roomId: string) returns (n: nat)
      ensures n == if roomId in members then |members[roomId]| else 0
    {
      n := if roomId in members then |members[roomId]| else 0;
    }

    method ListRoomsByMember(userId: string, limit: int) returns (out: seq<Room>)
      requires StoreOk(Model())
      ensures exists full :: IsRoomListing(Model(), userId, full) && IsCut(full, limit, out)
    {
      hide AreRooms, IsRoomListing, RoomsOf, IsSorting, StrictWeakOrder;
      ghost var s := Model();
      var todo := members.Keys;
      var found: seq<Room> := [];
      NoRoomsYet(s, userId);
      while todo != {}
        invariant todo <= members.Keys && AreRooms(s, RoomsOf(s, userId) - todo, found)
      {
        var r :| r in todo;
        assert r in s.rooms && s.rooms[r].id == r;
        VisitRoom(s, userId, todo, r, found);
        if userId in members[r] {
          found := found + [rooms[r]];
        }
        todo := todo - {r};
      }
      assert RoomsOf(s, userId) - {} == RoomsOf(s, userId);
      CreatedAfterIsStrictWeakOrder();
      SortSliceSorts(CreatedAfter, found);
      out := SortSlice(CreatedAfter, found);
      SortedRoomsAreListing(s, userId, found, out);
      ghost var full := out;
      out := ApplyLimit(out, limit);
      assert IsCut(full, limit, out);
    }
  }

  /** The rooms with these ids, each once. */
  ghost predicate AreRooms(s: Store, ids: set<string>, found: seq<Room>) {
    && |found| == |ids|
    && forall room :: room in found <==> room.id in ids && room.id in s.rooms && s.rooms[room.id] == room
  }

  lemma NoRoomsYet(s: Store, userId: string)
    ensures AreRooms(s, RoomsOf(s, userId) - s.members.Keys, [])
  {
    assert RoomsOf(s, userId) - s.members.Keys == {};
  }

  lemma VisitRoom(s: Store, userId: string, todo: set<string>, r: string, found: seq<Room>)
    requires r in todo && r in s.members && r in s.rooms && s.rooms[r].id == r
    requires AreRooms(s, RoomsOf(s, userId) - todo, found)
    ensures AreRooms(s, RoomsOf(s, userId) - (todo - {r}),
                     if userId in s.members[r] then found + [s.rooms[r]] else found)
  {
    var done := RoomsOf(s, userId) - todo;
    assert RoomsOf(s, userId) - (todo - {r}) == if userId in s.members[r] then done + {r} else done;
  }

  lemma SortedRoomsAreListing(s: Store, userId: string, found: seq<Room>, out: seq<Room>)
    requires AreRooms(s, RoomsOf(s, userId), found) && IsSorting(CreatedAfter, found, out)
    ensures IsRoomListing(s, userId, out)
  {
    SortingMembers(CreatedAfter, found, out);
  }

  lemma JoinedBeforeIsStrictWeakOrder()
    ensures StrictWeakOrder(JoinedBefore)
  {
  }

  lemma CreatedAfterIsStrictWeakOrder()
    ensures StrictWeakOrder(CreatedAfter)
  {
  }
}
