/** The room service of chat-service. The requester is the x-user-id of the call, if there is one. */
module RoomService {
  import opened Strings
  import opened RoomStore
  import opened Units
  import opened Wrappers

  const DEFAULT_LIST_LIMIT := 50

  function EffectiveLimit(limit: int): (l: int)
    ensures 1 <= l <= 200
    ensures l == if limit <= 0 then 50 else if limit > 200 then 200 else limit
  {
    if limit <= 0 then DEFAULT_LIST_LIMIT else if limit > 200 then 200 else limit
  }

  class Service {
    const repo: InMemRepository

    constructor (repo: InMemRepository)
      ensures this.repo == repo
    {
      this.repo := repo;
    }

    /** The creator becomes the only member of a new room. */
    method CreateRoom(requester: Option<string>, name: string, id: string, now: Time, joinedAt: Time)
      returns (r: RoomStore.Result<Room>)
      requires StoreOk(repo.Model()) && id !in repo.rooms
      modifies repo
      ensures StoreOk(repo.Model())
      ensures r.Ok? <==> requester.Some? && TrimSpace(name) != ""
      ensures r.Ok? ==> r.value == Room(id, TrimSpace(name), requester.value, now)
      ensures r.Ok? ==> repo.Model() == Added(Created(old(repo.Model()), r.value), id, requester.value, joinedAt).0
      ensures r.Ok? ==> repo.rooms == old(repo.rooms)[id := r.value]
      ensures r.Ok? ==> repo.members == old(repo.members)[id := map[requester.value := joinedAt]]
      ensures r.Ok? ==> forall u :: repo.Model().Has(id, u) <==> u == requester.value
      ensures r.Err? ==> r.error == InvalidArgument && repo.Model() == old(repo.Model())
    {
      if requester.None? {
        return Err(InvalidArgument);
      }
      var trimmed := TrimSpace(name);
      if trimmed == "" {
        return Err(InvalidArgument);
      }
      var room := Room(id, trimmed, requester.value, now);
      repo.CreateRoom(room);
      var added := repo.AddMember(room.id, requester.value, joinedAt);
      assert added.Ok?;  // the room has just been made, and it is empty
      r := Ok(room);
    }

    /** Joining twice is no error and changes nothing. */
    method JoinRoom(requester: Option<string>, roomId: string, now: Time) returns (r: RoomStore.Result<()>)
      requires StoreOk(repo.Model())
      modifies repo`members
      ensures StoreOk(repo.Model())
      ensures r ==
        if requester.None? then Err(InvalidArgument) else if roomId !in repo.rooms then Err(NotFound) else Ok(())
      ensures r.Err? ==> repo.Model() == old(repo.Model())
      ensures r.Ok? ==> repo.Model() == Added(old(repo.Model()), roomId, requester.value, now).0
      ensures r.Ok? && !old(repo.Model().Has(roomId, requester.value)) ==>
        && roomId in old(repo.members)
        && repo.members == old(repo.members)[roomId := old(repo.members)[roomId][requester.value := now]]
      ensures r.Ok? ==> repo.Model().Has(roomId, requester.value)
      ensures r.Ok? && old(repo.Model().Has(roomId, requester.value)) ==> repo.Model() == old(repo.Model())
    {
      if requester.None? {
        return Err(InvalidArgument);
      }
      var room := repo.GetRoom(roomId);
      if room.Err? {
        return Err(room.error);
      }
      r := repo.AddMember(roomId, requester.value, now);
      if r == Err(AlreadyMember) {
        r := Ok(());
      }
    }

    method LeaveRoom(requester: Option<string>, roomId: string) returns (r: RoomStore.Result<()>)
      requires StoreOk(repo.Model())
      modifies repo`members
      ensures StoreOk(repo.Model())
      ensures requester.None? ==> r == Err(InvalidArgument) && repo.Model() == old(repo.Model())
      ensures requester.Some? ==> (repo.Model(), r) == Removed(old(repo.Model()), roomId, requester.value)
      ensures r.Ok? <==> requester.Some? && old(repo.Model().Has(roomId, requester.value))
      ensures r.Ok? ==> forall room, u :: repo.Model().Has(room, u) <==>
        old(repo.Model()).Has(room, u) && !(room == roomId && u == requester.value)
    {
      if requester.None? {
        return Err(InvalidArgument);
      }
      r := repo.RemoveMember(roomId, requester.value);
    }

    method EnsureMember(roomId: string, userId: string) returns (r: RoomStore.Result<()>)
      ensures r == if repo.Model().Has(roomId, userId) then Ok(()) else Err(NotMember)
    {
      var ok := repo.IsMember(roomId, userId);
      if !ok {
        return Err(NotMember);
      }
      r := Ok(());
    }

    method GetRoom(id: string) returns (r: RoomStore.Result<(Room, nat)>)
      requires StoreOk(repo.Model())
      ensures r == if id in repo.rooms then Ok((repo.rooms[id], |repo.members[id]|)) else Err(NotFound)
    {
      assert id in repo.Model().rooms ==> id in repo.Model().members;
      var room := repo.GetRoom(id);
      if room.Err? {
        return Err(room.error);
      }
      var n := repo.CountMembers(id);
      r := Ok((room.value, n));
    }

    method ListRoomMembers(roomId: string) returns (r: RoomStore.Result<seq<Member>>)
      requires StoreOk(repo.Model())
      ensures roomId !in repo.rooms ==> r == Err(NotFound)
      ensures roomId in repo.rooms ==> roomId in repo.members && r.Ok? && IsMemberListing(repo.members[roomId], r.value)
    {
      assert roomId in repo.Model().rooms <==> roomId in repo.Model().members;
      var room := repo.GetRoom(roomId);
      if room.Err? {
        return Err(room.error);
      }
      r := repo.ListMembers(roomId);
    }

    method ListMyRooms(requester: Option<string>, limit: int) returns (r: RoomStore.Result<seq<Room>>)
      requires StoreOk(repo.Model())
      ensures requester.None? ==> r == Err(InvalidArgument)
      ensures requester.Some? ==> r.Ok?
      ensures requester.Some? ==>
        exists full :: IsRoomListing(repo.Model(), requester.value, full) &&
          IsCut(full, if limit <= 0 then 50 else if limit > 200 then 200 else limit, r.value)
    {
      if requester.None? {
        return Err(InvalidArgument);
      }
      var rooms := repo.ListRoomsByMember(requester.value, EffectiveLimit(limit));
      r := Ok(rooms);
    }
  }
}
