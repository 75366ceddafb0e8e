/** The message adapter of chat-service: who may send to and read from a room. */
module Gate {
  import opened Strings
  import opened MessageStore
  import opened Pagination
  import Rooms = RoomStore
  import opened Units
  import opened Wrappers
  import RoomService

  datatype Code = Unauthenticated | PermissionDenied | BadArgument | Missing | Internal

  datatype Reply<+T> = Answer(value: T) | Refused(code: Code)

  /** The checks of SendMessage before anything is stored: the requester, or the refusal. */
  function Checked(rooms: Rooms.Store, requester: Option<string>, senderId: string, roomId: string): Reply<string> {
    if requester.None? then Refused(Unauthenticated)
    else if senderId != "" && senderId != requester.value then Refused(PermissionDenied)
    else if !rooms.Has(roomId, requester.value) then Refused(PermissionDenied)
    else Answer(requester.value)
  }

  /** What Send stores, if anything. */
  function Stored(roomId: string, senderId: string, content: string, id: string, now: Time): seq<Message> {
    if senderId == "" || roomId == "" || TrimSpace(content) == "" then []
    else [Message(id, roomId, senderId, TrimSpace(content), now)]
  }

  ghost predicate UnknownRoom(rooms: Rooms.Store, roomId: string) {
    Rooms.StoreOk(rooms) && roomId !in rooms.rooms
  }

  /** The adapter's translation of the room service's errors. Its `NotFound` case is never reached:
      the membership check has only one answer for a non-member and for an unknown room. */
  function RoomCode(e: Rooms.Error): Code {
    match e
    case NotFound => Missing
    case NotMember => PermissionDenied
    case _ => Internal
  }

  class Adapter {
    const svc: Service
    const rooms: RoomService.Service

    constructor (svc: Service, rooms: RoomService.Service)
      ensures this.svc == svc && this.rooms == rooms
    {
      this.svc, this.rooms := svc, rooms;
    }

    /** Both steps in one go, with nothing in between. */
    method SendMessage(requester: Option<string>, senderId: string, roomId: string, content: string, id: string,
            now: Time)
      returns (r: Reply<Message>)
      modifies svc.repo
      ensures var checked := Checked(old(rooms.repo.Model()), requester, senderId, roomId);
        match checked
        case Refused(code) => r == Refused(code) && svc.repo.messages == old(svc.repo.messages)
        case Answer(user) =>
          && svc.repo.messages == old(svc.repo.messages) + Stored(roomId, user, content, id, now)
          && (r.Answer? <==> Stored(roomId, user, content, id, now) != [])
          && (r.Answer? ==> [r.value] == Stored(roomId, user, content, id, now))
          && (r.Refused? ==> r.code == BadArgument)
      ensures requester.Some? && UnknownRoom(old(rooms.repo.Model()), roomId) ==> r == Refused(PermissionDenied)
      ensures r != Refused(Missing)
    {
      if requester.None? {
        return Refused(Unauthenticated);
      }
      if senderId != "" && senderId != requester.value {
        return Refused(PermissionDenied);
      }
      var member := rooms.EnsureMember(roomId, requester.value);
      if member.Err? {
        return Refused(RoomCode(member.error));
      }
      var m := svc.Send(roomId, requester.value, content, id, now);
      match m
      case Err(_) => r := Refused(BadArgument);
      case Ok(message) => r := Answer(message);
    }

    /** Only members of the room get to see its messages. */
    method GetMessages(requester: Option<string>, roomId: string, limit: int, cursor: WireCursor)
      returns (r: Reply<(seq<Message>, WireCursor)>)
      ensures requester.None? ==> r == Refused(Unauthenticated)
      ensures requester.Some? && !rooms.repo.Model().Has(roomId, requester.value) ==> r == Refused(PermissionDenied)
      ensures requester.Some? && rooms.repo.Model().Has(roomId, requester.value) ==>
        match r
        case Answer(page) => IsResponse(svc.repo.messages, roomId, limit, cursor, Page(page.0, page.1))
        case Refused(code) => code == BadArgument && exists e ::
          IsResponse(svc.repo.messages, roomId, limit, cursor, Failed(e))
      ensures requester.Some? && rooms.repo.Model().Has(roomId, requester.value) ==>
        (r == Refused(BadArgument) <==> BadRequest(roomId, cursor))
      ensures r.Answer? ==> Shows(svc.repo.messages, roomId, limit, cursor, r.value.0, r.value.1)
      ensures requester.Some? && UnknownRoom(rooms.repo.Model(), roomId) ==> r == Refused(PermissionDenied)
      ensures r != Refused(Missing)
    {
      hide IsResponse, Shows, BadRequest;
      if requester.None? {
        return Refused(Unauthenticated);
      }
      var member := rooms.EnsureMember(roomId, requester.value);
      if member.Err? {
        return Refused(RoomCode(member.error));
      }
      var page := svc.GetMessages(roomId, limit, cursor);
      match page
      case Failed(_) => r := Refused(BadArgument);
      case Page(msgs, next) =>
        var out := [];
        for i := 0 to |msgs|
          invariant out == msgs[..i]
        {
          out := out + [msgs[i]];
        }
        assert out == msgs;
        r := Answer((out, next));
    }
  }
}
