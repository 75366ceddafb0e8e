/** Joining a room's members with their profiles, fetched in one batch. */
module Enrichment {
  import Rooms = RoomStore
  import opened Units
  import opened Wrappers
  import Users = UserStore

  datatype Profile = Profile(id: string, username: string, displayName: string, avatarUrl: string)

  datatype RoomMember = RoomMember(userId: string, joinedAt: Time, displayName: string, avatarUrl: string)

  datatype Fetched = Profiles(profiles: seq<Profile>) | FetchFailed

  function Ids(members: seq<Rooms.Member>): seq<string> {
    seq(|members|, i requires 0 <= i < |members| => members[i].userId)
  }

  /** What a lookup of one user finds: the last profile with its id. */
  function Find(profiles: seq<Profile>, id: string): Option<Profile> {
    if profiles == [] then None
    else if profiles[|profiles| - 1].id == id then Some(profiles[|profiles| - 1])
    else Find(profiles[..|profiles| - 1], id)
  }

  /** A member next to its own profile, if one is found. */
  function Beside(m: Rooms.Member, found: Option<Profile>): RoomMember {
    match found
    case Some(p) => RoomMember(m.userId, m.joinedAt, p.displayName, p.avatarUrl)
    case None => RoomMember(m.userId, m.joinedAt, "", "")
  }

  /** `fetch` is the one call of BatchGetUsers; without members it is not made. */
  method EnrichMembers(members: seq<Rooms.Member>, fetch: seq<string> -> Fetched)
    returns (ok: bool, byId: map<string, Profile>)
    ensures ok <==> members == [] || fetch(Ids(members)).Profiles?
    ensures ok && members != [] ==>
      forall id :: Find(fetch(Ids(members)).profiles, id) == if id in byId then Some(byId[id]) else None
    ensures members == [] ==> byId == map[]
  {
    if |members| == 0 {
      return true, map[];
    }
    var ids := [];
    for i := 0 to |members|
      invariant ids == Ids(members)[..i]
    {
      ids := ids + [members[i].userId];
    }
    assert ids == Ids(members);
    var fetched := fetch(ids);
    if fetched.FetchFailed? {
      return false, map[];
    }
    ok, byId := true, map[];
    var profiles := fetched.profiles;
    for i := 0 to |profiles|
      invariant forall id :: Find(profiles[..i], id) == if id in byId then Some(byId[id]) else None
    {
      assert profiles[..i + 1][..i] == profiles[..i];
      byId := byId[profiles[i].id := profiles[i]];
    }
    assert profiles[..|profiles|] == profiles;
  }

  method ListRoomMembers(members: seq<Rooms.Member>, fetch: seq<string> -> Fetched)
    returns (ok: bool, out: seq<RoomMember>)
    ensures ok <==> members == [] || fetch(Ids(members)).Profiles?
    ensures ok ==> |out| == |members|
    ensures ok ==> forall i | 0 <= i < |members| ::
      out[i] == Beside(members[i], Find(fetch(Ids(members)).profiles, members[i].userId))
  {
    var byId;
    ok, byId := EnrichMembers(members, fetch);
    out := [];
    if !ok {
      return;
    }
    for i := 0 to |members|
      invariant |out| == i
      invariant forall j | 0 <= j < i ::
        out[j] == Beside(members[j], Find(fetch(Ids(members)).profiles, members[j].userId))
    {
      var m := members[i];
      var pm := RoomMember(m.userId, m.joinedAt, "", "");
      if m.userId in byId {
        var p := byId[m.userId];
        pm := pm.(displayName := p.displayName, avatarUrl := p.avatarUrl);
      }
      out := out + [pm];
    }
  }

  /** With distinct ids the join does not depend on the order of the answer: a lookup finds the one
      profile with that id, and nothing exactly if there is none. */
  lemma {:induction false} FindIsTheProfile(profiles: seq<Profile>, id: string)
    requires forall i, j | 0 <= i < j < |profiles| :: profiles[i].id != profiles[j].id
    ensures forall p | p in profiles && p.id == id :: Find(profiles, id) == Some(p)
    ensures Find(profiles, id) == None <==> forall p | p in profiles :: p.id != id
  {
    if profiles != [] {
      var f, last := profiles[..|profiles| - 1], profiles[|profiles| - 1];
      assert profiles == f + [last];
      FindIsTheProfile(f, id);
    }
  }

  /** So any two answers with the same profiles, in whatever order, join alike. */
  lemma {:induction false} AnswerOrderIsIrrelevant(a: seq<Profile>, b: seq<Profile>, id: string)
    requires forall i, j | 0 <= i < j < |a| :: a[i].id != a[j].id
    requires forall i, j | 0 <= i < j < |b| :: b[i].id != b[j].id
    requires forall p :: p in a <==> p in b
    ensures Find(a, id) == Find(b, id)
  {
    FindIsTheProfile(a, id);
    FindIsTheProfile(b, id);
    if q :| q in a && q.id == id { assert q in b; }
  }

  function ToProfile(u: Users.User): Profile { Profile(u.id, u.username, u.displayName, u.avatarUrl) }

  /** user-service's answer to BatchGetUsers. */
  function BatchGetUsers(users: map<string, Users.User>, ids: seq<string>): Fetched {
    var found := Users.FoundUsers(users, ids);
    Profiles(seq(|found|, i requires 0 <= i < |found| => ToProfile(found[i])))
  }

  lemma BatchOneMore(users: map<string, Users.User>, ids: seq<string>, last: string)
    ensures BatchGetUsers(users, ids + [last]).profiles ==
      BatchGetUsers(users, ids).profiles + if last in users then [ToProfile(users[last])] else []
  {
    assert (ids + [last])[..|ids|] == ids;
  }

  lemma {:induction false} BatchFinds(users: map<string, Users.User>, ids: seq<string>, id: string)
    requires forall k | k in users :: users[k].id == k
    ensures Find(BatchGetUsers(users, ids).profiles, id) ==
      if id in ids && id in users then Some(ToProfile(users[id])) else None
  {
    if ids != [] {
      var f, last := ids[..|ids| - 1], ids[|ids| - 1];
      BatchFinds(users, f, id);
      assert ids == f + [last];
      hide BatchGetUsers;
      BatchOneMore(users, f, last);
      if last in users {
        assert BatchGetUsers(users, ids).profiles[..|BatchGetUsers(users, f).profiles|] ==
          BatchGetUsers(users, f).profiles;
      } else {
        assert BatchGetUsers(users, ids).profiles == BatchGetUsers(users, f).profiles;
      }
    }
  }

  /** One batch across the two services gives each member what a lookup of that member alone in
      user-service would have given, or empty strings for an unknown user. */
  lemma BatchEqualsLookups(users: map<string, Users.User>, members: seq<Rooms.Member>, i: nat)
    requires i < |members| && forall k | k in users :: users[k].id == k
    ensures var m := members[i];
      Beside(m, Find(BatchGetUsers(users, Ids(members)).profiles, m.userId)) ==
        if m.userId in users
        then RoomMember(m.userId, m.joinedAt, users[m.userId].displayName, users[m.userId].avatarUrl)
        else RoomMember(m.userId, m.joinedAt, "", "")
  {
    assert Ids(members)[i] == members[i].userId;
    BatchFinds(users, Ids(members), members[i].userId);
  }
}
