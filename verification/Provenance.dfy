/** Runs of chat-service in which the calls on the repositories interleave freely: where
    memberships come from, and where stored messages come from. */
module Provenance {
  import opened Strings
  import opened MessageStore
  import opened Gate
  import Rooms = RoomStore
  import opened Units
  import opened Wrappers

  /** One atomic call on a repository. SendMessage is a `Check` and, if that passes, an `Insert`
      some time later; `ticket` says which call they belong to. */
  datatype Step =
    | CreateRoom(room: Rooms.Room)
    | AddMember(roomId: string, userId: string, now: Time)
    | RemoveMember(roomId: string, userId: string)
    | Check(ticket: nat, requester: Option<string>, senderId: string, roomId: string, content: string)
    | Insert(ticket: nat, id: string, now: Time)

  datatype Pending = Pending(userId: string, roomId: string, content: string)

  datatype State = State(rooms: Rooms.Store, messages: seq<Message>, pending: map<nat, Pending>)

  const INIT := State(Rooms.Store(map[], map[]), [], map[])

  function Stepped(s: State, step: Step): State {
    match step
    case CreateRoom(room) => s.(rooms := Rooms.Created(s.rooms, room))
    case AddMember(roomId, userId, now) => s.(rooms := Rooms.Added(s.rooms, roomId, userId, now).0)
    case RemoveMember(roomId, userId) => s.(rooms := Rooms.Removed(s.rooms, roomId, userId).0)
    case Check(ticket, requester, senderId, roomId, content) =>
      var checked := Checked(s.rooms, requester, senderId, roomId);
      if checked.Refused? then s
      else s.(pending := s.pending[ticket := Pending(checked.value, roomId, content)])
    case Insert(ticket, id, now) =>
      if ticket !in s.pending then s
      else
        var p := s.pending[ticket];
        s.(messages := s.messages + Stored(p.roomId, p.userId, p.content, id, now), pending := s.pending - {ticket})
  }

  function Run(steps: seq<Step>): State {
    if steps == [] then INIT else Stepped(Run(steps[..|steps| - 1]), steps[|steps| - 1])
  }

  // ---------------------------------------------------------------- memberships

  /** History only: a room exists from its creation on. */
  ghost predicate WasCreated(steps: seq<Step>, roomId: string) {
    exists i :: 0 <= i < |steps| && steps[i].CreateRoom? && steps[i].room.id == roomId
  }

  predicate PutsIn(step: Step, roomId: string, userId: string) {
    step.AddMember? && step.roomId == roomId && step.userId == userId
  }

  predicate TakesOut(step: Step, roomId: string, userId: string) {
    step == RemoveMember(roomId, userId) || (step.CreateRoom? && step.room.id == roomId)
  }

  /** History only: the last create, join or leave that concerns the pair put the user in. */
  ghost predicate LastChangeAdded(steps: seq<Step>, roomId: string, userId: string) {
    if steps == [] then false
    else
      var front, last := steps[..|steps| - 1], steps[|steps| - 1];
      if TakesOut(last, roomId, userId) then false
      else if PutsIn(last, roomId, userId) then WasCreated(front, roomId)
      else LastChangeAdded(front, roomId, userId)
  }

  /** History only: when the user's present stay in the room began. */
  ghost function StayBegan(steps: seq<Step>, roomId: string, userId: string): Time
    requires LastChangeAdded(steps, roomId, userId)
  {
    var front, last := steps[..|steps| - 1], steps[|steps| - 1];
    if PutsIn(last, roomId, userId) && !LastChangeAdded(front, roomId, userId) then last.now
    else if LastChangeAdded(front, roomId, userId) then StayBegan(front, roomId, userId)
    else 0
  }

  lemma WasCreatedSnoc(steps: seq<Step>, roomId: string)
    requires steps != []
    ensures WasCreated(steps, roomId) <==>
      WasCreated(steps[..|steps| - 1], roomId) ||
        (steps[|steps| - 1].CreateRoom? && steps[|steps| - 1].room.id == roomId)
  {
    var front := steps[..|steps| - 1];
    if WasCreated(front, roomId) {
      var i :| 0 <= i < |front| && front[i].CreateRoom? && front[i].room.id == roomId;
      assert steps[i] == front[i];
    }
    if WasCreated(steps, roomId) {
      var i :| 0 <= i < |steps| && steps[i].CreateRoom? && steps[i].room.id == roomId;
      if i < |front| { assert front[i] == steps[i]; }
    }
  }

  /** What one step means for one pair, told by the step alone. */
  ghost predicate FollowsStep(r: Rooms.Store, step: Step, r1: Rooms.Store, roomId: string, userId: string) {
    && Rooms.StoreOk(r1)
    && (roomId in r1.rooms <==> roomId in r.rooms || (step.CreateRoom? && step.room.id == roomId))
    && (r1.Has(roomId, userId) <==>
          && !TakesOut(step, roomId, userId)
          && (r.Has(roomId, userId) || (PutsIn(step, roomId, userId) && roomId in r.rooms)))
    && (r1.Has(roomId, userId) ==>
          (!r.Has(roomId, userId) ==> step.AddMember?) &&
          r1.members[roomId][userId] == if r.Has(roomId, userId) then r.members[roomId][userId] else step.now)
  }

  lemma CreateAndPair(r: Rooms.Store, room: Rooms.Room, roomId: string, userId: string)
    requires Rooms.StoreOk(r)
    ensures FollowsStep(r, CreateRoom(room), Rooms.Created(r, room), roomId, userId)
  {
  }

  lemma AddAndPair(r: Rooms.Store, step: Step, roomId: string, userId: string)
    requires Rooms.StoreOk(r) && step.AddMember?
    ensures FollowsStep(r, step, Rooms.Added(r, step.roomId, step.userId, step.now).0, roomId, userId)
  {
  }

  lemma RemoveAndPair(r: Rooms.Store, step: Step, roomId: string, userId: string)
    requires Rooms.StoreOk(r) && step.RemoveMember?
    ensures FollowsStep(r, step, Rooms.Removed(r, step.roomId, step.userId).0, roomId, userId)
  {
  }

  lemma StepAndPair(s: State, step: Step, roomId: string, userId: string)
    requires Rooms.StoreOk(s.rooms)
    ensures s.rooms.Has(roomId, userId) ==> roomId in s.rooms.rooms
    ensures FollowsStep(s.rooms, step, Stepped(s, step).rooms, roomId, userId)
  {
    hide Checked, Stored, Rooms.Created, Rooms.Added, Rooms.Removed;
    if step.CreateRoom? {
      hide FollowsStep;
      CreateAndPair(s.rooms, step.room, roomId, userId);
    } else if step.AddMember? {
      hide FollowsStep;
      AddAndPair(s.rooms, step, roomId, userId);
    } else if step.RemoveMember? {
      hide FollowsStep;
      RemoveAndPair(s.rooms, step, roomId, userId);
    } else {
      assert Stepped(s, step).rooms == s.rooms;
    }
  }

  /** Over any run, rooms and members have the same keys, and the store's memberships and joining
      times are exactly those its history tells. */
  lemma {:induction false} MembershipAgreesWithHistory(steps: seq<Step>, roomId: string, userId: string)
    ensures Rooms.StoreOk(Run(steps).rooms)
    ensures roomId in Run(steps).rooms.rooms <==> WasCreated(steps, roomId)
    ensures Run(steps).rooms.Has(roomId, userId) <==> LastChangeAdded(steps, roomId, userId)
    ensures LastChangeAdded(steps, roomId, userId) ==>
      Run(steps).rooms.members[roomId][userId] == StayBegan(steps, roomId, userId)
  {
    hide WasCreated, Stepped, PutsIn, TakesOut, Rooms.StoreOk;
    if steps == [] {
      NothingCreatedYet(roomId);
    } else {
      var front := steps[..|steps| - 1];
      MembershipAgreesWithHistory(front, roomId, userId);
      WasCreatedSnoc(steps, roomId);
      StepAndPair(Run(front), steps[|steps| - 1], roomId, userId);
    }
  }

  lemma NothingCreatedYet(roomId: string)
    ensures Rooms.StoreOk(INIT.rooms) && !WasCreated([], roomId)
  {
  }

  /** History only: the room as it was last created. */
  ghost function LastCreated(steps: seq<Step>, roomId: string): Option<Rooms.Room> {
    if steps == [] then None
    else
      var last := steps[|steps| - 1];
      if last.CreateRoom? && last.room.id == roomId then Some(last.room) else LastCreated(steps[..|steps| - 1], roomId)
  }

  /** A stored room is the one that was created: nothing changes its name, creator or creation time. */
  lemma {:induction false} RoomIsAsCreated(steps: seq<Step>, roomId: string)
    ensures LastCreated(steps, roomId) ==
      if roomId in Run(steps).rooms.rooms then Some(Run(steps).rooms.rooms[roomId]) else None
  {
    hide Checked, Stored;
    if steps != [] { RoomIsAsCreated(steps[..|steps| - 1], roomId); }
  }

  /** The gate's answer at any point of any run, told by the history alone. A room that was never
      created has no members, so it is refused like any other room one is not in. */
  lemma GateFollowsHistory(steps: seq<Step>, requester: Option<string>, senderId: string, roomId: string)
    ensures Checked(Run(steps).rooms, requester, senderId, roomId) ==
      if requester.None? then Refused(Unauthenticated)
      else if (senderId == "" || senderId == requester.value) && LastChangeAdded(steps, roomId, requester.value)
      then Answer(requester.value) else Refused(PermissionDenied)
    ensures !WasCreated(steps, roomId) && requester.Some? ==>
      Checked(Run(steps).rooms, requester, senderId, roomId) == Refused(PermissionDenied)
  {
    if requester.Some? { MembershipAgreesWithHistory(steps, roomId, requester.value); }
  }

  /** The history also settles every answer: joining fails on an unknown room and on a member,
      leaving fails on an unknown room and on a non-member, and a failed call changes nothing. */
  lemma {:induction false} AnswersFollowHistory(steps: seq<Step>, roomId: string, userId: string, now: Time)
    ensures Rooms.Added(Run(steps).rooms, roomId, userId, now).1 ==
      if !WasCreated(steps, roomId) then Err(Rooms.NotFound)
      else if LastChangeAdded(steps, roomId, userId) then Err(Rooms.AlreadyMember) else Ok(())
    ensures Rooms.Removed(Run(steps).rooms, roomId, userId).1 ==
      if !WasCreated(steps, roomId) then Err(Rooms.NotFound)
      else if !LastChangeAdded(steps, roomId, userId) then Err(Rooms.NotMember) else Ok(())
    ensures Rooms.Added(Run(steps).rooms, roomId, userId, now).1.Err? ==>
      Run(steps + [AddMember(roomId, userId, now)]) == Run(steps)
    ensures Rooms.Removed(Run(steps).rooms, roomId, userId).1.Err? ==>
      Run(steps + [RemoveMember(roomId, userId)]) == Run(steps)
  {
    MembershipAgreesWithHistory(steps, roomId, userId);
    assert (steps + [AddMember(roomId, userId, now)])[..|steps|] == steps;
    assert (steps + [RemoveMember(roomId, userId)])[..|steps|] == steps;
  }

  /** All views report that one relation: the member listing, the room listing and the count.
      `users` is the set of those whom the history puts in the room. */
  lemma ViewsAgree(steps: seq<Step>, roomId: string, userId: string, members: seq<Rooms.Member>,
          mine: seq<Rooms.Room>, users: set<string>)
    requires WasCreated(steps, roomId) && forall u :: u in users <==> LastChangeAdded(steps, roomId, u)
    requires roomId in Run(steps).rooms.members && Rooms.IsMemberListing(Run(steps).rooms.members[roomId], members)
    requires Rooms.IsRoomListing(Run(steps).rooms, userId, mine)
    ensures (exists m :: m in members && m.userId == userId) <==> LastChangeAdded(steps, roomId, userId)
    ensures (exists room :: room in mine && room.id == roomId) <==> LastChangeAdded(steps, roomId, userId)
    ensures |members| == |Run(steps).rooms.members[roomId]| == |users|
  {
    hide WasCreated, LastChangeAdded, Run;
    MembershipAgreesWithHistory(steps, roomId, userId);
    var s := Run(steps).rooms;
    forall u ensures u in users <==> u in s.members[roomId] { MembershipAgreesWithHistory(steps, roomId, u); }
    assert users == s.members[roomId].Keys;
    if s.Has(roomId, userId) {
      assert Rooms.Member(userId, s.members[roomId][userId]) in members;
      assert s.rooms[roomId] in mine;
    }
  }

  // ---------------------------------------------------------------- messages

  /** Step i checked and admitted this user, room and content. */
  ghost predicate Admits(steps: seq<Step>, i: nat, userId: string, roomId: string, content: string) {
    && i < |steps| && steps[i].Check?
    && steps[i].requester == Some(userId) && steps[i].roomId == roomId && steps[i].content == content
    && (steps[i].senderId == "" || steps[i].senderId == userId)
    && LastChangeAdded(steps[..i], roomId, userId)
  }

  ghost predicate WellSent(steps: seq<Step>, m: Message) {
    && WasCreated(steps, m.roomId)
    && m.content != "" && IsTrimmed(m.content)
    && exists i: nat, content :: Admits(steps, i, m.senderId, m.roomId, content) && m.content == TrimSpace(content)
  }

  lemma AdmitsMore(steps: seq<Step>, last: Step, i: nat, userId: string, roomId: string, content: string)
    requires Admits(steps, i, userId, roomId, content)
    ensures Admits(steps + [last], i, userId, roomId, content)
  {
    assert (steps + [last])[..i] == steps[..i];
  }

  lemma WellSentMore(steps: seq<Step>, last: Step, m: Message)
    requires WellSent(steps, m)
    ensures WellSent(steps + [last], m)
  {
    assert (steps + [last])[..|steps|] == steps;
    WasCreatedSnoc(steps + [last], m.roomId);
    var i: nat, content :| Admits(steps, i, m.senderId, m.roomId, content) && m.content == TrimSpace(content);
    AdmitsMore(steps, last, i, m.senderId, m.roomId, content);
  }

  /** Members' rooms exist. */
  lemma {:induction false} AddedToCreatedRoom(steps: seq<Step>, roomId: string, userId: string)
    requires LastChangeAdded(steps, roomId, userId)
    ensures WasCreated(steps, roomId)
  {
    WasCreatedSnoc(steps, roomId);
    if !WasCreated(steps[..|steps| - 1], roomId) { AddedToCreatedRoom(steps[..|steps| - 1], roomId, userId); }
  }

  lemma {:induction false} CreatedStays(steps: seq<Step>, i: nat, roomId: string)
    requires i <= |steps| && WasCreated(steps[..i], roomId)
    ensures WasCreated(steps, roomId)
  {
    var k :| 0 <= k < i && steps[..i][k].CreateRoom? && steps[..i][k].room.id == roomId;
    assert steps[k] == steps[..i][k];
  }

  ghost predicate WasAdmitted(steps: seq<Step>, p: Pending) {
    exists i: nat :: Admits(steps, i, p.userId, p.roomId, p.content)
  }

  lemma WasAdmittedMore(steps: seq<Step>, last: Step, p: Pending)
    requires WasAdmitted(steps, p)
    ensures WasAdmitted(steps + [last], p)
  {
    var i: nat :| Admits(steps, i, p.userId, p.roomId, p.content);
    AdmitsMore(steps, last, i, p.userId, p.roomId, p.content);
  }

  /** Step k is a check that passes with this ticket. */
  ghost predicate Issues(steps: seq<Step>, k: nat, t: nat)
    requires k < |steps|
  {
    var step := steps[k];
    step.Check? && step.ticket == t &&
      Checked(Run(steps[..k]).rooms, step.requester, step.senderId, step.roomId).Answer?
  }

  /** History only: the ticket's send was admitted at step i and has not been inserted since. */
  ghost predicate AdmittedAt(steps: seq<Step>, t: nat, i: nat) {
    && i < |steps| && Issues(steps, i, t)
    && forall k | i < k < |steps| :: !Issues(steps, k, t) && !(steps[k].Insert? && steps[k].ticket == t)
  }

  /** Every pending send was admitted at one step, and is what that step's request asked for. */
  lemma {:induction false} PendingIsAdmitted(steps: seq<Step>, t: nat) returns (i: nat)
    requires t in Run(steps).pending
    ensures AdmittedAt(steps, t, i)
    ensures steps[i].requester.Some?
    ensures Run(steps).pending[t] == Pending(steps[i].requester.value, steps[i].roomId, steps[i].content)
  {
    hide Checked;
    var n := |steps| - 1;
    var front, last := steps[..n], steps[n];
    if Issues(steps, n, t) {
      AdmittedIsRequester(Run(front).rooms, last);
      i := n;
    } else {
      i := PendingIsAdmitted(front, t);
      assert front[..i] == steps[..i];
      forall k | i < k < |steps| ensures !Issues(steps, k, t) && !(steps[k].Insert? && steps[k].ticket == t) {
        if k < n {
          assert front[..k] == steps[..k];
          assert !Issues(front, k, t);
        }
      }
    }
  }

  /** The step that admitted a send is unique. */
  lemma AdmittedOnce(steps: seq<Step>, t: nat, i: nat, j: nat)
    requires AdmittedAt(steps, t, i) && AdmittedAt(steps, t, j)
    ensures i == j
  {
  }

  lemma AdmittedIsRequester(rooms: Rooms.Store, step: Step)
    requires step.Check? && Checked(rooms, step.requester, step.senderId, step.roomId).Answer?
    ensures step.requester == Some(Checked(rooms, step.requester, step.senderId, step.roomId).value)
  {
  }

  lemma PendingWasAdmitted(steps: seq<Step>, t: nat)
    requires t in Run(steps).pending
    ensures WasAdmitted(steps, Run(steps).pending[t])
  {
    hide LastChangeAdded;
    var i := PendingIsAdmitted(steps, t);
    GateFollowsHistory(steps[..i], steps[i].requester, steps[i].senderId, steps[i].roomId);
    var p := Run(steps).pending[t];
    assert Admits(steps, i, p.userId, p.roomId, p.content);
  }

  /** What an admitted send stores. */
  lemma StoredIsWellSent(steps: seq<Step>, p: Pending, id: string, now: Time, m: Message)
    requires WasAdmitted(steps, p) && m in Stored(p.roomId, p.userId, p.content, id, now)
    ensures WellSent(steps, m)
  {
    var i: nat :| Admits(steps, i, p.userId, p.roomId, p.content);
    AddedToCreatedRoom(steps[..i], p.roomId, p.userId);
    CreatedStays(steps, i, p.roomId);
    var lo, hi := TrimSpaceCut(p.content);
  }

  /** However the calls interleave: every stored message is in a room that exists, is not blank and
      is trimmed, and was sent by an authenticated requester under its own name who, when checked
      earlier in the run, was a member of that room. */
  lemma {:induction false} EveryMessageIsWellSent(steps: seq<Step>, m: Message)
    requires m in Run(steps).messages
    ensures WellSent(steps, m)
  {
    if steps != [] {
      var front, last := steps[..|steps| - 1], steps[|steps| - 1];
      assert steps == front + [last];
      if m in Run(front).messages {
        EveryMessageIsWellSent(front, m);
        WellSentMore(front, last, m);
      } else {
        var p := Run(front).pending[last.ticket];
        PendingWasAdmitted(front, last.ticket);
        WasAdmittedMore(front, last, p);
        StoredIsWellSent(steps, p, last.id, last.now, m);
      }
    }
  }

  // ---------------------------------------------------------------- membership at the insert

  /** History only: from step i on something took the user out, and nothing since put it back. */
  ghost predicate OutSince(steps: seq<Step>, i: nat, roomId: string, userId: string) {
    exists k | i <= k < |steps| :: TakesOut(steps[k], roomId, userId) && NotBackSince(steps, k, roomId, userId)
  }

  ghost predicate NotBackSince(steps: seq<Step>, k: nat, roomId: string, userId: string) {
    forall l | k < l < |steps| :: !PutsIn(steps[l], roomId, userId)
  }

  lemma OutSinceSnoc(front: seq<Step>, last: Step, i: nat, roomId: string, userId: string)
    requires i <= |front|
    ensures OutSince(front + [last], i, roomId, userId) <==>
      TakesOut(last, roomId, userId) || (OutSince(front, i, roomId, userId) && !PutsIn(last, roomId, userId))
  {
    var n, steps := |front|, front + [last];
    if TakesOut(last, roomId, userId) {
      assert TakesOut(steps[n], roomId, userId) && NotBackSince(steps, n, roomId, userId);
    }
    if OutSince(front, i, roomId, userId) && !PutsIn(last, roomId, userId) {
      var k :| i <= k < n && TakesOut(front[k], roomId, userId) && NotBackSince(front, k, roomId, userId);
      assert TakesOut(steps[k], roomId, userId) && NotBackSince(steps, k, roomId, userId);
    }
    if OutSince(steps, i, roomId, userId) && !TakesOut(last, roomId, userId) {
      var k :| i <= k < |steps| && TakesOut(steps[k], roomId, userId) && NotBackSince(steps, k, roomId, userId);
      assert !PutsIn(steps[n], roomId, userId);
      assert TakesOut(front[k], roomId, userId);
      forall l | k < l < n ensures !PutsIn(front[l], roomId, userId) { assert !PutsIn(steps[l], roomId, userId); }
      assert NotBackSince(front, k, roomId, userId);
    }
  }

  /** A member at one point of a run is a member at a later point exactly unless it is out since. */
  lemma {:induction false} StillMemberIff(steps: seq<Step>, i: nat, roomId: string, userId: string)
    requires i <= |steps| && LastChangeAdded(steps[..i], roomId, userId)
    ensures LastChangeAdded(steps, roomId, userId) <==> !OutSince(steps, i, roomId, userId)
  {
    hide OutSince, TakesOut, PutsIn, WasCreated;
    if i == |steps| {
      assert steps[..i] == steps;
      NeverOutAtOnce(steps, roomId, userId);
    } else {
      var front, last := steps[..|steps| - 1], steps[|steps| - 1];
      assert steps == front + [last] && front[..i] == steps[..i];
      StillMemberIff(front, i, roomId, userId);
      OutSinceSnoc(front, last, i, roomId, userId);
      AddedToCreatedRoom(steps[..i], roomId, userId);
      CreatedStays(front, i, roomId);
      PuttingIsNotTaking(last, roomId, userId);
    }
  }

  lemma NeverOutAtOnce(steps: seq<Step>, roomId: string, userId: string)
    ensures !OutSince(steps, |steps|, roomId, userId)
  {
  }

  lemma PuttingIsNotTaking(step: Step, roomId: string, userId: string)
    ensures !(PutsIn(step, roomId, userId) && TakesOut(step, roomId, userId))
  {
  }

  /** The gate checks membership before the insert, not at the insert. At the moment a message is
      stored its sender is a member if and only if the sender is not out of the room since the
      check at step i: no leave since then, or back in after the last one. */
  lemma StoredByMemberIff(steps: seq<Step>, t: nat, i: nat, id: string, now: Time, m: Message)
    requires AdmittedAt(steps, t, i)
    requires Run(steps + [Insert(t, id, now)]).messages == Run(steps).messages + [m]
    ensures Run(steps + [Insert(t, id, now)]).rooms.Has(m.roomId, m.senderId) <==>
      !OutSince(steps, i, m.roomId, m.senderId)
    ensures steps[i].requester == Some(m.senderId) && steps[i].roomId == m.roomId &&
      TrimSpace(steps[i].content) == m.content
  {
    hide OutSince, LastChangeAdded;
    assert (steps + [Insert(t, id, now)])[..|steps|] == steps;
    assert Run(steps + [Insert(t, id, now)]) == Stepped(Run(steps), Insert(t, id, now));
    assert |Run(steps).messages + [m]| > |Run(steps).messages|;
    var p := Run(steps).pending[t];
    InsertedMessage(Run(steps), t, id, now, m);
    var j := PendingIsAdmitted(steps, t);
    AdmittedOnce(steps, t, i, j);
    GateFollowsHistory(steps[..i], steps[i].requester, steps[i].senderId, p.roomId);
    StillMemberIff(steps, i, p.roomId, p.userId);
    MembershipAgreesWithHistory(steps, p.roomId, p.userId);
  }

  /** Whatever was admitted is stored when it comes to the insert, under the given id and time, unless
      its room or sender is empty or it is blank. */
  lemma {:induction false} AdmittedIsStored(steps: seq<Step>, t: nat, i: nat, id: string, now: Time)
    requires AdmittedAt(steps, t, i)
    ensures steps[i].requester.Some?
    ensures var user, content := steps[i].requester.value, TrimSpace(steps[i].content);
      Run(steps + [Insert(t, id, now)]).messages == Run(steps).messages +
        if user == "" || steps[i].roomId == "" || content == "" then []
        else [Message(id, steps[i].roomId, user, content, now)]
  {
    hide LastChangeAdded, TrimSpace, Checked;
    AdmittedIsPending(steps, t, i);
    assert (steps + [Insert(t, id, now)])[..|steps|] == steps;
  }

  lemma {:induction false} AdmittedIsPending(steps: seq<Step>, t: nat, i: nat)
    requires AdmittedAt(steps, t, i)
    ensures t in Run(steps).pending && steps[i].requester.Some?
    ensures Run(steps).pending[t] == Pending(steps[i].requester.value, steps[i].roomId, steps[i].content)
  {
    hide Checked;
    var n := |steps| - 1;
    var front, last := steps[..n], steps[n];
    if i == n {
      AdmittedIsRequester(Run(front).rooms, last);
    } else {
      assert front[..i] == steps[..i];
      forall k | i < k < n ensures !Issues(front, k, t) && !(front[k].Insert? && front[k].ticket == t) {
        assert front[..k] == steps[..k];
        assert !Issues(steps, k, t);
      }
      AdmittedIsPending(front, t, i);
      assert !Issues(steps, n, t);
    }
  }

  lemma InsertedMessage(s: State, t: nat, id: string, now: Time, m: Message)
    requires t in s.pending && Stepped(s, Insert(t, id, now)).messages == s.messages + [m]
    ensures var p := s.pending[t];
      m == Message(id, p.roomId, p.userId, TrimSpace(p.content), now)
    ensures Stepped(s, Insert(t, id, now)).rooms == s.rooms
  {
    var p := s.pending[t];
    var out := Stored(p.roomId, p.userId, p.content, id, now);
    assert (s.messages + out)[|s.messages|..] == out;
    assert (s.messages + [m])[|s.messages|..] == [m];
  }

  lemma OneLetter()
    ensures TrimSpace("x") == "x"
  {
  }

  /** The check is not the insert: someone who leaves in between still gets its message stored. */
  lemma LeaverCanStillSend() returns (steps: seq<Step>)
    ensures exists m :: m in Run(steps).messages && !Run(steps).rooms.Has(m.roomId, m.senderId)
  {
    hide TrimSpace, Run, Stepped;
    var rooms := Rooms.Store(map["r" := Rooms.Room("r", "room", "u", 0)], map["r" := map["u" := 0]]);
    steps := JoinedRoom(rooms);
    RunOneMore(steps, Check(0, Some("u"), "", "r", "x"));
    RunOneMore(steps + [Check(0, Some("u"), "", "r", "x")], RemoveMember("r", "u"));
    steps := steps + [Check(0, Some("u"), "", "r", "x")] + [RemoveMember("r", "u")];
    RunOneMore(steps, Insert(0, "m", 0));
    SentAfterLeaving(State(rooms, [], map[]));
    steps := steps + [Insert(0, "m", 0)];
    assert Message("m", "r", "u", "x", 0) in Run(steps).messages;
  }

  lemma RunOneMore(steps: seq<Step>, step: Step)
    ensures Run(steps + [step]) == Stepped(Run(steps), step)
  {
    assert (steps + [step])[..|steps|] == steps;
  }

  lemma JoinedRoom(rooms: Rooms.Store) returns (steps: seq<Step>)
    requires rooms == Rooms.Store(map["r" := Rooms.Room("r", "room", "u", 0)], map["r" := map["u" := 0]])
    ensures Run(steps) == State(rooms, [], map[])
  {
    steps := [CreateRoom(Rooms.Room("r", "room", "u", 0))];
    RunOneMore([], steps[0]);
    assert [] + [steps[0]] == steps;
    RunOneMore(steps, AddMember("r", "u", 0));
    assert Run(steps).rooms == Rooms.Store(map["r" := Rooms.Room("r", "room", "u", 0)], map["r" := map[]]);
    steps := steps + [AddMember("r", "u", 0)];
  }

  lemma SentAfterLeaving(s: State)
    requires s.rooms.Has("r", "u") && "r" in s.rooms.rooms && s.messages == []
    ensures var s1 := Stepped(Stepped(s, Check(0, Some("u"), "", "r", "x")), RemoveMember("r", "u"));
      var s2 := Stepped(s1, Insert(0, "m", 0));
      s2.messages == [Message("m", "r", "u", "x", 0)] && !s2.rooms.Has("r", "u")
  {
    OneLetter();
    hide TrimSpace;
  }
}
