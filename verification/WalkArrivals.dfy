/** Messages that arrive while a client walks: exactly which of them it is shown. */
module WalkArrivals {
  import opened Sorting
  import opened Strings
  import opened MessageStore
  import opened Pagination
  import opened Wrappers

  /** What one call adds to a walk: matching messages only, and what matches but is not on the page
      lies below its last message. */
  ghost predicate PageSplits(roomId: string, call: Call, cur: Cursor) {
    && (forall x | x in call.page :: Matches(roomId, cur, x))
    && (call.next != NoCursor ==> call.page != [])
    && forall m | m in call.store && Matches(roomId, cur, m) ::
         m in call.page || (call.next != NoCursor && call.page != [] && Below(m, KeyOf(call.page[|call.page| - 1])))
  }

  lemma PageOfCall(roomId: string, call: Call, cur: Cursor)
    requires roomId != "" && WalkSafe(call.store, roomId) && Served(roomId, call) &&
      DecodeCursor(call.cursor) == Ok(cur)
    ensures PageSplits(roomId, call, cur)
  {
    hide WalkSafe, IsSorting, Newer, Below, Matching, IsResponse;
    var limit := EffectiveLimit(call.limit);
    var sorted := SortingServed(roomId, call, cur);
    SafeSorting(call.store, roomId, cur, sorted);
    forall x | x in call.page ensures Matches(roomId, cur, x) {
      assert x in sorted;
    }
    forall m | m in call.store && Matches(roomId, cur, m)
      ensures |sorted| <= limit ==> m in sorted
      ensures |sorted| > limit ==> m in sorted[..limit] || Below(m, KeyOf(sorted[limit - 1]))
    {
      LeftForLater(call.store, roomId, cur, sorted, limit, m);
    }
    if |sorted| > limit { SafeNeighbours(call.store, roomId, cur, sorted, limit); }
  }

  /** How things stand since a call that carried cursor c: everything shown since matches c, and each
      message that was stored by then and matches c has been shown or is still below the cursor. */
  ghost predicate SinceCursor(roomId: string, store: seq<Message>, c: Cursor, before: seq<Message>, out: seq<Message>,
          next: WireCursor)
  {
    && (forall x | x in out :: x in before || Matches(roomId, c, x))
    && (next != NoCursor ==> out != [] && Matches(roomId, c, out[|out| - 1]))
    && forall m | m in store && Matches(roomId, c, m) ::
         m in out || (next != NoCursor && out != [] && Below(m, KeyOf(out[|out| - 1])))
  }

  /** The first call since. */
  lemma FirstSince(roomId: string, call: Call, c: Cursor, out: seq<Message>)
    requires PageSplits(roomId, call, c)
    ensures SinceCursor(roomId, call.store, c, out, out + call.page, call.next)
  {
    hide Below, Matches;
    var all := out + call.page;
    if call.next != NoCursor { assert all[|all| - 1] == call.page[|call.page| - 1]; }
  }

  /** A later call, which carries the cursor of the last message shown. */
  lemma NextSince(roomId: string, store: seq<Message>, c: Cursor, before: seq<Message>, out: seq<Message>,
          next: WireCursor, call: Call)
    requires next != NoCursor && SinceCursor(roomId, store, c, before, out, next)
    requires !KeyOf(out[|out| - 1]).IsZero() && PageSplits(roomId, call, KeyOf(out[|out| - 1])) && store <= call.store
    ensures SinceCursor(roomId, store, c, before, out + call.page, call.next)
  {
    hide Below;
    var last, all := out[|out| - 1], out + call.page;
    if call.next != NoCursor { assert all[|all| - 1] == call.page[|call.page| - 1]; }
    forall x | x in call.page ensures Matches(roomId, c, x) {
      assert Matches(roomId, KeyOf(last), x);
      if !c.IsZero() { BelowTransitive(x, last, c); }
    }
    forall m | m in store && Matches(roomId, c, m) && m !in out
      ensures m in call.page || (call.next != NoCursor && Below(m, KeyOf(call.page[|call.page| - 1])))
    {
      assert Matches(roomId, KeyOf(last), m);
    }
  }

  lemma {:induction false} WalkSince(roomId: string, calls: seq<Call>, k: nat) returns (c: Cursor)
    requires roomId != "" && ValidWalk(roomId, calls) && WalkSafe(Last(calls).store, roomId) && k < |calls|
    ensures DecodeCursor(calls[k].cursor) == Ok(c) && calls[k].store <= Last(calls).store
    ensures SinceCursor(roomId, calls[k].store, c, Output(calls[..k]), Output(calls), Last(calls).next)
  {
    hide WalkSafe, IsResponse, SinceCursor, PageSplits, Below, Newer;
    var call, front := Last(calls), Front(calls);
    assert Served(roomId, call);
    var cur := CallIsReady(roomId, calls);
    PageOfCall(roomId, call, cur);
    if k == |calls| - 1 {
      c := cur;
      FirstSince(roomId, call, c, Output(front));
    } else {
      WalkFront(roomId, calls);
      WalkSafePrefix(Last(front).store, call.store, roomId);
      c := WalkSince(roomId, front, k);
      assert front[..k] == calls[..k];
      OutputAtCursor(roomId, calls, cur);
      NextSince(roomId, calls[k].store, c, Output(calls[..k]), Output(front), Last(front).next, call);
    }
  }

  lemma OutputAtCursor(roomId: string, calls: seq<Call>, cur: Cursor)
    requires roomId != "" && ValidWalk(roomId, calls) && |calls| > 1 && DecodeCursor(Last(calls).cursor) == Ok(cur)
    requires ReadyFor(roomId, Last(calls), cur, Output(Front(calls)))
    ensures !cur.IsZero() && Output(Front(calls)) != [] &&
      cur == KeyOf(Output(Front(calls))[|Output(Front(calls))| - 1])
  {
    WalkFront(roomId, calls);
  }

  /** What was shown before call k was stored by the call before it. */
  lemma {:induction false} ShownWasStored(roomId: string, calls: seq<Call>, k: nat, m: Message)
    requires roomId != "" && ValidWalk(roomId, calls) && WalkSafe(Last(calls).store, roomId) && k < |calls|
    requires m in Output(calls[..k])
    ensures k > 0 && m in calls[k - 1].store
  {
    var f := calls[..k];
    assert Last(f) == calls[k - 1];
    forall i | 0 < i < k ensures Follows(f[i - 1], f[i]) { assert Follows(calls[i - 1], calls[i]); }
    var c := WalkSince(roomId, calls, k - 1);
    WalkSafePrefix(calls[k - 1].store, Last(calls).store, roomId);
    WalkInvariant(roomId, f);
  }

  /** A message that came in just before call k of a walk, and after the call before, is shown by the
      time the walk is over if and only if it lies below the cursor that call k carries. So a client
      misses exactly what is inserted above its cursor. */
  lemma {:induction false} ArrivalIsShownIff(roomId: string, calls: seq<Call>, k: nat, m: Message)
    requires roomId != "" && ValidWalk(roomId, calls) && WalkSafe(Last(calls).store, roomId)
    requires Last(calls).next == NoCursor
    requires k < |calls| && m in calls[k].store && m.roomId == roomId && (k > 0 ==> m !in calls[k - 1].store)
    ensures DecodeCursor(calls[k].cursor).Ok?
    ensures m in Output(calls) <==> Matches(roomId, DecodeCursor(calls[k].cursor).value, m)
  {
    hide WalkSafe, ValidWalk;
    var c := WalkSince(roomId, calls, k);
    if m in Output(calls[..k]) { ShownWasStored(roomId, calls, k, m); }
  }
}
