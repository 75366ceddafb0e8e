/** Exactly which rooms can be walked: the condition of Pagination is not only enough but needed. */
module WalkCharacterization {
  import opened Sorting
  import opened Strings
  import opened MessageStore
  import opened Pagination
  import opened Units
  import opened Wrappers

  /** On this store every client is served well, whatever limits it asks for and however the
      library's sort breaks ties: its cursors are never refused, and when its walk ends it has
      been shown each message of the room exactly once, newest first. */
  ghost predicate EveryWalkComplete(ms: seq<Message>, roomId: string) {
    forall calls :: ValidWalk(roomId, calls) && OnStore(ms, calls) ==> ServedWell(ms, roomId, calls)
  }

  ghost predicate ServedWell(ms: seq<Message>, roomId: string, calls: seq<Call>)
    requires calls != []
  {
    && DecodeCursor(Last(calls).next).Ok?
    && (Last(calls).next == NoCursor ==> IsWholeRoom(roomId, ms, Output(calls)))
  }

  /** Each message was used as the cursor that led to the next one. */
  ghost predicate Chained(s: seq<Message>) {
    forall i, j | 0 <= i < |s| && j == i + 1 < |s| :: Below(s[j], KeyOf(s[i])) && Survives(s[i])
  }

  lemma {:induction false} ChainedApart(s: seq<Message>, i: nat, j: nat)
    requires Chained(s) && i < j < |s|
    ensures Below(s[j], KeyOf(s[i])) && Survives(s[i])
  {
    if i + 1 < j {
      ChainedApart(s, i, j - 1);
      BelowTransitive(s[j], s[j - 1], KeyOf(s[i]));
    } else {
      assert Below(s[i + 1], KeyOf(s[i]));
    }
  }

  lemma {:induction false} MatchingShrinks(roomId: string, big: Cursor, small: Cursor, ms: seq<Message>, x: Message)
    requires forall m | m in ms && Matches(roomId, small, m) :: Matches(roomId, big, m)
    ensures |Matching(roomId, small, ms)| <= |Matching(roomId, big, ms)|
    ensures x in ms && Matches(roomId, big, x) && !Matches(roomId, small, x) ==>
      |Matching(roomId, small, ms)| < |Matching(roomId, big, ms)|
  {
    if ms != [] {
      var f := ms[..|ms| - 1];
      assert ms == f + [ms[|ms| - 1]];
      MatchingShrinks(roomId, big, small, f, x);
    }
  }

  ghost function OneMessageCall(ms: seq<Message>, cursor: WireCursor, sorted: seq<Message>): Call {
    var r := FirstPage(sorted, 1);
    Call(ms, 1, cursor, r.messages, r.next)
  }

  lemma OneMessagePage(ms: seq<Message>, cursor: WireCursor, sorted: seq<Message>)
    ensures var call := OneMessageCall(ms, cursor, sorted);
      && call.store == ms && call.cursor == cursor
      && call.page == (if sorted == [] then [] else [sorted[0]])
      && (call.next == NoCursor || (sorted != [] && call.next == EncodeCursor(KeyOf(sorted[0]))))
  {
    hide EncodeCursor;
  }

  /** A call for one message, answered with the library's sort. */
  lemma OneMessageIsServed(ms: seq<Message>, roomId: string, cursor: WireCursor, c: Cursor)
    returns (call: Call, sorted: seq<Message>)
    requires roomId != "" && DecodeCursor(cursor) == Ok(c)
    ensures IsSorting(Newer, Matching(roomId, c, ms), sorted)
    ensures call == OneMessageCall(ms, cursor, sorted) && Served(roomId, call)
  {
    NewerIsStrictWeakOrder();
    SortSliceSorts(Newer, Matching(roomId, c, ms));
    sorted := SortSlice(Newer, Matching(roomId, c, ms));
    call := OneMessageCall(ms, cursor, sorted);
    assert EffectiveLimit(call.limit) == 1;
  }

  lemma ExtendWalk(roomId: string, ms: seq<Message>, calls: seq<Call>, call: Call)
    requires ValidWalk(roomId, calls) && OnStore(ms, calls)
    requires Served(roomId, call) && call.store == ms && call.cursor == Last(calls).next != NoCursor
    ensures ValidWalk(roomId, calls + [call]) && OnStore(ms, calls + [call])
    ensures Output(calls + [call]) == Output(calls) + call.page
  {
    var more := calls + [call];
    assert Front(more) == calls && Last(more) == call;
    forall i | 0 < i < |more| ensures Follows(more[i - 1], more[i]) {
      if i < |calls| { assert Follows(calls[i - 1], calls[i]); }
    }
    forall i | 0 <= i < |more| ensures Served(roomId, more[i]) {
      if i < |calls| { assert Served(roomId, calls[i]); }
    }
  }

  /** A client that asks for one message at a time comes to an end, and what it saw is chained. */
  lemma {:induction false} WalkOneByOne(roomId: string, ms: seq<Message>, calls: seq<Call>, c: Cursor)
    returns (full: seq<Call>)
    requires roomId != "" && EveryWalkComplete(ms, roomId)
    requires ValidWalk(roomId, calls) && OnStore(ms, calls) && Chained(Output(calls))
    requires Last(calls).next == NoCursor ||
      (Output(calls) != [] && c == KeyOf(Output(calls)[|Output(calls)| - 1]) && Last(calls).next == EncodeCursor(c))
    ensures ValidWalk(roomId, full) && OnStore(ms, full)
    ensures Last(full).next == NoCursor && Chained(Output(full))
    decreases if Last(calls).next == NoCursor then 0 else 1 + |Matching(roomId, c, ms)|
  {
    if Last(calls).next == NoCursor {
      return calls;
    }
    var out := Output(calls);
    assert ServedWell(ms, roomId, calls);
    CursorRoundTrip(c);
    var call, x := OneMore(roomId, ms, calls, c);
    if x.None? {
      return calls + [call];
    }
    if call.next != NoCursor { CursorShrinks(roomId, ms, c, x.value); }
    full := WalkOneByOne(roomId, ms, calls + [call], KeyOf(x.value));
  }

  /** One more call for one message. */
  lemma OneMore(roomId: string, ms: seq<Message>, calls: seq<Call>, c: Cursor) returns (call: Call, x: Option<Message>)
    requires roomId != "" && ValidWalk(roomId, calls) && OnStore(ms, calls) && Chained(Output(calls))
    requires Output(calls) != [] && c == KeyOf(Output(calls)[|Output(calls)| - 1])
    requires Last(calls).next == EncodeCursor(c) != NoCursor && DecodeCursor(EncodeCursor(c)).Ok?
    ensures ValidWalk(roomId, calls + [call]) && OnStore(ms, calls + [call]) && Chained(Output(calls + [call]))
    ensures Last(calls + [call]) == call
    ensures Output(calls + [call]) == Output(calls) + if x.None? then [] else [x.value]
    ensures x.None? ==> call.next == NoCursor
    ensures x.Some? ==> x.value in ms && Matches(roomId, c, x.value)
    ensures x.Some? ==> call.next == NoCursor || call.next == EncodeCursor(KeyOf(x.value))
  {
    hide IsSorting, Newer;
    var out := Output(calls);
    CursorRoundTrip(c);
    assert Survives(out[|out| - 1]);
    var sorted;
    call, sorted := OneMessageIsServed(ms, roomId, Last(calls).next, c);
    ExtendWalk(roomId, ms, calls, call);
    SortingMembers(Newer, Matching(roomId, c, ms), sorted);
    if sorted == [] {
      x := None;
      assert out + [] == out;
    } else {
      x := Some(sorted[0]);
      MatchingMembers(roomId, c, ms, sorted[0]);
      assert call.page == [sorted[0]];
      assert Below(sorted[0], KeyOf(out[|out| - 1]));
      ChainedExtend(out, sorted[0]);
    }
  }

  lemma ChainedExtend(s: seq<Message>, x: Message)
    requires Chained(s)
    requires s != [] ==> Below(x, KeyOf(s[|s| - 1])) && Survives(s[|s| - 1])
    ensures Chained(s + [x])
  {
    var more := s + [x];
    forall i, j | 0 <= i < |more| && j == i + 1 < |more| ensures Below(more[j], KeyOf(more[i])) && Survives(more[i]) {
      assert more[i] == s[i];
    }
  }

  lemma CursorShrinks(roomId: string, ms: seq<Message>, c: Cursor, x: Message)
    requires x in ms && Matches(roomId, c, x) && !KeyOf(x).IsZero()
    ensures |Matching(roomId, KeyOf(x), ms)| < |Matching(roomId, c, ms)|
  {
    forall m | m in ms && Matches(roomId, KeyOf(x), m) ensures Matches(roomId, c, m) {
      if !c.IsZero() { BelowTransitive(m, x, c); }
    }
    LexTotal(x.id, x.id);
    MatchingShrinks(roomId, c, KeyOf(x), ms, x);
  }

  /** A chained listing orders any two stored messages. */
  lemma ChainedListingIsSafe(ms: seq<Message>, roomId: string, s: seq<Message>)
    requires IsSorting(Newer, InRoom(roomId, ms), s) && Chained(s)
    ensures WalkSafe(ms, roomId)
  {
    forall i, j | 0 <= i < j < |ms| && ms[i].roomId == roomId && ms[j].roomId == roomId
      ensures Precedes(ms[i], ms[j]) || Precedes(ms[j], ms[i])
    {
      var x, y := ms[i], ms[j];
      var p, q := PositionsOf(ms, roomId, s, i, j);
      ChainedApart(s, p, q);
      LexTotal(s[p].id, s[q].id);
      assert !Newer(s[q], s[p]);
    }
  }

  /** Two stored messages of the room sit at two positions of its listing. */
  lemma PositionsOf(ms: seq<Message>, roomId: string, s: seq<Message>, i: nat, j: nat) returns (p: nat, q: nat)
    requires i < j < |ms| && ms[i].roomId == roomId && ms[j].roomId == roomId
    requires multiset(s) == multiset(InRoom(roomId, ms))
    ensures p < q < |s| && ((s[p] == ms[i] && s[q] == ms[j]) || (s[p] == ms[j] && s[q] == ms[i]))
  {
    var x, y := ms[i], ms[j];
    MatchingCounts(roomId, ZERO_CURSOR, ms, x);
    MatchingCounts(roomId, ZERO_CURSOR, ms, y);
    assert x in multiset(ms) && y in multiset(ms);
    assert x in multiset(s) && y in multiset(s);
    if x == y {
      TwoPositions(ms, x);
      TwoPositions(s, x);
      p, q :| 0 <= p < q < |s| && s[p] == x && s[q] == x;
    } else {
      p :| 0 <= p < |s| && s[p] == x;
      q :| 0 <= q < |s| && s[q] == y;
      if q < p { p, q := q, p; }
    }
  }

  /** The exact condition. Every walk over a room is complete if and only if, of any two messages
      of the room, the sort and the cursor agree on which comes first and that one's key survives
      the cursor string. */
  lemma EveryWalkCompleteIffSafe(ms: seq<Message>, roomId: string)
    requires roomId != ""
    ensures EveryWalkComplete(ms, roomId) <==> WalkSafe(ms, roomId)
  {
    hide WalkSafe, IsSorting, Newer;
    if WalkSafe(ms, roomId) {
      forall calls | ValidWalk(roomId, calls) && OnStore(ms, calls) ensures ServedWell(ms, roomId, calls) {
        WalkOverWhenAllAsked(roomId, ms, calls);
        if Last(calls).next == NoCursor { WalkShowsWholeRoom(roomId, ms, calls); }
      }
    }
    if EveryWalkComplete(ms, roomId) {
      CompleteWalksNeedSafety(ms, roomId);
    }
  }

  lemma CompleteWalksNeedSafety(ms: seq<Message>, roomId: string)
    requires roomId != "" && EveryWalkComplete(ms, roomId)
    ensures WalkSafe(ms, roomId)
  {
    hide WalkSafe, IsSorting, Newer;
    var calls, key := FirstOfOne(roomId, ms);
    var full := WalkOneByOne(roomId, ms, calls, key);
    assert ServedWell(ms, roomId, full);
    SortingIsWholeRoom(roomId, ms, Output(full));
    ChainedListingIsSafe(ms, roomId, Output(full));
  }

  /** The first call of a walk for one message at a time. */
  lemma FirstOfOne(roomId: string, ms: seq<Message>) returns (calls: seq<Call>, key: Cursor)
    requires roomId != ""
    ensures ValidWalk(roomId, calls) && OnStore(ms, calls) && Chained(Output(calls))
    ensures Last(calls).next == NoCursor ||
      (Output(calls) != [] && key == KeyOf(Output(calls)[|Output(calls)| - 1]) && Last(calls).next == EncodeCursor(key))
  {
    hide IsSorting, Newer, Below, Survives, Matching, IsResponse, EncodeCursor, Served, OneMessageCall;
    var call, sorted := OneMessageIsServed(ms, roomId, NoCursor, ZERO_CURSOR);
    OneMessagePage(ms, NoCursor, sorted);
    calls := [call];
    assert Front(calls) == [] && Last(calls) == call;
    assert Output([]) == [];
    assert Output(calls) == call.page;
    key := if sorted == [] then ZERO_CURSOR else KeyOf(sorted[0]);
  }

  /** The cursor comparison puts a's time before b's too, or finds them at one wrapped time and
      falls back on the ids. */
  ghost predicate ClocksAgree(a: Message, b: Message) {
    a.createdAt < b.createdAt ==>
      || UnixNano(a.createdAt) < UnixNano(b.createdAt)
      || (UnixNano(a.createdAt) == UnixNano(b.createdAt) && LexLess(a.id, b.id))
  }

  /** For messages with ids and with times that JSON takes, the years 0 to 9999, the exact condition
      is about keys and clocks: no two messages of the room share time and id, and UnixNano, which
      wraps around, turns no two of its times around. */
  lemma EveryWalkCompleteIffClocksAgree(ms: seq<Message>, roomId: string)
    requires roomId != ""
    requires forall m | m in ms && m.roomId == roomId :: Survives(m)
    ensures EveryWalkComplete(ms, roomId) <==>
      forall i, j | 0 <= i < j < |ms| && ms[i].roomId == roomId && ms[j].roomId == roomId ::
        KeyOf(ms[i]) != KeyOf(ms[j]) && ClocksAgree(ms[i], ms[j]) && ClocksAgree(ms[j], ms[i])
  {
    hide EveryWalkComplete, Precedes, ClocksAgree, Survives;
    forall i, j | 0 <= i < j < |ms| && ms[i].roomId == roomId && ms[j].roomId == roomId
      ensures Precedes(ms[i], ms[j]) || Precedes(ms[j], ms[i]) <==>
        KeyOf(ms[i]) != KeyOf(ms[j]) && ClocksAgree(ms[i], ms[j]) && ClocksAgree(ms[j], ms[i])
    {
      assert ms[i] in ms && ms[j] in ms;
      PrecedesIffClocksAgree(ms[i], ms[j]);
    }
    EveryWalkCompleteIffSafe(ms, roomId);
  }

  lemma PrecedesIffClocksAgree(a: Message, b: Message)
    requires Survives(a) && Survives(b)
    ensures Precedes(a, b) || Precedes(b, a) <==> KeyOf(a) != KeyOf(b) && ClocksAgree(a, b) && ClocksAgree(b, a)
  {
    hide UnixNano;
    LexTotal(a.id, b.id);
  }

  /** The stretch of 2^64 nanoseconds a time falls into. UnixNano wraps where a new one begins:
      stretch 0 runs from the year 1677 to the year 2262. */
  function Stretch(t: Time): int { (t + TWO_63) / TWO_64 }

  lemma UnixNanoInStretch(t: Time)
    ensures UnixNano(t) == t - Stretch(t) * TWO_64
  {
  }

  /** No two messages of the room share both time and id. */
  ghost predicate KeysDistinct(ms: seq<Message>, roomId: string) {
    forall i, j | 0 <= i < j < |ms| && ms[i].roomId == roomId && ms[j].roomId == roomId :: KeyOf(ms[i]) != KeyOf(ms[j])
  }

  /** So it is not late times that do harm but a wrap between two messages: if all times of the room
      lie in one stretch, whichever, a walk over it is complete exactly if its keys are distinct. */
  lemma EveryWalkCompleteIffKeysDistinct(ms: seq<Message>, roomId: string, stretch: int)
    requires roomId != ""
    requires forall m | m in ms && m.roomId == roomId :: Survives(m) && Stretch(m.createdAt) == stretch
    ensures EveryWalkComplete(ms, roomId) <==> KeysDistinct(ms, roomId)
  {
    hide EveryWalkComplete, Survives, UnixNano, Stretch;
    forall i, j | 0 <= i < j < |ms| && ms[i].roomId == roomId && ms[j].roomId == roomId
      ensures ClocksAgree(ms[i], ms[j]) && ClocksAgree(ms[j], ms[i])
    {
      assert ms[i] in ms && ms[j] in ms;
      UnixNanoInStretch(ms[i].createdAt);
      UnixNanoInStretch(ms[j].createdAt);
    }
    EveryWalkCompleteIffClocksAgree(ms, roomId);
  }

  /** Stretch 0 is the range in which UnixNano is exact. JSON takes all of its times. */
  lemma NanoRangeIsStretchZero(m: Message)
    ensures InNanoRange(m.createdAt) <==> Stretch(m.createdAt) == 0
    ensures InNanoRange(m.createdAt) && m.id != "" ==> Survives(m)
  {
  }

  /** The times the service lives in: in the range of UnixNano only the keys matter. */
  lemma EveryWalkCompleteInNanoRange(ms: seq<Message>, roomId: string)
    requires roomId != ""
    requires forall m | m in ms && m.roomId == roomId :: m.id != "" && InNanoRange(m.createdAt)
    ensures EveryWalkComplete(ms, roomId) <==> KeysDistinct(ms, roomId)
  {
    hide EveryWalkComplete, KeysDistinct, Survives, Stretch, InNanoRange;
    forall m | m in ms && m.roomId == roomId ensures Survives(m) && Stretch(m.createdAt) == 0 {
      NanoRangeIsStretchZero(m);
    }
    EveryWalkCompleteIffKeysDistinct(ms, roomId, 0);
  }

  /** In a room with two messages of one key, whatever else it holds, some client misses a message
      or has a cursor refused. */
  lemma SharedKeyBreaksWalks(ms: seq<Message>, i: nat, j: nat)
    requires i < j < |ms| && ms[i].roomId == ms[j].roomId != "" && KeyOf(ms[i]) == KeyOf(ms[j])
    ensures !EveryWalkComplete(ms, ms[i].roomId)
  {
    hide EveryWalkComplete;
    LexTotal(ms[i].id, ms[j].id);
    assert !Precedes(ms[i], ms[j]) && !Precedes(ms[j], ms[i]);
    EveryWalkCompleteIffSafe(ms, ms[i].roomId);
  }

  /** The same goes for a room with two messages whose times the wrap turns around. */
  lemma WrapBreaksWalks(ms: seq<Message>, i: nat, j: nat)
    requires i < |ms| && j < |ms| && ms[i].roomId == ms[j].roomId != ""
    requires ms[i].createdAt < ms[j].createdAt && UnixNano(ms[j].createdAt) < UnixNano(ms[i].createdAt)
    ensures !EveryWalkComplete(ms, ms[i].roomId)
  {
    hide EveryWalkComplete, UnixNano;
    assert !Precedes(ms[i], ms[j]) && !Precedes(ms[j], ms[i]);
    EveryWalkCompleteIffSafe(ms, ms[i].roomId);
  }

  /** Which pairs those are: the wrap turns two times around exactly if they are closer to each
      other than the stretches between them are long. For one time in stretch 0 and one beyond it
      in stretch 1: if less than 2^64 nanoseconds, some 584 years, lie between them. */
  lemma WrapTurnsAround(early: Time, late: Time)
    ensures UnixNano(late) < UnixNano(early) <==> late - early < (Stretch(late) - Stretch(early)) * TWO_64
    ensures Stretch(early) == 0 && Stretch(late) == 1 ==> (UnixNano(late) < UnixNano(early) <==> late < early + TWO_64)
  {
    UnixNanoInStretch(early);
    UnixNanoInStretch(late);
  }

  /** What Send stores under fresh ids, with the clock in range, can always be walked: neither of
      the two cases arises. */
  lemma FreshIdsMakeCompleteWalks(ms: seq<Message>, roomId: string)
    requires roomId != ""
    requires forall i, j | 0 <= i < j < |ms| :: ms[i].id != ms[j].id
    requires forall m | m in ms && m.roomId == roomId :: m.id != "" && InNanoRange(m.createdAt)
    ensures EveryWalkComplete(ms, roomId)
  {
    hide EveryWalkComplete, InNanoRange;
    EveryWalkCompleteInNanoRange(ms, roomId);
  }
}
