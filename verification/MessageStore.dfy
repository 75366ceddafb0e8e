/** The in-memory message repository of chat-service. */
module MessageStore {
  import opened Sorting
  import opened Strings
  import opened Units

  const TWO_63 := 0x8000_0000_0000_0000
  const TWO_64 := 0x1_0000_0000_0000_0000

  // The zero time.Time: 1 January of the year 1, UTC.
  const ZERO_TIME: Time := -62135596800 * 1_000_000_000

  /** Time.UnixNano: the count of nanoseconds wraps around in an int64. */
  function UnixNano(t: Time): int {
    (t + TWO_63) % TWO_64 - TWO_63
  }

  ghost predicate InNanoRange(t: Time) { -TWO_63 <= t < TWO_63 }

  datatype Message = Message(id: string, roomId: string, senderId: string, content: string, createdAt: Time)

  datatype Cursor = Cursor(createdAt: Time, id: string) {
    predicate IsZero() { id == "" && createdAt == ZERO_TIME }
  }

  const ZERO_CURSOR := Cursor(ZERO_TIME, "")

  function KeyOf(m: Message): Cursor { Cursor(m.createdAt, m.id) }

  predicate LessThan(createdNs: int, id: string, cursorNs: int, cursorId: string) {
    if createdNs != cursorNs then createdNs < cursorNs else LexLess(id, cursorId)
  }

  /** The cursor comparison: what lies strictly below the cursor is still to be listed. */
  predicate Below(m: Message, c: Cursor) {
    LessThan(UnixNano(m.createdAt), m.id, UnixNano(c.createdAt), c.id)
  }

  /** The sort comparison: newest first, then larger id first. */
  predicate Newer(a: Message, b: Message) {
    if a.createdAt != b.createdAt then a.createdAt > b.createdAt else LexLess(b.id, a.id)
  }

  predicate Matches(roomId: string, cursor: Cursor, m: Message) {
    m.roomId == roomId && (cursor.IsZero() || Below(m, cursor))
  }

  function Matching(roomId: string, cursor: Cursor, ms: seq<Message>): seq<Message> {
    if ms == [] then []
    else
      var last := ms[|ms| - 1];
      Matching(roomId, cursor, ms[..|ms| - 1]) + (if Matches(roomId, cursor, last) then [last] else [])
  }

  function InRoom(roomId: string, ms: seq<Message>): seq<Message> { Matching(roomId, ZERO_CURSOR, ms) }

  function Cut<T>(s: seq<T>, limit: int): seq<T> {
    if limit > 0 && |s| > limit then s[..limit] else s
  }

  /** A listing is a cut of *some* sorting of the matching messages. */
  ghost predicate IsListing(ms: seq<Message>, roomId: string, limit: int, cursor: Cursor, out: seq<Message>) {
    exists sorted :: IsSorting(Newer, Matching(roomId, cursor, ms), sorted) && out == Cut(sorted, limit)
  }

  class InMemRepository {
    var messages: seq<Message>

    constructor ()
      ensures messages == []
    {
      messages := [];
    }

    method Insert(m: Message)
      modifies this
      ensures messages == old(messages) + [m]
    {
      messages := messages + [m];
    }

    method ListByRoom(roomId: string, limit: int, cursor: Cursor) returns (out: seq<Message>)
      ensures IsListing(messages, roomId, limit, cursor, out)
    {
      var filtered := [];
      var i := 0;
      while i < |messages|
        invariant 0 <= i <= |messages|
        invariant filtered == Matching(roomId, cursor, messages[..i])
      {
        var m := messages[i];
        i := i + 1;
        assert messages[..i][..|messages[..i]| - 1] == messages[..i - 1];
        if m.roomId != roomId {
          continue;
        }
        if !cursor.IsZero() {
          if !LessThan(UnixNano(m.createdAt), m.id, UnixNano(cursor.createdAt), cursor.id) {
            continue;
          }
        }
        filtered := filtered + [m];
      }
      assert messages[..i] == messages;
      NewerIsStrictWeakOrder();
      SortSliceSorts(Newer, filtered);
      out := SortSlice(Newer, filtered);
      if limit > 0 && |out| > limit {
        out := out[..limit];
      }
    }
  }

  lemma NewerIsStrictWeakOrder()
    ensures StrictWeakOrder(Newer)
  {
    forall a, b | Newer(a, b) ensures !Newer(b, a) { LexTotal(a.id, b.id); }
    forall a, b, c | !Newer(a, b) && !Newer(b, c) ensures !Newer(a, c) {
      LexTotal(a.id, b.id);
      LexTotal(b.id, c.id);
      LexTotal(a.id, c.id);
      if LexLess(a.id, b.id) && LexLess(b.id, c.id) { LexTransitive(a.id, b.id, c.id); }
    }
  }

  lemma NewerTransitive(a: Message, b: Message, c: Message)
    requires Newer(a, b) && Newer(b, c)
    ensures Newer(a, c)
  {
    if a.createdAt == b.createdAt == c.createdAt { LexTransitive(c.id, b.id, a.id); }
  }

  lemma BelowTransitive(a: Message, b: Message, c: Cursor)
    requires Below(a, KeyOf(b)) && Below(b, c)
    ensures Below(a, c)
  {
    if UnixNano(a.createdAt) == UnixNano(b.createdAt) == UnixNano(c.createdAt) {
      LexTransitive(a.id, b.id, c.id);
    }
  }

  lemma BelowAsymmetric(a: Message, b: Message)
    requires Below(a, KeyOf(b))
    ensures !Below(b, KeyOf(a))
  {
    LexTotal(a.id, b.id);
  }

  /** The sort comparison is the exact reverse of the cursor comparison, in the range in which
      UnixNano is defined. */
  lemma NewerReversesBelow(a: Message, b: Message)
    requires InNanoRange(a.createdAt) && InNanoRange(b.createdAt)
    ensures Newer(a, b) <==> Below(b, KeyOf(a))
    ensures Newer(a, b) || Newer(b, a) || KeyOf(a) == KeyOf(b)
  {
    assert UnixNano(a.createdAt) == a.createdAt;
    assert UnixNano(b.createdAt) == b.createdAt;
    LexTotal(a.id, b.id);
  }

  /** Filtering keeps every matching message as often as it is stored, and nothing else. */
  lemma {:induction false} MatchingCounts(roomId: string, cursor: Cursor, ms: seq<Message>, m: Message)
    ensures multiset(Matching(roomId, cursor, ms))[m] == if Matches(roomId, cursor, m) then multiset(ms)[m] else 0
  {
    if ms != [] {
      MatchingCounts(roomId, cursor, ms[..|ms| - 1], m);
      assert ms == ms[..|ms| - 1] + [ms[|ms| - 1]];
    }
  }

  lemma MatchingMembers(roomId: string, cursor: Cursor, ms: seq<Message>, m: Message)
    ensures m in Matching(roomId, cursor, ms) <==> m in ms && Matches(roomId, cursor, m)
  {
    MatchingCounts(roomId, cursor, ms, m);
    assert m in Matching(roomId, cursor, ms) <==> m in multiset(Matching(roomId, cursor, ms));
    assert m in ms <==> m in multiset(ms);
  }

  lemma {:induction false} MatchingAppend(roomId: string, cursor: Cursor, a: seq<Message>, b: seq<Message>)
    ensures Matching(roomId, cursor, a + b) == Matching(roomId, cursor, a) + Matching(roomId, cursor, b)
  {
    if b == [] {
      assert a + b == a;
    } else {
      assert (a + b)[..|a + b| - 1] == a + b[..|b| - 1];
      MatchingAppend(roomId, cursor, a, b[..|b| - 1]);
    }
  }

  lemma {:induction false} MatchingAll(roomId: string, cursor: Cursor, ms: seq<Message>)
    requires forall m | m in ms :: Matches(roomId, cursor, m)
    ensures Matching(roomId, cursor, ms) == ms
  {
    if ms != [] {
      MatchingAll(roomId, cursor, ms[..|ms| - 1]);
      assert ms == ms[..|ms| - 1] + [ms[|ms| - 1]];
    }
  }

  lemma {:induction false} MatchingNone(roomId: string, cursor: Cursor, ms: seq<Message>)
    requires forall m | m in ms :: !Matches(roomId, cursor, m)
    ensures Matching(roomId, cursor, ms) == []
  {
    if ms != [] {
      MatchingNone(roomId, cursor, ms[..|ms| - 1]);
      assert ms[|ms| - 1] in ms;
    }
  }
}
