/** The message service of chat-service: cursors, pages, and what a client that follows
    `next_cursor` from page to page is served. */
module Pagination {
  import opened Sorting
  import opened Strings
  import opened MessageStore
  import opened Units
  import opened Wrappers

  const DEFAULT_LIST_LIMIT := 50
  const MAX_LIST_LIMIT := 200

  datatype Error = InvalidArgument | InvalidCursor
  type Result<+T> = Wrappers.Result<T, Error>

  /** The cursor string. `Garbage` is any text that base64 or JSON refuses; `Token` is text that
      carries a time and an id. */
  datatype WireCursor = NoCursor | Garbage | Token(c: Time, i: string)

  datatype Response = Page(messages: seq<Message>, next: WireCursor) | Failed(error: Error)

  function EffectiveLimit(limit: int): (l: int)
    ensures 1 <= l <= MAX_LIST_LIMIT
    ensures 1 <= limit <= MAX_LIST_LIMIT ==> l == limit
    ensures limit <= 0 ==> l == 50
    ensures limit > MAX_LIST_LIMIT ==> l == 200
  {
    if limit <= 0 then DEFAULT_LIST_LIMIT
    else if limit > MAX_LIST_LIMIT then MAX_LIST_LIMIT
    else limit
  }

  // Time.MarshalJSON fails outside the years 0 to 9999.
  predicate JsonTime(t: Time) {
    -62167219200 * 1_000_000_000 <= t < 253402300800 * 1_000_000_000
  }

  function EncodeCursor(c: Cursor): WireCursor {
    if c.IsZero() then NoCursor
    else if !JsonTime(c.createdAt) then NoCursor  // the error is dropped, and no bytes encode to ""
    else Token(c.createdAt, c.id)
  }

  function DecodeCursor(s: WireCursor): Result<Cursor> {
    match s
    case NoCursor => Ok(ZERO_CURSOR)
    case Garbage => Err(InvalidCursor)
    case Token(c, i) => if i == "" then Err(InvalidCursor) else Ok(Cursor(c, i))
  }

  lemma CursorRoundTrip(c: Cursor)
    ensures DecodeCursor(EncodeCursor(c)) == Ok(c) <==> c.IsZero() || (c.id != "" && JsonTime(c.createdAt))
  {
    assert c.IsZero() <==> c == ZERO_CURSOR;
  }

  /** The exact round trip of the cursor string: the zero cursor, at the first instant of the year 1,
      and cursors with an id and a time from the start of the year 0 to the end of the year 9999. */
  lemma CursorComesBackIff(c: Cursor)
    ensures DecodeCursor(EncodeCursor(c)) == Ok(c) <==>
      || c == Cursor(-62_135_596_800_000_000_000, "")
      || (c.id != "" && -62_167_219_200_000_000_000 <= c.createdAt < 253_402_300_800_000_000_000)
  {
    CursorRoundTrip(c);
  }

  function FirstPage(sorted: seq<Message>, limit: int): Response
    requires limit >= 1
  {
    if |sorted| > limit
    then Page(sorted[..limit], EncodeCursor(KeyOf(sorted[limit - 1])))
    else Page(sorted, NoCursor)
  }

  ghost predicate IsResponse(ms: seq<Message>, roomId: string, limit: int, cursor: WireCursor, r: Response) {
    if roomId == "" then r == Failed(InvalidArgument)
    else match DecodeCursor(cursor)
      case Err(e) => r == Failed(e)
      case Ok(c) => exists sorted ::
        IsSorting(Newer, Matching(roomId, c, ms), sorted) && r == FirstPage(sorted, EffectiveLimit(limit))
  }

  /** The request is refused: no room, or a cursor that does not decode to a time and an id. */
  predicate BadRequest(roomId: string, cursor: WireCursor) {
    roomId == "" || cursor.Garbage? || (cursor.Token? && cursor.i == "")
  }

  /** Newest first, and the larger id first among messages of one instant. */
  ghost predicate NewestFirst(ms: seq<Message>) {
    forall i, j | 0 <= i < j < |ms| ::
      || ms[i].createdAt > ms[j].createdAt
      || (ms[i].createdAt == ms[j].createdAt && (ms[i].id == ms[j].id || LexLess(ms[j].id, ms[i].id)))
  }

  /** What a cursor string asks for: the messages of the room below its time and id, or all of them. */
  ghost predicate MatchesWire(roomId: string, cursor: WireCursor, m: Message) {
    && m.roomId == roomId
    && (cursor.Token? ==>
          || UnixNano(m.createdAt) < UnixNano(cursor.c)
          || (UnixNano(m.createdAt) == UnixNano(cursor.c) && LexLess(m.id, cursor.i)))
  }

  /** What any answer shows, without a word about how it is found: messages of the room, newest first,
      no more than the limit, all below the cursor; a page that is not full leaves none of them out and
      comes without a cursor, and no full page leaves out a newer one than it shows. */
  ghost predicate Shows(ms: seq<Message>, roomId: string, limit: int, cursor: WireCursor,
                        page: seq<Message>, next: WireCursor)
  {
    && NewestFirst(page) && |page| <= EffectiveLimit(limit)
    && (forall m | m in page :: m in ms && MatchesWire(roomId, cursor, m))
    && (|page| < EffectiveLimit(limit) ==> next == NoCursor)
    && (next != NoCursor ==> page != [] && next == Token(page[|page| - 1].createdAt, page[|page| - 1].id))
    && (|page| < EffectiveLimit(limit) ==> forall m | m in ms && MatchesWire(roomId, cursor, m) :: m in page)
    && (forall m, x | m in ms && MatchesWire(roomId, cursor, m) && m !in page && x in page ::
          x.createdAt >= m.createdAt)
  }

  lemma ResponseShows(ms: seq<Message>, roomId: string, limit: int, cursor: WireCursor, r: Response)
    requires IsResponse(ms, roomId, limit, cursor, r)
    ensures r.Failed? <==> BadRequest(roomId, cursor)
    ensures r.Failed? ==> r.error == if roomId == "" then InvalidArgument else InvalidCursor
    ensures r.Page? ==> Shows(ms, roomId, limit, cursor, r.messages, r.next)
  {
    hide Matching, IsSorting, Shows, EncodeCursor, EffectiveLimit;
    if !BadRequest(roomId, cursor) {
      var c := DecodeCursor(cursor).value;
      var sorted :| IsSorting(Newer, Matching(roomId, c, ms), sorted) && r == FirstPage(sorted, EffectiveLimit(limit));
      PageShows(ms, roomId, limit, cursor, c, sorted);
    }
  }

  lemma PageShows(ms: seq<Message>, roomId: string, limit: int, cursor: WireCursor, c: Cursor, sorted: seq<Message>)
    requires IsSorting(Newer, Matching(roomId, c, ms), sorted) && DecodeCursor(cursor) == Ok(c)
    ensures var r := FirstPage(sorted, EffectiveLimit(limit));
      Shows(ms, roomId, limit, cursor, r.messages, r.next)
  {
    hide *;
    ListingHolds(ms, roomId, cursor, c, sorted);
    PageIsPrefix(sorted, EffectiveLimit(limit));
    PrefixShows(ms, roomId, limit, cursor, sorted, FirstPage(sorted, EffectiveLimit(limit)));
  }

  lemma PrefixShows(ms: seq<Message>, roomId: string, limit: int, cursor: WireCursor, sorted: seq<Message>, r: Response)
    requires NewestFirst(sorted) && forall m :: m in sorted <==> m in ms && MatchesWire(roomId, cursor, m)
    requires IsPrefixPage(sorted, EffectiveLimit(limit), r)
    ensures Shows(ms, roomId, limit, cursor, r.messages, r.next)
  {
    hide MatchesWire, NewestFirst, EffectiveLimit;
    PrefixIsNewestFirst(sorted, r.messages);
    forall m | m in r.messages ensures m in sorted { PrefixMember(r.messages, sorted, m); }
    if |r.messages| < EffectiveLimit(limit) { assert r.messages == sorted; }
    forall m, x | m in ms && MatchesWire(roomId, cursor, m) && m !in r.messages && x in r.messages
      ensures x.createdAt >= m.createdAt
    {
      LeftOutIsOlder(sorted, r.messages, m, x);
    }
  }

  ghost predicate IsPrefixPage(sorted: seq<Message>, l: int, r: Response) {
    && r.Page? && r.messages <= sorted && |r.messages| == (if |sorted| > l then l else |sorted|)
    && (r.next != NoCursor ==>
          && |sorted| > l && r.messages != []
          && r.next == Token(r.messages[|r.messages| - 1].createdAt, r.messages[|r.messages| - 1].id))
  }

  lemma LeftOutIsOlder(sorted: seq<Message>, page: seq<Message>, m: Message, x: Message)
    requires NewestFirst(sorted) && page <= sorted && m in sorted && m !in page && x in page
    ensures x.createdAt >= m.createdAt
  {
    var i :| 0 <= i < |page| && page[i] == x;
    var j :| 0 <= j < |sorted| && sorted[j] == m;
    assert forall k | 0 <= k < |page| :: page[k] == sorted[k];
  }

  lemma PrefixMember<T>(s: seq<T>, t: seq<T>, x: T)
    requires s <= t && x in s
    ensures x in t
  {
  }

  lemma PrefixIsNewestFirst(sorted: seq<Message>, page: seq<Message>)
    requires NewestFirst(sorted) && page <= sorted
    ensures NewestFirst(page)
  {
  }

  lemma ListingHolds(ms: seq<Message>, roomId: string, cursor: WireCursor, c: Cursor, sorted: seq<Message>)
    requires IsSorting(Newer, Matching(roomId, c, ms), sorted) && DecodeCursor(cursor) == Ok(c)
    ensures NewestFirst(sorted) && forall m :: m in sorted <==> m in ms && MatchesWire(roomId, cursor, m)
  {
    hide Matching, Newer, Matches, MatchesWire, DecodeCursor, NewestFirst;
    ListingIsNewestFirst(sorted);
    SortingMembers(Newer, Matching(roomId, c, ms), sorted);
    forall m ensures m in sorted <==> m in ms && MatchesWire(roomId, cursor, m) {
      MatchingMembers(roomId, c, ms, m);
      MatchesIsWire(roomId, cursor, c, m);
    }
  }

  lemma MatchesIsWire(roomId: string, cursor: WireCursor, c: Cursor, m: Message)
    requires DecodeCursor(cursor) == Ok(c)
    ensures Matches(roomId, c, m) <==> MatchesWire(roomId, cursor, m)
  {
    hide LexLess, UnixNano;
    TokenIsCursor(cursor, c);
  }

  lemma PageIsPrefix(sorted: seq<Message>, l: int)
    requires l >= 1
    ensures IsPrefixPage(sorted, l, FirstPage(sorted, l))
  {
  }

  lemma TokenIsCursor(cursor: WireCursor, c: Cursor)
    requires DecodeCursor(cursor) == Ok(c)
    ensures cursor.Token? ==> !c.IsZero() && c == Cursor(cursor.c, cursor.i)
    ensures cursor == NoCursor ==> c.IsZero()
  {
  }

  lemma ListingIsNewestFirst(sorted: seq<Message>)
    requires SortedBy(Newer, sorted)
    ensures NewestFirst(sorted)
  {
    forall i, j | 0 <= i < j < |sorted|
      ensures sorted[i].createdAt >= sorted[j].createdAt
      ensures sorted[i].createdAt == sorted[j].createdAt ==>
        sorted[i].id == sorted[j].id || LexLess(sorted[j].id, sorted[i].id)
    {
      assert !Newer(sorted[j], sorted[i]);
      LexTotal(sorted[i].id, sorted[j].id);
    }
  }

  /** Listing limit + 1 messages and cutting the last one makes the first page of the listing. */
  lemma ListingGivesPage(ms: seq<Message>, roomId: string, c: Cursor, limit: int, msgs: seq<Message>)
    returns (sorted: seq<Message>)
    requires limit >= 1 && IsListing(ms, roomId, limit + 1, c, msgs)
    ensures IsSorting(Newer, Matching(roomId, c, ms), sorted)
    ensures FirstPage(sorted, limit) ==
      if |msgs| > limit then Page(msgs[..limit], EncodeCursor(KeyOf(msgs[limit - 1]))) else Page(msgs, NoCursor)
  {
    sorted :| IsSorting(Newer, Matching(roomId, c, ms), sorted) && msgs == Cut(sorted, limit + 1);
    if |msgs| > limit { assert msgs[..limit] == sorted[..limit]; }
  }

  class Service {
    const repo: InMemRepository

    constructor (repo: InMemRepository)
      ensures this.repo == repo
    {
      this.repo := repo;
    }

    /** The message id and the clock reading come from outside. */
    method Send(roomId: string, senderId: string, content: string, id: string, now: Time)
      returns (r: Result<Message>)
      modifies repo
      ensures r.Ok? <==> senderId != "" && roomId != "" && TrimSpace(content) != ""
      ensures r.Ok? ==> r.value == Message(id, roomId, senderId, TrimSpace(content), now)
      ensures r.Ok? ==> repo.messages == old(repo.messages) + [r.value]
      ensures r.Err? ==> r.error == InvalidArgument && repo.messages == old(repo.messages)
    {
      if senderId == "" || roomId == "" {
        return Err(InvalidArgument);
      }
      var trimmed := TrimSpace(content);
      if trimmed == "" {
        return Err(InvalidArgument);
      }
      var m := Message(id, roomId, senderId, trimmed, now);
      repo.Insert(m);
      return Ok(m);
    }

    method GetMessages(roomId: string, limit: int, cursor: WireCursor) returns (r: Response)
      ensures IsResponse(repo.messages, roomId, limit, cursor, r)
      ensures r.Failed? <==> BadRequest(roomId, cursor)
      ensures r.Failed? ==> r.error == if roomId == "" then InvalidArgument else InvalidCursor
      ensures r.Page? ==> Shows(repo.messages, roomId, limit, cursor, r.messages, r.next)
    {
      if roomId == "" {
        return Failed(InvalidArgument);
      }
      var cur := DecodeCursor(cursor);
      if cur.Err? {
        return Failed(cur.error);
      }
      var l := EffectiveLimit(limit);
      var msgs := repo.ListByRoom(roomId, l + 1, cur.value);
      ghost var sorted := ListingGivesPage(repo.messages, roomId, cur.value, l, msgs);
      var next := NoCursor;
      if |msgs| > l {
        var last := msgs[l - 1];
        next := EncodeCursor(Cursor(last.createdAt, last.id));
        msgs := msgs[..l];
      }
      r := Page(msgs, next);
      assert r == FirstPage(sorted, l);
      ResponseShows(repo.messages, roomId, limit, cursor, r);
    }
  }

  // ---------------------------------------------------------------- a client's walk

  /** One call of a walk, with the store as it was when the call was served. */
  datatype Call = Call(store: seq<Message>, limit: int, cursor: WireCursor, page: seq<Message>, next: WireCursor)

  /** A walk starts without a cursor and hands back each cursor it gets. Messages may be
      inserted between calls, so the store only grows. */
  ghost predicate ValidWalk(roomId: string, calls: seq<Call>) {
    && |calls| > 0
    && calls[0].cursor == NoCursor
    && (forall i | 0 <= i < |calls| :: Served(roomId, calls[i]))
    && (forall i | 0 < i < |calls| :: Follows(calls[i - 1], calls[i]))
  }

  ghost predicate Served(roomId: string, call: Call) {
    IsResponse(call.store, roomId, call.limit, call.cursor, Page(call.page, call.next))
  }

  ghost predicate Follows(a: Call, b: Call) {
    a.next != NoCursor && b.cursor == a.next && a.store <= b.store
  }

  ghost predicate OnStore(ms: seq<Message>, calls: seq<Call>) {
    forall i | 0 <= i < |calls| :: calls[i].store == ms
  }

  ghost function Last(calls: seq<Call>): Call
    requires calls != []
  {
    calls[|calls| - 1]
  }

  ghost function Front(calls: seq<Call>): seq<Call>
    requires calls != []
  {
    calls[..|calls| - 1]
  }

  /** Everything the client was shown, in order. */
  ghost function Output(calls: seq<Call>): seq<Message> {
    if calls == [] then [] else Output(Front(calls)) + Last(calls).page
  }

  /** How many messages the calls asked for. */
  ghost function Asked(calls: seq<Call>): nat {
    if calls == [] then 0 else Asked(Front(calls)) + EffectiveLimit(Last(calls).limit)
  }

  // ---------------------------------------------------------------- when a room can be walked

  /** A cursor made from this message comes back as that message's key. */
  ghost predicate Survives(m: Message) { m.id != "" && JsonTime(m.createdAt) }

  /** The sort and the cursor agree that b comes after a, and a can serve as a cursor. */
  ghost predicate Precedes(a: Message, b: Message) {
    Newer(a, b) && Below(b, KeyOf(a)) && Survives(a)
  }

  ghost predicate WalkSafe(ms: seq<Message>, roomId: string) {
    forall i, j | 0 <= i < j < |ms| && ms[i].roomId == roomId && ms[j].roomId == roomId ::
      Precedes(ms[i], ms[j]) || Precedes(ms[j], ms[i])
  }

  /** What the service gives its messages: distinct non-empty ids and clock readings in the
      range of UnixNano. That is enough. */
  lemma DistinctIdsAreWalkSafe(ms: seq<Message>, roomId: string)
    requires forall i, j | 0 <= i < j < |ms| :: ms[i].id != ms[j].id
    requires forall m | m in ms && m.roomId == roomId :: m.id != "" && InNanoRange(m.createdAt)
    ensures WalkSafe(ms, roomId)
  {
    forall i, j | 0 <= i < j < |ms| && ms[i].roomId == roomId && ms[j].roomId == roomId
      ensures Precedes(ms[i], ms[j]) || Precedes(ms[j], ms[i]) {
      assert ms[i] in ms && ms[j] in ms;
      NewerReversesBelow(ms[i], ms[j]);
      NewerReversesBelow(ms[j], ms[i]);
    }
  }

  lemma WalkSafePrefix(ms: seq<Message>, more: seq<Message>, roomId: string)
    requires ms <= more && WalkSafe(more, roomId)
    ensures WalkSafe(ms, roomId)
  {
    forall i, j | 0 <= i < j < |ms| && ms[i].roomId == roomId && ms[j].roomId == roomId
      ensures Precedes(ms[i], ms[j]) || Precedes(ms[j], ms[i])
    {
      assert ms[i] == more[i] && ms[j] == more[j];
    }
  }

  lemma {:induction false} TwoPositions<T>(s: seq<T>, x: T)
    ensures multiset(s)[x] >= 2 <==> exists i, j | 0 <= i < j < |s| :: s[i] == x && s[j] == x
  {
    if s != [] {
      var f := s[..|s| - 1];
      assert s == f + [s[|s| - 1]];
      TwoPositions(f, x);
      if multiset(s)[x] >= 2 && multiset(f)[x] < 2 {
        assert x in multiset(f);
        var i :| 0 <= i < |f| && f[i] == x;
        assert s[i] == x && s[|s| - 1] == x;
      }
      if multiset(f)[x] >= 2 {
        var i, j :| 0 <= i < j < |f| && f[i] == x && f[j] == x;
        assert s[i] == x && s[j] == x;
      }
      if i, j :| 0 <= i < j < |s| && s[i] == x && s[j] == x {
        assert f[i] == x && x in multiset(f);
        if j < |f| { assert f[i] == x && f[j] == x; }
      }
    }
  }

  /** In a walk-safe room, whatever sorting the library picks is strictly ordered. */
  lemma SafeSorting(ms: seq<Message>, roomId: string, cursor: Cursor, sorted: seq<Message>)
    requires WalkSafe(ms, roomId)
    requires IsSorting(Newer, Matching(roomId, cursor, ms), sorted)
    ensures forall i, j | 0 <= i < j < |sorted| :: Precedes(sorted[i], sorted[j])
    ensures StrictlySortedBy(Newer, sorted)
    ensures forall m | m in sorted :: m in ms && Matches(roomId, cursor, m)
  {
    var found := Matching(roomId, cursor, ms);
    SortingMembers(Newer, found, sorted);
    forall m | m in sorted ensures m in ms && Matches(roomId, cursor, m) {
      MatchingMembers(roomId, cursor, ms, m);
    }
    forall i, j | 0 <= i < j < |sorted| ensures Precedes(sorted[i], sorted[j]) {
      var x, y := sorted[i], sorted[j];
      assert x in sorted && y in sorted;
      if x == y {
        TwoPositions(sorted, x);
        MatchingCounts(roomId, cursor, ms, x);
        TwoPositions(ms, x);
        LexTotal(x.id, x.id);
        assert false;
      } else {
        var p, q :| 0 <= p < |ms| && 0 <= q < |ms| && ms[p] == x && ms[q] == y;
        assert Precedes(x, y) || Precedes(y, x);
      }
    }
  }

  /** Below position p - 1 of a listing lies exactly the rest of the listing. */
  lemma CursorSplitsListing(roomId: string, full: seq<Message>, p: nat)
    requires 1 <= p <= |full| && !KeyOf(full[p - 1]).IsZero()
    requires forall i, j | 0 <= i < j < |full| :: Below(full[j], KeyOf(full[i]))
    requires forall m | m in full :: m.roomId == roomId
    ensures Matching(roomId, KeyOf(full[p - 1]), full) == full[p..]
  {
    var last := full[p - 1];
    var cur := KeyOf(last);
    forall m | m in full[..p] ensures !Matches(roomId, cur, m) {
      var i :| 0 <= i < p && full[i] == m;
      LexTotal(last.id, m.id);
    }
    forall m | m in full[p..] ensures Matches(roomId, cur, m) {
      var i :| p <= i < |full| && full[i] == m;
    }
    assert full == full[..p] + full[p..];
    MatchingAppend(roomId, cur, full[..p], full[p..]);
    MatchingNone(roomId, cur, full[..p]);
    MatchingAll(roomId, cur, full[p..]);
  }

  /** A listing holds all that a cursor taken from it can match. */
  lemma ListingHoldsMatches(ms: seq<Message>, roomId: string, c0: Cursor, full: seq<Message>, last: Message)
    requires multiset(full) == multiset(Matching(roomId, c0, ms))
    requires last in full && !KeyOf(last).IsZero()
    ensures multiset(Matching(roomId, KeyOf(last), ms)) == multiset(Matching(roomId, KeyOf(last), full))
  {
    var cur := KeyOf(last);
    assert last in multiset(full);
    MatchingCounts(roomId, c0, ms, last);
    forall m ensures multiset(Matching(roomId, cur, ms))[m] == multiset(Matching(roomId, cur, full))[m] {
      MatchingCounts(roomId, cur, ms, m);
      MatchingCounts(roomId, cur, full, m);
      MatchingCounts(roomId, c0, ms, m);
      if Matches(roomId, cur, m) && !c0.IsZero() { BelowTransitive(m, last, c0); }
    }
  }

  /** The query with a cursor is the rest of the full listing, strictly after the cursor. */
  lemma SuffixAfterCursor(ms: seq<Message>, roomId: string, c0: Cursor, full: seq<Message>, p: nat, rest: seq<Message>)
    requires WalkSafe(ms, roomId)
    requires IsSorting(Newer, Matching(roomId, c0, ms), full)
    requires 1 <= p <= |full| && full[p - 1].id != ""
    requires IsSorting(Newer, Matching(roomId, KeyOf(full[p - 1]), ms), rest)
    ensures rest == full[p..]
  {
    SafeSorting(ms, roomId, c0, full);
    assert forall i, j | 0 <= i < j < |full| :: Precedes(full[i], full[j]) ==> Below(full[j], KeyOf(full[i]));
    CursorSplitsListing(roomId, full, p);
    ListingHoldsMatches(ms, roomId, c0, full, full[p - 1]);
    SortingUnique(Newer, full[p..], rest);
  }

  // ---------------------------------------------------------------- walks on a store that does not change

  lemma WalkFront(roomId: string, calls: seq<Call>)
    requires ValidWalk(roomId, calls) && |calls| > 1
    ensures ValidWalk(roomId, Front(calls)) && Follows(Last(Front(calls)), Last(calls))
  {
    var f := Front(calls);
    forall i | 0 < i < |f| ensures Follows(f[i - 1], f[i]) { assert Follows(calls[i - 1], calls[i]); }
    assert Follows(calls[|calls| - 2], calls[|calls| - 1]);
  }

  /** Where a client stands in the room's full listing once it has asked for `asked` messages. */
  ghost predicate StandsAt(full: seq<Message>, asked: nat, out: seq<Message>, next: WireCursor)
    requires asked >= 1
  {
    if asked < |full|
    then out == full[..asked] && next == EncodeCursor(KeyOf(full[asked - 1]))
    else out == full && next == NoCursor
  }

  lemma FixedWalkStep(roomId: string, ms: seq<Message>, call: Call, full: seq<Message>, p: nat)
    requires roomId != "" && WalkSafe(ms, roomId) && call.store == ms && Served(roomId, call)
    requires IsSorting(Newer, InRoom(roomId, ms), full) && (p == 0 || p < |full|)
    requires call.cursor == if p == 0 then NoCursor else EncodeCursor(KeyOf(full[p - 1]))
    ensures StandsAt(full, p + EffectiveLimit(call.limit), full[..p] + call.page, call.next)
  {
    hide *;
    if p == 0 {
      NewestIsServed(roomId, ms, call, full);
      assert full[0..] == full;
    } else {
      RestIsServed(roomId, ms, call, full, p);
    }
    RestGoesOn(full, p, EffectiveLimit(call.limit), call.page, call.next);
  }

  lemma NewestIsServed(roomId: string, ms: seq<Message>, call: Call, full: seq<Message>)
    requires roomId != "" && WalkSafe(ms, roomId) && call.store == ms && Served(roomId, call)
    requires IsSorting(Newer, InRoom(roomId, ms), full) && call.cursor == NoCursor
    ensures Page(call.page, call.next) == FirstPage(full, EffectiveLimit(call.limit))
  {
    hide WalkSafe, Newer, Below, Matching, IsResponse, EffectiveLimit, FirstPage, EncodeCursor;
    var sorted := SortingServed(roomId, call, ZERO_CURSOR);
    SafeSorting(ms, roomId, ZERO_CURSOR, full);
    SortingUnique(Newer, full, sorted);
  }

  lemma RestIsServed(roomId: string, ms: seq<Message>, call: Call, full: seq<Message>, p: nat)
    requires roomId != "" && WalkSafe(ms, roomId) && call.store == ms && Served(roomId, call)
    requires IsSorting(Newer, InRoom(roomId, ms), full) && 1 <= p < |full|
    requires call.cursor == EncodeCursor(KeyOf(full[p - 1]))
    ensures Page(call.page, call.next) == FirstPage(full[p..], EffectiveLimit(call.limit))
  {
    SafeNext(ms, roomId, ZERO_CURSOR, full, p);
    CursorRoundTrip(KeyOf(full[p - 1]));
    hide *;
    var sorted := SortingServed(roomId, call, KeyOf(full[p - 1]));
    SuffixOfRoom(ms, roomId, full, p, sorted);
  }

  lemma SuffixOfRoom(ms: seq<Message>, roomId: string, full: seq<Message>, p: nat, rest: seq<Message>)
    requires WalkSafe(ms, roomId) && IsSorting(Newer, InRoom(roomId, ms), full)
    requires 1 <= p < |full| && IsSorting(Newer, Matching(roomId, KeyOf(full[p - 1]), ms), rest)
    ensures rest == full[p..]
  {
    hide WalkSafe, IsSorting, Newer, Below, Matching;
    SafeNext(ms, roomId, ZERO_CURSOR, full, p);
    SuffixAfterCursor(ms, roomId, ZERO_CURSOR, full, p, rest);
  }

  lemma RestGoesOn(full: seq<Message>, p: nat, limit: int, page: seq<Message>, next: WireCursor)
    requires p <= |full| && limit >= 1 && Page(page, next) == FirstPage(full[p..], limit)
    ensures StandsAt(full, p + limit, full[..p] + page, next)
  {
    hide FirstPage, EncodeCursor;
    PageOfRest(full, p, limit);
  }

  lemma SafeNeighbours(ms: seq<Message>, roomId: string, c: Cursor, sorted: seq<Message>, p: nat)
    requires WalkSafe(ms, roomId) && IsSorting(Newer, Matching(roomId, c, ms), sorted)
    requires 1 <= p < |sorted|
    ensures Precedes(sorted[p - 1], sorted[p])
  {
    SafeSorting(ms, roomId, c, sorted);
  }

  lemma SortingServed(roomId: string, call: Call, cur: Cursor) returns (sorted: seq<Message>)
    requires roomId != "" && Served(roomId, call) && DecodeCursor(call.cursor) == Ok(cur)
    ensures IsSorting(Newer, Matching(roomId, cur, call.store), sorted)
    ensures Page(call.page, call.next) == FirstPage(sorted, EffectiveLimit(call.limit))
  {
    sorted :| IsSorting(Newer, Matching(roomId, cur, call.store), sorted) &&
              Page(call.page, call.next) == FirstPage(sorted, EffectiveLimit(call.limit));
  }

  /** After any number of calls with any limits the client has seen the newest `Asked` messages
      of the room, in order, and the cursor it holds says where it stands. */
  lemma {:induction false} FixedWalkPrefix(roomId: string, ms: seq<Message>, calls: seq<Call>, full: seq<Message>)
    requires roomId != "" && ValidWalk(roomId, calls) && OnStore(ms, calls) && WalkSafe(ms, roomId)
    requires IsSorting(Newer, InRoom(roomId, ms), full)
    ensures Asked(calls) >= 1 && StandsAt(full, Asked(calls), Output(calls), Last(calls).next)
  {
    hide WalkSafe, IsSorting, IsResponse;
    var front, call := Front(calls), Last(calls);
    var p := Asked(front);
    assert Served(roomId, call) && call.store == ms;
    if |calls| == 1 {
      assert front == [];
      assert Output(calls) == full[..0] + call.page;
    } else {
      WalkFront(roomId, calls);
      FixedWalkPrefix(roomId, ms, front, full);
      assert p < |full| && Output(calls) == full[..p] + call.page;
    }
    FixedWalkStep(roomId, ms, call, full, p);
    assert Asked(calls) == p + EffectiveLimit(call.limit);
  }

  /** Each message of the room as often as it is stored, and nothing else, newest first. */
  ghost predicate IsWholeRoom(roomId: string, ms: seq<Message>, out: seq<Message>) {
    && NewestFirst(out)
    && forall m :: multiset(out)[m] == if m.roomId == roomId then multiset(ms)[m] else 0
  }

  lemma SortingIsWholeRoom(roomId: string, ms: seq<Message>, full: seq<Message>)
    ensures IsSorting(Newer, InRoom(roomId, ms), full) <==> IsWholeRoom(roomId, ms, full)
  {
    hide Matching;
    if SortedBy(Newer, full) { ListingIsNewestFirst(full); }
    if NewestFirst(full) { NewestFirstIsListing(full); }
    forall m ensures multiset(InRoom(roomId, ms))[m] == if m.roomId == roomId then multiset(ms)[m] else 0 {
      MatchingCounts(roomId, ZERO_CURSOR, ms, m);
    }
  }

  lemma NewestFirstIsListing(sorted: seq<Message>)
    requires NewestFirst(sorted)
    ensures SortedBy(Newer, sorted)
  {
    forall i, j | 0 <= i < j < |sorted| ensures !Newer(sorted[j], sorted[i]) {
      LexTotal(sorted[i].id, sorted[j].id);
      LexTotal(sorted[i].id, sorted[i].id);
    }
  }

  /** A walk is over exactly when it has asked for as many messages as the room holds. */
  lemma WalkOverWhenAllAsked(roomId: string, ms: seq<Message>, calls: seq<Call>)
    requires roomId != "" && ValidWalk(roomId, calls) && OnStore(ms, calls) && WalkSafe(ms, roomId)
    ensures Last(calls).next == NoCursor <==> Asked(calls) >= |InRoom(roomId, ms)|
    ensures Last(calls).next == NoCursor ==> IsSorting(Newer, InRoom(roomId, ms), Output(calls))
    ensures DecodeCursor(Last(calls).next).Ok?
  {
    assert calls != [];
    hide *;
    var full := WalkOnListing(roomId, ms, calls);
    if Last(calls).next == NoCursor { SameListing(roomId, ms, full, Output(calls)); }
  }

  /** Where a walk stands in some listing of the room. */
  lemma WalkOnListing(roomId: string, ms: seq<Message>, calls: seq<Call>) returns (full: seq<Message>)
    requires roomId != "" && ValidWalk(roomId, calls) && OnStore(ms, calls) && WalkSafe(ms, roomId)
    ensures IsSorting(Newer, InRoom(roomId, ms), full)
    ensures Last(calls).next == NoCursor <==> Asked(calls) >= |InRoom(roomId, ms)|
    ensures Last(calls).next == NoCursor ==> Output(calls) == full
    ensures DecodeCursor(Last(calls).next).Ok?
  {
    assert calls != [];
    hide *;
    full := SomeListing(roomId, ms);
    FixedWalkPrefix(roomId, ms, calls, full);
    ListingEnds(roomId, ms, full, Asked(calls), Output(calls), Last(calls).next);
  }

  lemma ListingEnds(roomId: string, ms: seq<Message>, full: seq<Message>, asked: nat, out: seq<Message>,
                    next: WireCursor)
    requires WalkSafe(ms, roomId) && IsSorting(Newer, InRoom(roomId, ms), full)
    requires asked >= 1 && StandsAt(full, asked, out, next)
    ensures next == NoCursor <==> asked >= |full|
    ensures next == NoCursor ==> out == full
    ensures DecodeCursor(next).Ok?
  {
    hide *;
    if asked < |full| { SafeListing(roomId, ms, full, asked); }
    StandsAtEnd(full, asked, out, next);
  }

  lemma SameListing(roomId: string, ms: seq<Message>, full: seq<Message>, out: seq<Message>)
    requires IsSorting(Newer, InRoom(roomId, ms), full) && out == full
    ensures IsSorting(Newer, InRoom(roomId, ms), out)
  {
  }

  lemma SomeListing(roomId: string, ms: seq<Message>) returns (full: seq<Message>)
    ensures IsSorting(Newer, InRoom(roomId, ms), full) && |full| == |InRoom(roomId, ms)|
  {
    hide Matching, InRoom;
    NewerIsStrictWeakOrder();
    SortSliceSorts(Newer, InRoom(roomId, ms));
    full := SortSlice(Newer, InRoom(roomId, ms));
    SortingMembers(Newer, InRoom(roomId, ms), full);
  }

  /** And what it has shown by then is each message of the room as often as it is stored, newest first. */
  lemma WalkShowsWholeRoom(roomId: string, ms: seq<Message>, calls: seq<Call>)
    requires roomId != "" && ValidWalk(roomId, calls) && OnStore(ms, calls) && WalkSafe(ms, roomId)
    requires Asked(calls) >= |InRoom(roomId, ms)|
    ensures IsWholeRoom(roomId, ms, Output(calls))
  {
    WalkOverWhenAllAsked(roomId, ms, calls);
    hide *;
    SortingIsWholeRoom(roomId, ms, Output(calls));
  }

  lemma SafeListing(roomId: string, ms: seq<Message>, full: seq<Message>, p: nat)
    requires WalkSafe(ms, roomId) && IsSorting(Newer, InRoom(roomId, ms), full) && 1 <= p < |full|
    ensures Survives(full[p - 1])
  {
    hide Matching, WalkSafe, IsSorting, Newer, Below;
    SafeNext(ms, roomId, ZERO_CURSOR, full, p);
  }

  lemma StandsAtEnd(full: seq<Message>, asked: nat, out: seq<Message>, next: WireCursor)
    requires asked >= 1 && StandsAt(full, asked, out, next)
    requires asked < |full| ==> Survives(full[asked - 1])
    ensures next == NoCursor <==> asked >= |full|
    ensures next == NoCursor ==> out == full
    ensures DecodeCursor(next).Ok?
  {
    if asked < |full| { CursorRoundTrip(KeyOf(full[asked - 1])); }
  }

  lemma PageOfRest(full: seq<Message>, p: nat, limit: int)
    requires p <= |full| && limit >= 1
    ensures p + limit < |full| ==>
      var r := FirstPage(full[p..], limit);
      full[..p] + r.messages == full[..p + limit] && r.next == EncodeCursor(KeyOf(full[p + limit - 1]))
    ensures p + limit >= |full| ==>
      full[..p] + FirstPage(full[p..], limit).messages == full && FirstPage(full[p..], limit).next == NoCursor
  {
    assert full[..p] + full[p..] == full;
    if p + limit < |full| { assert full[..p] + full[p..][..limit] == full[..p + limit]; }
  }

  /** With one effective limit L throughout, a complete walk over n messages takes
      max(1, ceil(n / L)) calls: no trailing empty page, and no call too few. */
  lemma FixedLimitCallCount(roomId: string, ms: seq<Message>, calls: seq<Call>, limit: int)
    requires roomId != "" && ValidWalk(roomId, calls) && OnStore(ms, calls) && WalkSafe(ms, roomId)
    requires forall i | 0 <= i < |calls| :: EffectiveLimit(calls[i].limit) == EffectiveLimit(limit)
    requires Last(calls).next == NoCursor
    ensures var n, l := |InRoom(roomId, ms)|, EffectiveLimit(limit);
      |calls| == if n == 0 then 1 else (n + l - 1) / l
  {
    hide EffectiveLimit, WalkSafe, IsSorting, Served, Asked;
    var n, l, k := |InRoom(roomId, ms)|, EffectiveLimit(limit), |calls|;
    AskedIsProduct(calls, l);
    WalkOverWhenAllAsked(roomId, ms, calls);
    if k > 1 {
      WalkFront(roomId, calls);
      WalkOverWhenAllAsked(roomId, ms, Front(calls));
      AskedIsProduct(Front(calls), l);
    }
    CallCount(n, l, k);
  }

  lemma {:induction false} AskedIsProduct(calls: seq<Call>, l: int)
    requires forall i | 0 <= i < |calls| :: EffectiveLimit(calls[i].limit) == l
    ensures Asked(calls) == |calls| * l
  {
    if calls != [] {
      AskedIsProduct(Front(calls), l);
    }
  }

  lemma CallCount(n: nat, l: int, k: nat)
    requires l >= 1 && k >= 1 && n <= k * l && (k > 1 ==> (k - 1) * l < n)
    ensures k == if n == 0 then 1 else (n + l - 1) / l
  {
    if k > 1 { assert (k - 1) * l >= 0; }
    if n > 0 { CeilingDivision(n, l, k); }
  }

  lemma CeilingDivision(n: int, l: int, k: int)
    requires l >= 1 && (k - 1) * l < n <= k * l
    ensures (n + l - 1) / l == k
  {
    var r := n - (k - 1) * l - 1;
    assert n + l - 1 == k * l + r;
    QuotientIsUnique(k, l, r);
  }

  lemma Multiples(l: int, d: int)
    requires -l < l * d < l
    ensures d == 0
  {
  }

  lemma QuotientIsUnique(k: int, l: int, r: int)
    requires 0 <= r < l
    ensures (k * l + r) / l == k
  {
    var x := k * l + r;
    var d := x / l - k;
    assert x == l * (x / l) + x % l;
    assert l * d == r - x % l;
    assert -l < l * d < l;
    assert d == 0 by { Multiples(l, d); }
  }

  // ---------------------------------------------------------------- walks while messages arrive

  /** What holds after every call of a walk over a growing store. */
  ghost predicate WalkSoFar(roomId: string, start: seq<Message>, call: Call, out: seq<Message>) {
    && StrictlySortedBy(Newer, out)
    && (forall m | m in out :: m in call.store && m.roomId == roomId)
    && if call.next == NoCursor
       then forall m | m in start && m.roomId == roomId :: m in out
       else
         && out != []
         && Survives(out[|out| - 1]) && call.next == EncodeCursor(KeyOf(out[|out| - 1]))
         && forall m | m in start && m.roomId == roomId :: m in out || Below(m, KeyOf(out[|out| - 1]))
  }

  /** What the shown messages and the cursor must satisfy for one more call. */
  ghost predicate ReadyFor(roomId: string, call: Call, cur: Cursor, out: seq<Message>) {
    && roomId != "" && WalkSafe(call.store, roomId)
    && StrictlySortedBy(Newer, out)
    && (forall m | m in out :: m in call.store && m.roomId == roomId)
    && if cur.IsZero() then out == [] else out != [] && cur == KeyOf(out[|out| - 1])
  }

  /** The page a call adds lies below everything shown so far. */
  lemma PageExtendsOrder(roomId: string, call: Call, cur: Cursor, out: seq<Message>, sorted: seq<Message>, n: nat)
    requires ReadyFor(roomId, call, cur, out) && n <= |sorted|
    requires IsSorting(Newer, Matching(roomId, cur, call.store), sorted)
    ensures StrictlySortedBy(Newer, out + sorted[..n])
    ensures forall m | m in out + sorted[..n] :: m in call.store && m.roomId == roomId
  {
    SafeSorting(call.store, roomId, cur, sorted);
    var all := out + sorted[..n];
    forall m | m in all ensures m in call.store && m.roomId == roomId {
      if m !in out { assert m in sorted; }
    }
    forall i, j | 0 <= i < j < |all| ensures Newer(all[i], all[j]) {
      if i < |out| <= j {
        var o, m := out[|out| - 1], all[j];
        assert m == sorted[j - |out|] && m in sorted && Matches(roomId, cur, m);
        assert o in out;
        NewerThanBelow(call.store, roomId, o, m);
        if i < |out| - 1 { NewerTransitive(all[i], o, m); }
      } else if i >= |out| {
        assert all[i] == sorted[i - |out|] && all[j] == sorted[j - |out|];
      }
    }
  }

  /** A matching message that is not on the page lies below its last message. */
  lemma LeftForLater(ms: seq<Message>, roomId: string, cur: Cursor, sorted: seq<Message>, n: nat, m: Message)
    requires WalkSafe(ms, roomId) && IsSorting(Newer, Matching(roomId, cur, ms), sorted)
    requires 1 <= n && m in ms && Matches(roomId, cur, m)
    ensures |sorted| <= n ==> m in sorted
    ensures |sorted| > n ==> m in sorted[..n] || Below(m, KeyOf(sorted[n - 1]))
  {
    SafeSorting(ms, roomId, cur, sorted);
    SortingMembers(Newer, Matching(roomId, cur, ms), sorted);
    MatchingMembers(roomId, cur, ms, m);
    var k :| 0 <= k < |sorted| && sorted[k] == m;
    if k < n {
      if n < |sorted| { assert sorted[..n][k] == m; }
    } else {
      assert Precedes(sorted[n - 1], sorted[k]);
    }
  }

  lemma WalkStep(roomId: string, start: seq<Message>, call: Call, cur: Cursor, out: seq<Message>)
    requires ReadyFor(roomId, call, cur, out)
    requires Served(roomId, call) && DecodeCursor(call.cursor) == Ok(cur) && start <= call.store
    requires forall m | m in start && m.roomId == roomId :: m in out || Matches(roomId, cur, m)
    ensures WalkSoFar(roomId, start, call, out + call.page)
  {
    assert roomId != "" && WalkSafe(call.store, roomId) && start <= call.store;
    assert forall m | m in start :: m in call.store;
    hide *;
    var limit := EffectiveLimit(call.limit);
    var sorted := SortingServed(roomId, call, cur);
    var n := if |sorted| > limit then limit else |sorted|;
    PageIsCut(sorted, limit);
    assert call.page == sorted[..n];
    PageExtendsOrder(roomId, call, cur, out, sorted, n);
    forall m | m in start && m.roomId == roomId && m !in out
      ensures |sorted| <= limit ==> m in sorted
      ensures |sorted| > limit ==> m in sorted[..limit] || Below(m, KeyOf(sorted[limit - 1]))
    {
      LeftForLater(call.store, roomId, cur, sorted, limit, m);
    }
    if |sorted| > limit { SafeNext(call.store, roomId, cur, sorted, limit); }
    PageGoesOn(roomId, start, call, out, sorted, limit);
  }

  lemma PageIsCut(sorted: seq<Message>, limit: int)
    requires limit >= 1
    ensures FirstPage(sorted, limit).Page?
    ensures FirstPage(sorted, limit).messages == sorted[..if |sorted| > limit then limit else |sorted|]
    ensures FirstPage(sorted, limit).next ==
      if |sorted| > limit then EncodeCursor(KeyOf(sorted[limit - 1])) else NoCursor
  {
    hide EncodeCursor;
  }

  lemma SafeNext(ms: seq<Message>, roomId: string, c: Cursor, sorted: seq<Message>, p: nat)
    requires WalkSafe(ms, roomId) && IsSorting(Newer, Matching(roomId, c, ms), sorted) && 1 <= p < |sorted|
    ensures Survives(sorted[p - 1])
  {
    hide WalkSafe, IsSorting, Newer, Below, Matching;
    SafeNeighbours(ms, roomId, c, sorted, p);
  }

  lemma PageGoesOn(roomId: string, start: seq<Message>, call: Call, out: seq<Message>, sorted: seq<Message>, limit: int)
    requires limit >= 1 && Page(call.page, call.next) == FirstPage(sorted, limit)
    requires StrictlySortedBy(Newer, out + call.page)
    requires forall m | m in out + call.page :: m in call.store && m.roomId == roomId
    requires |sorted| > limit ==> Survives(sorted[limit - 1])
    requires forall m | m in start && m.roomId == roomId && m !in out ::
      && (|sorted| <= limit ==> m in sorted)
      && (|sorted| > limit ==> m in sorted[..limit] || Below(m, KeyOf(sorted[limit - 1])))
    ensures WalkSoFar(roomId, start, call, out + call.page)
  {
    hide StrictlySortedBy, Newer, Below, FirstPage;
    PageIsCut(sorted, limit);
    if |sorted| > limit { assert (out + call.page)[|out + call.page| - 1] == sorted[limit - 1]; }
  }

  lemma NewerThanBelow(ms: seq<Message>, roomId: string, o: Message, m: Message)
    requires WalkSafe(ms, roomId) && o in ms && m in ms && o.roomId == roomId && m.roomId == roomId
    requires Below(m, KeyOf(o))
    ensures Newer(o, m)
  {
    BelowAsymmetric(m, o);
    var p, q :| 0 <= p < |ms| && 0 <= q < |ms| && ms[p] == o && ms[q] == m;
    assert Precedes(o, m) || Precedes(m, o);
  }

  lemma {:induction false} WalkInvariant(roomId: string, calls: seq<Call>)
    requires roomId != "" && ValidWalk(roomId, calls) && WalkSafe(Last(calls).store, roomId)
    ensures calls[0].store <= Last(calls).store
    ensures WalkSoFar(roomId, calls[0].store, Last(calls), Output(calls))
  {
    var call := Last(calls);
    assert Served(roomId, call);
    if |calls| == 1 {
      assert Output(Front(calls)) == [];
      WalkStep(roomId, call.store, call, ZERO_CURSOR, []);
    } else {
      WalkFront(roomId, calls);
      var prev := Last(Front(calls));
      WalkSafePrefix(prev.store, call.store, roomId);
      WalkInvariant(roomId, Front(calls));
      var out := Output(Front(calls));
      CursorRoundTrip(KeyOf(out[|out| - 1]));
      WalkStep(roomId, calls[0].store, call, KeyOf(out[|out| - 1]), out);
    }
  }

  /** The state in which the last call of a walk is made: `cur` is the cursor it carries. */
  lemma CallIsReady(roomId: string, calls: seq<Call>) returns (cur: Cursor)
    requires roomId != "" && ValidWalk(roomId, calls) && WalkSafe(Last(calls).store, roomId)
    ensures DecodeCursor(Last(calls).cursor) == Ok(cur)
    ensures ReadyFor(roomId, Last(calls), cur, Output(Front(calls)))
  {
    hide WalkSafe, IsResponse, Newer, Below;
    if |calls| == 1 {
      assert Output(Front(calls)) == [];
      cur := ZERO_CURSOR;
    } else {
      WalkFront(roomId, calls);
      WalkSafePrefix(Last(Front(calls)).store, Last(calls).store, roomId);
      WalkInvariant(roomId, Front(calls));
      var out := Output(Front(calls));
      cur := KeyOf(out[|out| - 1]);
      CursorRoundTrip(cur);
    }
  }

  lemma StrictlySortedIsSorted(s: seq<Message>)
    requires StrictlySortedBy(Newer, s)
    ensures SortedBy(Newer, s)
  {
    NewerIsStrictWeakOrder();
  }

  /** Whatever is inserted while the client walks: it is shown messages of its room only, in
      strictly decreasing order, hence none twice; and once the walk ends it has been shown
      every message that was there when it began. */
  lemma {:induction false} InterleavedWalk(roomId: string, calls: seq<Call>)
    requires roomId != "" && ValidWalk(roomId, calls) && WalkSafe(Last(calls).store, roomId)
    ensures StrictlySortedBy(Newer, Output(calls)) && NewestFirst(Output(calls))
    ensures forall i, j | 0 <= i < j < |Output(calls)| :: Output(calls)[i] != Output(calls)[j]
    ensures forall m | m in Output(calls) :: m in Last(calls).store && m.roomId == roomId
    ensures Last(calls).next == NoCursor ==> forall m | m in calls[0].store && m.roomId == roomId :: m in Output(calls)
  {
    WalkInvariant(roomId, calls);
    var out := Output(calls);
    StrictlySortedIsSorted(out);
    ListingIsNewestFirst(out);
    forall i, j | 0 <= i < j < |out| ensures out[i] != out[j] {
      assert Newer(out[i], out[j]);
      LexTotal(out[i].id, out[j].id);
    }
  }

  /** What the next call could still return. */
  ghost function Remaining(roomId: string, call: Call): nat
    requires DecodeCursor(call.cursor).Ok?
  {
    |Matching(roomId, DecodeCursor(call.cursor).value, call.store)|
  }

  ghost predicate NothingInsertedBelow(roomId: string, a: Call, b: Call)
    requires a.store <= b.store && DecodeCursor(b.cursor).Ok?
  {
    forall m | m in b.store[|a.store|..] :: !Matches(roomId, DecodeCursor(b.cursor).value, m)
  }

  ghost predicate NeverUndercut(roomId: string, calls: seq<Call>)
    requires ValidWalk(roomId, calls)
  {
    forall i | 0 < i < |calls| ::
      Follows(calls[i - 1], calls[i]) &&
        (DecodeCursor(calls[i].cursor).Ok? ==> NothingInsertedBelow(roomId, calls[i - 1], calls[i]))
  }

  /** As long as inserts land above the cursor, each call takes exactly its page off what remains. */
  lemma RemainingShrinks(roomId: string, a: Call, b: Call)
    requires roomId != "" && Served(roomId, a) && Served(roomId, b) && Follows(a, b)
    requires WalkSafe(b.store, roomId)
    ensures DecodeCursor(a.cursor).Ok? && DecodeCursor(b.cursor).Ok? && |a.page| >= 1
    ensures NothingInsertedBelow(roomId, a, b) ==> Remaining(roomId, b) == Remaining(roomId, a) - |a.page|
  {
    hide WalkSafe, IsSorting, Newer, Below;
    WalkSafePrefix(a.store, b.store, roomId);
    var limit := EffectiveLimit(a.limit);
    var ca := DecodeCursor(a.cursor).value;
    var full := SortingServed(roomId, a, ca);
    SafeNeighbours(a.store, roomId, ca, full, limit);
    var cb := KeyOf(full[limit - 1]);
    CursorRoundTrip(cb);
    if NothingInsertedBelow(roomId, a, b) {
      var inserted := b.store[|a.store|..];
      assert b.store == a.store + inserted;
      MatchingAppend(roomId, cb, a.store, inserted);
      MatchingNone(roomId, cb, inserted);
      var found := Matching(roomId, cb, a.store);
      NewerIsStrictWeakOrder();
      SortSliceSorts(Newer, found);
      var rest := SortSlice(Newer, found);
      SuffixAfterCursor(a.store, roomId, ca, full, limit, rest);
      SortingMembers(Newer, found, rest);
      SortingMembers(Newer, Matching(roomId, ca, a.store), full);
    }
  }

  /** A page that comes with a cursor leaves something to be returned: no trailing empty page,
      even if the last message left was inserted late. */
  lemma CursorMeansMore(roomId: string, a: Call, b: Call)
    requires roomId != "" && Served(roomId, a) && Follows(a, b) && WalkSafe(b.store, roomId)
    requires DecodeCursor(a.cursor).Ok?
    ensures DecodeCursor(b.cursor).Ok? && Remaining(roomId, b) >= 1
  {
    hide WalkSafe, IsSorting, Newer, Below, Matching;
    WalkSafePrefix(a.store, b.store, roomId);
    var limit := EffectiveLimit(a.limit);
    var ca := DecodeCursor(a.cursor).value;
    var full := SortingServed(roomId, a, ca);
    SafeNeighbours(a.store, roomId, ca, full, limit);
    var cb := KeyOf(full[limit - 1]);
    CursorRoundTrip(cb);
    SortingMembers(Newer, Matching(roomId, ca, a.store), full);
    var m := full[limit];
    assert m in full;
    MatchingMembers(roomId, ca, a.store, m);
    MatchingMembers(roomId, cb, b.store, m);
  }

  /** Each call of a walk that inserts never undercut takes at least one message off what remains. */
  lemma {:induction false} RemainingBoundsCalls(roomId: string, calls: seq<Call>)
    requires roomId != "" && ValidWalk(roomId, calls) && WalkSafe(Last(calls).store, roomId)
    requires NeverUndercut(roomId, calls)
    ensures DecodeCursor(Last(calls).cursor).Ok?
    ensures Remaining(roomId, Last(calls)) + |calls| <= |InRoom(roomId, calls[0].store)| + 1
  {
    if |calls| > 1 {
      WalkFront(roomId, calls);
      var front := Front(calls);
      var a, b := Last(front), Last(calls);
      assert a == calls[|calls| - 2] && b == calls[|calls| - 1];
      WalkSafePrefix(a.store, b.store, roomId);
      forall i | 0 < i < |front| && DecodeCursor(front[i].cursor).Ok?
        ensures NothingInsertedBelow(roomId, front[i - 1], front[i])
      {
        assert front[i] == calls[i] && front[i - 1] == calls[i - 1];
        assert Follows(calls[i - 1], calls[i]);
      }
      RemainingBoundsCalls(roomId, front);
      assert Served(roomId, a) && Served(roomId, b);
      RemainingShrinks(roomId, a, b);
    }
  }

  /** So such a walk takes at most as many calls as there were messages at the start, or one call
      if there were none. */
  lemma UndisturbedWalkIsBounded(roomId: string, calls: seq<Call>)
    requires roomId != "" && ValidWalk(roomId, calls) && WalkSafe(Last(calls).store, roomId)
    requires NeverUndercut(roomId, calls)
    ensures var n := |InRoom(roomId, calls[0].store)|;
      |calls| <= if n == 0 then 1 else n
  {
    RemainingBoundsCalls(roomId, calls);
    if |calls| > 1 {
      var front, call := Front(calls), Last(calls);
      WalkFront(roomId, calls);
      assert Last(front) == calls[|calls| - 2];
      assert Served(roomId, Last(front)) && Served(roomId, call);
      RemainingShrinks(roomId, Last(front), call);
      CursorMeansMore(roomId, Last(front), call);
    }
  }
}
