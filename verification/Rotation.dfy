/** Runs of the user service in which each call is one atomic step, and the families of refresh
    tokens they grow. */
module Rotation {
  import Strings
  import opened Units
  import opened UserStore
  import opened UserService
  import opened Wrappers

  datatype Call =
    | Register(email: string, username: string, displayName: string,
               password: string, passwordHash: Option<string>, id: string, now: Time)
    | Login(email: string, password: string, draw: Draw)
    | Refresh(raw: string, now: Time, draw: Draw)
    | UpdateMe(requester: Option<string>, profile: Profile, now: Time)

  datatype Reply =
    | Registered(user: UserStore.Result<User>)
    | Paired(pair: UserStore.Result<TokenPair>)
    | Updated(user: UserStore.Result<User>)

  /** Where a token comes from: the token that was redeemed for it (None: a login), the login at
      the root of its family, and the number of refreshes since. */
  datatype Origin = Origin(parent: Option<string>, root: string, depth: nat)

  datatype World = World(store: Store, clock: Time, origins: map<string, Origin>)

  const INIT := World(Store(map[], map[]), 0, map[])

  /** Clock readings do not go back, and what is drawn at random is new. */
  ghost predicate Admissible(w: World, lib: Lib, call: Call) {
    match call
    case Register(_, _, _, _, _, id, now) => id !in w.store.users && w.clock <= now
    case Login(_, _, draw) => FreshDraw(w.store, lib, draw) && w.clock <= draw.now
    case Refresh(_, now, draw) => FreshDraw(w.store, lib, draw) && w.clock <= now <= draw.now
    case UpdateMe(_, _, now) => w.clock <= now
  }

  ghost function Answered(w: World, lib: Lib, call: Call): (World, Reply) {
    match call
    case Register(email, username, displayName, password, passwordHash, id, now) =>
      var (s, r) := Registering(w.store, lib, email, username, displayName, password, passwordHash, id, now);
      (w.(store := s, clock := now), Registered(r))
    case Login(email, password, draw) =>
      var (s, r) := LoggingIn(w.store, lib, email, password, draw);
      (World(s, draw.now, if r.Ok? then w.origins[draw.tokenId := Origin(None, draw.tokenId, 0)] else w.origins),
        Paired(r))
    case Refresh(raw, now, draw) =>
      var (s, r) := Refreshing(w.store, lib, raw, now, draw);
      (World(s, draw.now, if r.Ok? then w.origins[draw.tokenId := Succeeding(w, lib, raw)] else w.origins), Paired(r))
    case UpdateMe(requester, profile, now) =>
      var (s, r) := Updating(w.store, requester, profile, now);
      (w.(store := s, clock := now), Updated(r))
  }

  ghost function Succeeding(w: World, lib: Lib, raw: string): Origin {
    match TokenByHash(w.store, lib.hashToken(raw))
    case Some(t) =>
      if t.id in w.origins then Origin(Some(t.id), w.origins[t.id].root, w.origins[t.id].depth + 1)
      else Origin(None, t.id, 0)
    case None => Origin(None, raw, 0)
  }

  ghost function Run(lib: Lib, calls: seq<Call>): World {
    if calls == [] then INIT else Answered(Run(lib, calls[..|calls| - 1]), lib, calls[|calls| - 1]).0
  }

  ghost predicate Admitted(lib: Lib, calls: seq<Call>) {
    forall i | 0 <= i < |calls| :: Admissible(Run(lib, calls[..i]), lib, calls[i])
  }

  ghost function ReplyTo(lib: Lib, calls: seq<Call>, i: nat): Reply
    requires i < |calls|
  {
    Answered(Run(lib, calls[..i]), lib, calls[i]).1
  }

  // ---------------------------------------------------------------- the invariant

  /** One token: its times, and its place below the token it was redeemed for. */
  ghost predicate TokenOk(w: World, k: string)
    requires k in w.store.tokens && k in w.origins
  {
    var t, o := w.store.tokens[k], w.origins[k];
    && t.createdAt <= w.clock && t.expiresAt == t.createdAt + REFRESH_TOKEN_TTL
    && (t.revokedAt.Some? ==> t.createdAt <= t.revokedAt.value <= t.expiresAt && t.revokedAt.value <= w.clock)
    && match o.parent
      case None => o.root == k && o.depth == 0
      case Some(p) =>
        && p in w.store.tokens && p in w.origins
        && w.origins[p].root == o.root && w.origins[p].depth + 1 == o.depth
        && w.store.tokens[p].userId == t.userId
        && w.store.tokens[p].revokedAt.Some? && w.store.tokens[p].revokedAt.value <= t.createdAt
  }

  ghost predicate RootOk(w: World, k: string)
    requires k in w.store.tokens && k in w.origins
  {
    var r := w.origins[k].root;
    && r in w.store.tokens && r in w.origins
    && w.origins[r] == Origin(None, r, 0)
    && w.store.tokens[r].userId == w.store.tokens[k].userId
  }

  /** Two tokens of one family: never at one depth, and the shallower one is revoked. */
  ghost predicate PairOk(w: World, k: string, l: string)
    requires k in w.store.tokens && l in w.store.tokens && k in w.origins && l in w.origins
  {
    w.origins[k].root == w.origins[l].root ==>
      && (w.origins[k].depth == w.origins[l].depth ==> k == l)
      && (w.origins[k].depth < w.origins[l].depth ==> w.store.tokens[k].revokedAt.Some?)
  }

  ghost predicate WorldOk(w: World) {
    && StoreOk(w.store)
    && w.origins.Keys == w.store.tokens.Keys
    && (forall k | k in w.store.tokens :: TokenOk(w, k) && RootOk(w, k))
    && (forall k, l | k in w.store.tokens && l in w.store.tokens :: PairOk(w, k, l))
  }

  /** Revoking a live token. */
  lemma RevokingKeepsWorldOk(w: World, t: RefreshToken, now: Time)
    requires WorldOk(w) && t.id in w.store.tokens && w.store.tokens[t.id] == t
    requires Usable(t, now) && w.clock <= now
    ensures WorldOk(w.(store := Revoked(w.store, t, now), clock := now))
  {
    hide StoreOk, PairOk, TokenOk, RootOk;
    var w1 := w.(store := Revoked(w.store, t, now), clock := now);
    RevokingKeepsStoreOk(w.store, t, now);
    forall k | k in w1.store.tokens ensures TokenOk(w1, k) && RootOk(w1, k) {
      RevokingKeepsTokenOk(w, t, now, k);
    }
    forall k, l | k in w1.store.tokens && l in w1.store.tokens ensures PairOk(w1, k, l) {
      RevokingKeepsPairOk(w, t, now, k, l);
    }
  }

  lemma RevokingKeepsTokenOk(w: World, t: RefreshToken, now: Time, k: string)
    requires t.id in w.store.tokens && w.store.tokens[t.id] == t && Usable(t, now) && w.clock <= now
    requires w.origins.Keys == w.store.tokens.Keys && k in w.store.tokens && TokenOk(w, k) && TokenOk(w, t.id) &&
      RootOk(w, k)
    ensures var w1 := w.(store := Revoked(w.store, t, now), clock := now); TokenOk(w1, k) && RootOk(w1, k)
  {
  }

  lemma RevokingKeepsPairOk(w: World, t: RefreshToken, now: Time, k: string, l: string)
    requires t.id in w.store.tokens && w.store.tokens[t.id] == t
    requires w.origins.Keys == w.store.tokens.Keys && k in w.store.tokens && l in w.store.tokens && PairOk(w, k, l)
    ensures PairOk(w.(store := Revoked(w.store, t, now), clock := now), k, l)
  {
  }

  /** Issuing a token below a revoked token that is the deepest of its family, or as a new root. */
  ghost predicate CanHang(w: World, u: User, o: Origin, tokenId: string, now: Time) {
    match o.parent
    case None => o == Origin(None, tokenId, 0)
    case Some(p) =>
      && p in w.store.tokens && p in w.origins && w.store.tokens[p].userId == u.id
      && w.store.tokens[p].revokedAt.Some? && w.store.tokens[p].revokedAt.value <= now
      && o == Origin(Some(p), w.origins[p].root, w.origins[p].depth + 1)
      && forall k | k in w.store.tokens && k in w.origins && w.origins[k].root == o.root ::
           w.store.tokens[k].revokedAt.Some? && w.origins[k].depth < o.depth
  }

  ghost function Hung(w: World, t: RefreshToken, o: Origin): World {
    World(w.store.(tokens := w.store.tokens[t.id := t]), t.createdAt, w.origins[t.id := o])
  }

  ghost predicate NewToken(w: World, t: RefreshToken) {
    && t.id !in w.store.tokens && w.origins.Keys == w.store.tokens.Keys
    && w.clock <= t.createdAt && t.revokedAt.None? && t.expiresAt == t.createdAt + REFRESH_TOKEN_TTL
  }

  lemma HangingKeepsToken(w: World, u: User, t: RefreshToken, o: Origin, k: string)
    requires NewToken(w, t) && CanHang(w, u, o, t.id, t.createdAt) && t.userId == u.id
    requires k in w.store.tokens && TokenOk(w, k) && RootOk(w, k)
    ensures TokenOk(Hung(w, t, o), k) && RootOk(Hung(w, t, o), k)
  {
  }

  lemma HangingAddsToken(w: World, u: User, t: RefreshToken, o: Origin)
    requires NewToken(w, t) && CanHang(w, u, o, t.id, t.createdAt) && t.userId == u.id
    requires o.parent.Some? ==> RootOk(w, o.parent.value)
    ensures TokenOk(Hung(w, t, o), t.id) && RootOk(Hung(w, t, o), t.id)
  {
  }

  lemma HangingKeepsPairs(w: World, u: User, t: RefreshToken, o: Origin, k: string, l: string)
    requires NewToken(w, t) && CanHang(w, u, o, t.id, t.createdAt)
    requires k in w.store.tokens + map[t.id := t] && l in w.store.tokens + map[t.id := t]
    requires k in w.store.tokens ==> RootOk(w, k)
    requires l in w.store.tokens ==> RootOk(w, l)
    requires k in w.store.tokens && l in w.store.tokens ==> PairOk(w, k, l)
    ensures PairOk(Hung(w, t, o), k, l)
  {
  }

  lemma IssuingKeepsWorldOk(w: World, lib: Lib, u: User, o: Origin, draw: Draw)
    requires WorldOk(w) && u.id in w.store.users && FreshDraw(w.store, lib, draw) && w.clock <= draw.now
    requires CanHang(w, u, o, draw.tokenId, draw.now)
    ensures var (s, r) := Issuing(w.store, lib, u, draw);
      WorldOk(World(s, draw.now, if r.Ok? then w.origins[draw.tokenId := o] else w.origins))
  {
    hide StoreOk, PairOk, TokenOk, RootOk, CanHang;
    IssuingKeepsStoreOk(w.store, lib, u, draw);
    if Issuing(w.store, lib, u, draw).1.Ok? {
      var expiresAt := draw.now + REFRESH_TOKEN_TTL;
      var t := RefreshToken(draw.tokenId, u.id, lib.hashToken(draw.raw.value), expiresAt, None, draw.now);
      var w1 := Hung(w, t, o);
      if o.parent.Some? { HangingUnderRoot(w, u, o, draw.tokenId, draw.now); }
      HangingAddsToken(w, u, t, o);
      forall k | k in w1.store.tokens ensures TokenOk(w1, k) && RootOk(w1, k) {
        if k != t.id { HangingKeepsToken(w, u, t, o, k); }
      }
      forall k, l | k in w1.store.tokens && l in w1.store.tokens ensures PairOk(w1, k, l) {
        HangingKeepsPairs(w, u, t, o, k, l);
      }
    } else {
      SameTokens(w, w.(clock := draw.now));
    }
  }

  lemma HangingUnderRoot(w: World, u: User, o: Origin, tokenId: string, now: Time)
    requires WorldOk(w) && CanHang(w, u, o, tokenId, now) && o.parent.Some?
    ensures o.parent.value in w.store.tokens && RootOk(w, o.parent.value)
  {
  }

  /** The live token of a family is its deepest one. */
  lemma LiveIsDeepest(w: World, t: string, k: string)
    requires WorldOk(w) && t in w.store.tokens && w.store.tokens[t].revokedAt.None?
    requires k in w.store.tokens && w.origins[k].root == w.origins[t].root && k != t
    ensures w.origins[k].depth < w.origins[t].depth && w.store.tokens[k].revokedAt.Some?
  {
    assert PairOk(w, k, t) && PairOk(w, t, k);
  }

  lemma CanHangUnderRevoked(w: World, t: RefreshToken, now: Time, u: User, tokenId: string, later: Time)
    requires WorldOk(w) && t.id in w.store.tokens && w.store.tokens[t.id] == t
    requires Usable(t, now) && now <= later && t.userId == u.id
    ensures var w1 := w.(store := Revoked(w.store, t, now), clock := now);
      CanHang(w1, u, Origin(Some(t.id), w.origins[t.id].root, w.origins[t.id].depth + 1), tokenId, later)
  {
    hide StoreOk, PairOk, TokenOk, RootOk;
    forall k | k in w.store.tokens && w.origins[k].root == w.origins[t.id].root && k != t.id
      ensures w.store.tokens[k].revokedAt.Some? && w.origins[k].depth < w.origins[t.id].depth
    {
      LiveIsDeepest(w, t.id, k);
    }
  }

  lemma RefreshKeepsWorldOk(w: World, lib: Lib, raw: string, now: Time, draw: Draw)
    requires WorldOk(w) && FreshDraw(w.store, lib, draw) && w.clock <= now <= draw.now
    ensures WorldOk(Answered(w, lib, Refresh(raw, now, draw)).0)
  {
    hide PairOk, TokenOk, RootOk, CanHang, Issuing;
    var found := TokenByHash(w.store, lib.hashToken(raw));
    TokenByHashIsStored(w.store, lib.hashToken(raw));
    if found.None? || !Usable(found.value, now) {
      SameTokens(w, w.(clock := draw.now));
    } else {
      var t := found.value;
      var u := w.store.users[t.userId];
      RevokingKeepsWorldOk(w, t, now);
      CanHangUnderRevoked(w, t, now, u, draw.tokenId, draw.now);
      IssuingKeepsWorldOk(w.(store := Revoked(w.store, t, now), clock := now), lib, u, Succeeding(w, lib, raw), draw);
    }
  }

  /** A step that leaves the tokens alone. */
  lemma SameTokens(w: World, w1: World)
    requires WorldOk(w) && StoreOk(w1.store)
    requires w1.store.tokens == w.store.tokens && w1.origins == w.origins && w.clock <= w1.clock
    ensures WorldOk(w1)
  {
    forall k | k in w1.store.tokens ensures TokenOk(w1, k) && RootOk(w1, k) {
      assert TokenOk(w, k) && RootOk(w, k);
    }
    forall k, l | k in w1.store.tokens && l in w1.store.tokens ensures PairOk(w1, k, l) {
      assert PairOk(w, k, l);
    }
  }

  lemma RegisterKeepsStoreOk(s: Store, lib: Lib, email: string, username: string, displayName: string,
                             password: string, passwordHash: Option<string>, id: string, now: Time)
    requires StoreOk(s) && id !in s.users
    ensures StoreOk(Registering(s, lib, email, username, displayName, password, passwordHash, id, now).0)
  {
    hide StoreOk, Clashes, Strings.TrimSpace;
    var (s1, r) := Registering(s, lib, email, username, displayName, password, passwordHash, id, now);
    if r.Ok? { AddingKeepsStoreOk(s, r.value); }
  }

  lemma UpdateKeepsStoreOk(s: Store, requester: Option<string>, profile: Profile, now: Time)
    requires StoreOk(s)
    ensures StoreOk(Updating(s, requester, profile, now).0)
  {
    hide Clashes, Edited;
    if requester.Some? && requester.value in s.users { EditingKeepsStoreOk(s, s.users[requester.value], profile, now); }
  }

  lemma LoginKeepsWorldOk(w: World, lib: Lib, email: string, password: string, draw: Draw)
    requires WorldOk(w) && FreshDraw(w.store, lib, draw) && w.clock <= draw.now
    ensures WorldOk(Answered(w, lib, Login(email, password, draw)).0)
  {
    hide PairOk, TokenOk, RootOk, Issuing;
    var e := lib.toLower(Strings.TrimSpace(email));
    var found := UserByEmail(w.store, e);
    UserByEmailIsStored(w.store, e);
    if found.None? || !lib.passwordMatches(found.value.passwordHash, password) {
      SameTokens(w, w.(clock := draw.now));
    } else {
      IssuingKeepsWorldOk(w, lib, found.value, Origin(None, draw.tokenId, 0), draw);
    }
  }

  lemma CallKeepsWorldOk(w: World, lib: Lib, call: Call)
    requires WorldOk(w) && Admissible(w, lib, call)
    ensures WorldOk(Answered(w, lib, call).0)
  {
    hide StoreOk, PairOk, TokenOk, RootOk, LoggingIn, Refreshing;
    match call
    case Refresh(raw, now, draw) => RefreshKeepsWorldOk(w, lib, raw, now, draw);
    case Login(email, password, draw) => LoginKeepsWorldOk(w, lib, email, password, draw);
    case Register(email, username, displayName, password, passwordHash, id, now) =>
      RegisterKeepsStoreOk(w.store, lib, email, username, displayName, password, passwordHash, id, now);
      SameTokens(w, Answered(w, lib, call).0);
    case UpdateMe(requester, profile, now) =>
      UpdateKeepsStoreOk(w.store, requester, profile, now);
      SameTokens(w, Answered(w, lib, call).0);
  }

  lemma {:induction false} RunKeepsWorldOk(lib: Lib, calls: seq<Call>)
    requires Admitted(lib, calls)
    ensures WorldOk(Run(lib, calls))
  {
    if calls != [] {
      var f := calls[..|calls| - 1];
      AdmittedPrefix(lib, calls, |f|);
      RunKeepsWorldOk(lib, f);
      assert Admissible(Run(lib, calls[..|f|]), lib, calls[|f|]);
      CallKeepsWorldOk(Run(lib, f), lib, calls[|f|]);
    }
  }

  lemma AdmittedPrefix(lib: Lib, calls: seq<Call>, n: nat)
    requires Admitted(lib, calls) && n <= |calls|
    ensures Admitted(lib, calls[..n])
  {
    forall i | 0 <= i < n ensures Admissible(Run(lib, calls[..n][..i]), lib, calls[..n][i]) {
      assert calls[..n][..i] == calls[..i];
    }
  }
}
