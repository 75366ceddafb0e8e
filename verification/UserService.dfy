/** The user service: registration, login, and the rotation of refresh tokens. */
module UserService {
  import opened Strings
  import opened Units
  import opened UserStore
  import opened Wrappers

  // 30 days in nanoseconds.
  const REFRESH_TOKEN_TTL: Time := 30 * 24 * 3600 * 1_000_000_000

  /** The library functions the service calls, as given functions. */
  datatype Lib = Lib(
    toLower: string -> string,
    passwordMatches: (string, string) -> bool,  // bcrypt hash, password
    hashToken: string -> string)

  /** The claims of an access token. */
  datatype AccessToken = AccessToken(userId: string, username: string)

  datatype TokenPair = TokenPair(access: AccessToken, refresh: string)

  /** What issuing draws from outside: whether signing works, the random token value (None if the
      random source fails), a fresh id, and a clock reading. */
  datatype Draw = Draw(signs: bool, raw: Option<string>, tokenId: string, now: Time)

  datatype Profile = Profile(displayName: Option<string>, avatarUrl: Option<string>, statusText: Option<string>)

  // ---------------------------------------------------------------- what each call does to the store

  ghost function Registering(s: Store, lib: Lib, email: string, username: string, displayName: string,
                             password: string, passwordHash: Option<string>, id: string, now: Time)
    : (Store, UserStore.Result<User>)
  {
    var e, n, d := lib.toLower(TrimSpace(email)), TrimSpace(username), TrimSpace(displayName);
    if e == "" || n == "" || d == "" || password == "" then (s, Err(InvalidCreds))
    else if passwordHash.None? then (s, Err(Internal))
    else
      var u := User(id, e, n, passwordHash.value, d, "", "", now, now);
      if exists k :: k in s.users && Clashes(s.users[k], u) then (s, Err(AlreadyExists))
      else (s.(users := s.users[id := u]), Ok(u))
  }

  ghost function Issuing(s: Store, lib: Lib, u: User, draw: Draw): (Store, UserStore.Result<TokenPair>) {
    if !draw.signs || draw.raw.None? then (s, Err(Internal))
    else
      var expiresAt := draw.now + REFRESH_TOKEN_TTL;
      var t := RefreshToken(draw.tokenId, u.id, lib.hashToken(draw.raw.value), expiresAt, None, draw.now);
      (s.(tokens := s.tokens[t.id := t]), Ok(TokenPair(AccessToken(u.id, u.username), draw.raw.value)))
  }

  ghost function LoggingIn(s: Store, lib: Lib, email: string, password: string, draw: Draw)
    : (Store, UserStore.Result<TokenPair>)
  {
    match UserByEmail(s, lib.toLower(TrimSpace(email)))
    case None => (s, Err(InvalidCreds))
    case Some(u) =>
      if !lib.passwordMatches(u.passwordHash, password) then (s, Err(InvalidCreds)) else Issuing(s, lib, u, draw)
  }

  predicate Usable(t: RefreshToken, now: Time) { t.revokedAt.None? && now <= t.expiresAt }

  ghost function Revoked(s: Store, t: RefreshToken, now: Time): Store {
    s.(tokens := s.tokens[t.id := t.(revokedAt := Some(now))])
  }

  ghost function Refreshing(s: Store, lib: Lib, raw: string, now: Time, draw: Draw)
    : (Store, UserStore.Result<TokenPair>)
  {
    match TokenByHash(s, lib.hashToken(raw))
    case None => (s, Err(TokenInvalid))
    case Some(t) =>
      if !Usable(t, now) then (s, Err(TokenInvalid))
      else if t.userId !in s.users then (Revoked(s, t, now), Err(NotFound))
      else Issuing(Revoked(s, t, now), lib, s.users[t.userId], draw)
  }

  function Edited(u: User, p: Profile, now: Time): User {
    u.(displayName := if p.displayName.Some? then p.displayName.value else u.displayName,
       avatarUrl := if p.avatarUrl.Some? then p.avatarUrl.value else u.avatarUrl,
       statusText := if p.statusText.Some? then p.statusText.value else u.statusText,
       updatedAt := now)
  }

  ghost function Updating(s: Store, requester: Option<string>, p: Profile, now: Time): (Store, UserStore.Result<User>) {
    if requester.None? then (s, Err(InvalidCreds))
    else if requester.value !in s.users then (s, Err(NotFound))
    else
      var u := Edited(s.users[requester.value], p, now);
      (s.(users := s.users[requester.value := u]), Ok(u))
  }

  /** The ids and token values drawn at random have not been drawn before. */
  ghost predicate FreshDraw(s: Store, lib: Lib, draw: Draw) {
    && draw.tokenId !in s.tokens
    && (draw.raw.Some? ==> forall k | k in s.tokens :: s.tokens[k].tokenHash != lib.hashToken(draw.raw.value))
  }

  lemma IssuingKeepsStoreOk(s: Store, lib: Lib, u: User, draw: Draw)
    requires StoreOk(s) && u.id in s.users && FreshDraw(s, lib, draw)
    ensures StoreOk(Issuing(s, lib, u, draw).0)
  {
  }

  lemma AddingKeepsStoreOk(s: Store, u: User)
    requires StoreOk(s) && u.id !in s.users && forall k | k in s.users :: !Clashes(s.users[k], u)
    ensures StoreOk(s.(users := s.users[u.id := u]))
  {
    var s1 := s.(users := s.users[u.id := u]);
    forall k, l | k in s1.users && l in s1.users && k != l ensures !Clashes(s1.users[k], s1.users[l]) {
      if k in s.users && l in s.users { assert !Clashes(s.users[k], s.users[l]); }
    }
  }

  lemma EditingKeepsStoreOk(s: Store, u: User, p: Profile, now: Time)
    requires StoreOk(s) && u.id in s.users && s.users[u.id] == u
    ensures StoreOk(s.(users := s.users[u.id := Edited(u, p, now)]))
  {
    var s1 := s.(users := s.users[u.id := Edited(u, p, now)]);
    forall k, l | k in s1.users && l in s1.users && k != l ensures !Clashes(s1.users[k], s1.users[l]) {
      assert !Clashes(s.users[k], s.users[l]);
    }
  }

  lemma RevokingKeepsStoreOk(s: Store, t: RefreshToken, now: Time)
    requires StoreOk(s) && t.id in s.tokens && s.tokens[t.id] == t
    ensures StoreOk(Revoked(s, t, now))
  {
    var s1 := Revoked(s, t, now);
    forall k, l | k in s1.tokens && l in s1.tokens && k != l ensures s1.tokens[k].tokenHash != s1.tokens[l].tokenHash {
      assert s.tokens[k].tokenHash != s.tokens[l].tokenHash;
    }
  }

  lemma TokenByHashIsStored(s: Store, hash: string)
    requires StoreOk(s)
    ensures match TokenByHash(s, hash)
      case None => true
      case Some(t) => t.id in s.tokens && s.tokens[t.id] == t && t.tokenHash == hash
  {
  }

  lemma UserByEmailIsStored(s: Store, email: string)
    requires StoreOk(s)
    ensures match UserByEmail(s, email)
      case None => true
      case Some(u) => u.id in s.users && s.users[u.id] == u && u.email == email
  {
  }

  lemma RefreshingKeepsStoreOk(s: Store, lib: Lib, raw: string, now: Time, draw: Draw)
    requires StoreOk(s) && FreshDraw(s, lib, draw)
    ensures StoreOk(Refreshing(s, lib, raw, now, draw).0)
  {
    var found := TokenByHash(s, lib.hashToken(raw));
    TokenByHashIsStored(s, lib.hashToken(raw));
    if found.Some? && Usable(found.value, now) {
      var t := found.value;
      var s1 := Revoked(s, t, now);
      RevokingKeepsStoreOk(s, t, now);
      IssuingKeepsStoreOk(s1, lib, s.users[t.userId], draw);
    }
  }

  /** The token that issuing stores, with its lifetime in nanoseconds. */
  function NewToken(lib: Lib, userId: string, draw: Draw): RefreshToken
    requires draw.raw.Some?
  {
    RefreshToken(draw.tokenId, userId, lib.hashToken(draw.raw.value), draw.now + 2_592_000_000_000_000, None, draw.now)
  }

  /** What a login is answered, told by the stored users alone: InvalidCreds exactly if nobody has
      the normalised email together with a hash that matches the password; otherwise a pair for that
      user, as long as signing and the random source work. */
  ghost predicate LoginAnswered(s: Store, lib: Lib, email: string, password: string, draw: Draw,
                                s1: Store, r: UserStore.Result<TokenPair>)
  {
    var e := lib.toLower(TrimSpace(email));
    && (r == Err(InvalidCreds) <==>
          !exists k :: k in s.users && s.users[k].email == e && lib.passwordMatches(s.users[k].passwordHash, password))
    && (r.Ok? <==> r != Err(InvalidCreds) && draw.signs && draw.raw.Some?)
    && (r.Err? ==> s1 == s && (r.error == InvalidCreds || r.error == Internal))
    && (r.Ok? ==> forall k | k in s.users && s.users[k].email == e ::
          && r.value == TokenPair(AccessToken(k, s.users[k].username), draw.raw.value)
          && s1 == s.(tokens := s.tokens[draw.tokenId := NewToken(lib, k, draw)]))
  }

  lemma LoginIsAnswered(s: Store, lib: Lib, email: string, password: string, draw: Draw)
    requires StoreOk(s)
    ensures var (s1, r) := LoggingIn(s, lib, email, password, draw);
      LoginAnswered(s, lib, email, password, draw, s1, r)
  {
    hide StoreOk, UserByEmail, TrimSpace;
    var e := lib.toLower(TrimSpace(email));
    UserByEmailIsStored(s, e);
    forall k | k in s.users && s.users[k].email == e
      ensures UserByEmail(s, e) == Some(s.users[k]) && s.users[k].id == k
    {
      LookupsAreFunctions(s, k);
      KeysAreIds(s, k);
    }
  }

  lemma KeysAreIds(s: Store, k: string)
    requires StoreOk(s)
    ensures k in s.users ==> s.users[k].id == k
    ensures k in s.tokens ==> s.tokens[k].id == k && s.tokens[k].userId in s.users
  {
  }

  /** What a refresh is answered and leaves behind, told by the stored tokens alone. */
  ghost predicate RefreshAnswered(s: Store, lib: Lib, raw: string, now: Time, draw: Draw,
                                  s1: Store, r: UserStore.Result<TokenPair>)
  {
    && (r == Err(TokenInvalid) <==> !exists k :: k in s.tokens && Redeemable(s.tokens[k], lib.hashToken(raw), now))
    && (r == Err(TokenInvalid) ==> s1 == s)
    && (r.Ok? <==> r != Err(TokenInvalid) && draw.signs && draw.raw.Some?)
    && (r.Err? ==> r.error == TokenInvalid || r.error == Internal)
    && forall k | k in s.tokens && Redeemable(s.tokens[k], lib.hashToken(raw), now) ::
         var t := s.tokens[k];
         var revoked := s.tokens[k := t.(revokedAt := Some(now))];
         && t.userId in s.users
         && (r.Err? ==> s1 == s.(tokens := revoked))
         && (r.Ok? ==>
               && r.value == TokenPair(AccessToken(t.userId, s.users[t.userId].username), draw.raw.value)
               && s1 == s.(tokens := revoked[draw.tokenId := NewToken(lib, t.userId, draw)]))
  }

  ghost predicate Redeemable(t: RefreshToken, hash: string, now: Time) {
    t.tokenHash == hash && t.revokedAt == None && now <= t.expiresAt
  }

  lemma RefreshIsAnswered(s: Store, lib: Lib, raw: string, now: Time, draw: Draw)
    requires StoreOk(s)
    ensures var (s1, r) := Refreshing(s, lib, raw, now, draw);
      RefreshAnswered(s, lib, raw, now, draw, s1, r)
  {
    hide StoreOk, TokenByHash;
    var hash := lib.hashToken(raw);
    TokenByHashIsStored(s, hash);
    forall k | k in s.tokens && s.tokens[k].tokenHash == hash
      ensures TokenByHash(s, hash) == Some(s.tokens[k]) && s.tokens[k].id == k && s.tokens[k].userId in s.users
    {
      LookupsAreFunctions(s, k);
      KeysAreIds(s, k);
      KeysAreIds(s, s.tokens[k].userId);
    }
    if TokenByHash(s, hash).Some? {
      var t := TokenByHash(s, hash).value;
      assert t.id in s.tokens && s.tokens[t.id] == t && s.tokens[t.id].tokenHash == hash;
      KeysAreIds(s, t.userId);
    }
  }

  /** What a registration is answered and stores, in terms of its arguments. */
  ghost predicate RegisterAnswered(s: Store, lib: Lib, email: string, username: string, displayName: string,
                                   password: string, passwordHash: Option<string>, id: string, now: Time,
                                   s1: Store, r: UserStore.Result<User>)
  {
    var e, n, d := lib.toLower(TrimSpace(email)), TrimSpace(username), TrimSpace(displayName);
    && (r == Err(InvalidCreds) <==> "" in {e, n, d, password})
    && (r == Err(Internal) <==> "" !in {e, n, d, password} && passwordHash == None)
    && (r.Ok? <==>
          && "" !in {e, n, d, password} && passwordHash.Some?
          && forall k | k in s.users :: s.users[k].email != e && s.users[k].username != n)
    && (r.Err? ==> s1 == s && r.error in {InvalidCreds, Internal, AlreadyExists})
    && (r.Ok? ==>
          && s1.tokens == s.tokens && s1.users == s.users[id := r.value]
          && r.value.id == id && r.value.email == e && r.value.username == n && r.value.displayName == d
          && r.value.passwordHash == passwordHash.value && r.value.createdAt == now && r.value.updatedAt == now
          && r.value.avatarUrl == "" && r.value.statusText == "")
  }

  lemma RegisterIsAnswered(s: Store, lib: Lib, email: string, username: string, displayName: string,
                           password: string, passwordHash: Option<string>, id: string, now: Time)
    ensures var (s1, r) := Registering(s, lib, email, username, displayName, password, passwordHash, id, now);
      RegisterAnswered(s, lib, email, username, displayName, password, passwordHash, id, now, s1, r)
  {
    hide TrimSpace;
  }

  /** What an update of the profile is answered and stores, field by field. */
  ghost predicate UpdateAnswered(s: Store, requester: Option<string>, p: Profile, now: Time,
                                 s1: Store, r: UserStore.Result<User>)
  {
    && (requester.None? ==> r == Err(InvalidCreds))
    && (requester.Some? && requester.value !in s.users ==> r == Err(NotFound))
    && (r.Ok? <==> requester.Some? && requester.value in s.users)
    && (r.Err? ==> s1 == s)
    && (r.Ok? ==>
          var u, v := s.users[requester.value], r.value;
          && s1 == s.(users := s.users[requester.value := v])
          && v.displayName == (match p.displayName case Some(x) => x case None => u.displayName)
          && v.avatarUrl == (match p.avatarUrl case Some(x) => x case None => u.avatarUrl)
          && v.statusText == (match p.statusText case Some(x) => x case None => u.statusText)
          && v.updatedAt == now && v.createdAt == u.createdAt
          && v.id == u.id && v.email == u.email && v.username == u.username && v.passwordHash == u.passwordHash)
  }

  function InsteadOfNotFound(e: Error, other: Error): Error { if e == NotFound then other else e }

  class Service {
    const repo: InMemRepository
    const lib: Lib

    constructor (repo: InMemRepository, lib: Lib)
      ensures this.repo == repo && this.lib == lib
    {
      this.repo, this.lib := repo, lib;
    }

    method Register(email: string, username: string, displayName: string, password: string,
                    passwordHash: Option<string>, id: string, now: Time) returns (r: UserStore.Result<User>)
      requires StoreOk(repo.Model()) && id !in repo.users
      modifies repo
      ensures (repo.Model(), r) ==
        Registering(old(repo.Model()), lib, email, username, displayName, password, passwordHash, id, now)
      ensures RegisterAnswered(old(repo.Model()), lib, email, username, displayName, password, passwordHash, id, now,
                               repo.Model(), r)
      ensures StoreOk(repo.Model())
    {
      RegisterIsAnswered(repo.Model(), lib, email, username, displayName, password, passwordHash, id, now);
      hide RegisterAnswered;
      var e := lib.toLower(TrimSpace(email));
      var n := TrimSpace(username);
      var d := TrimSpace(displayName);
      if e == "" || n == "" || d == "" || password == "" {
        return Err(InvalidCreds);
      }
      if passwordHash.None? {
        return Err(Internal);
      }
      var u := User(id, e, n, passwordHash.value, d, "", "", now, now);
      var created := repo.CreateUser(u);
      if created.Err? {
        return Err(created.error);
      }
      r := Ok(u);
    }

    method Login(email: string, password: string, draw: Draw) returns (r: UserStore.Result<TokenPair>)
      requires StoreOk(repo.Model()) && FreshDraw(repo.Model(), lib, draw)
      modifies repo
      ensures (repo.Model(), r) == LoggingIn(old(repo.Model()), lib, email, password, draw)
      ensures LoginAnswered(old(repo.Model()), lib, email, password, draw, repo.Model(), r)
      ensures StoreOk(repo.Model())
    {
      LoginIsAnswered(repo.Model(), lib, email, password, draw);
      hide LoginAnswered;
      var e := lib.toLower(TrimSpace(email));
      UserByEmailIsStored(repo.Model(), e);
      var found := repo.GetUserByEmail(e);
      if found.Err? {
        return Err(InsteadOfNotFound(found.error, InvalidCreds));
      }
      if !lib.passwordMatches(found.value.passwordHash, password) {
        return Err(InvalidCreds);
      }
      r := IssueTokenPair(found.value, draw);
    }

    method Refresh(refreshToken: string, now: Time, draw: Draw) returns (r: UserStore.Result<TokenPair>)
      requires StoreOk(repo.Model()) && FreshDraw(repo.Model(), lib, draw)
      modifies repo
      ensures (repo.Model(), r) == Refreshing(old(repo.Model()), lib, refreshToken, now, draw)
      ensures RefreshAnswered(old(repo.Model()), lib, refreshToken, now, draw, repo.Model(), r)
      ensures StoreOk(repo.Model())
    {
      RefreshIsAnswered(repo.Model(), lib, refreshToken, now, draw);
      hide RefreshAnswered, Redeemable, Clashes;
      RefreshingKeepsStoreOk(repo.Model(), lib, refreshToken, now, draw);
      var hash := lib.hashToken(refreshToken);
      TokenByHashIsStored(repo.Model(), hash);
      var stored := repo.GetRefreshTokenByHash(hash);
      if stored.Err? {
        return Err(InsteadOfNotFound(stored.error, TokenInvalid));
      }
      var t := stored.value;
      if t.revokedAt.Some? || now > t.expiresAt {
        return Err(TokenInvalid);
      }
      var revoked := repo.RevokeRefreshToken(t.id, now);
      assert revoked.Ok?;  // the token has just been found
      var u := repo.GetUserById(t.userId);
      assert u.Ok?;  // StoreOk: every token has an owner
      r := IssueTokenPair(u.value, draw);
    }

    method UpdateMe(requester: Option<string>, p: Profile, now: Time) returns (r: UserStore.Result<User>)
      requires StoreOk(repo.Model())
      modifies repo
      ensures (repo.Model(), r) == Updating(old(repo.Model()), requester, p, now)
      ensures UpdateAnswered(old(repo.Model()), requester, p, now, repo.Model(), r)
      ensures StoreOk(repo.Model())
    {
      if requester.None? {
        return Err(InvalidCreds);
      }
      var got := repo.GetUserById(requester.value);
      if got.Err? {
        return Err(got.error);
      }
      var u := got.value;
      if p.displayName.Some? {
        u := u.(displayName := p.displayName.value);
      }
      if p.avatarUrl.Some? {
        u := u.(avatarUrl := p.avatarUrl.value);
      }
      if p.statusText.Some? {
        u := u.(statusText := p.statusText.value);
      }
      u := u.(updatedAt := now);
      var updated := repo.UpdateUser(u);
      assert updated.Ok?;  // the user has just been found
      r := Ok(u);
    }

    method IssueTokenPair(u: User, draw: Draw) returns (r: UserStore.Result<TokenPair>)
      requires StoreOk(repo.Model()) && u.id in repo.users && FreshDraw(repo.Model(), lib, draw)
      modifies repo`tokens
      ensures (repo.Model(), r) == Issuing(old(repo.Model()), lib, u, draw)
      ensures r.Ok? <==> draw.signs && draw.raw.Some?
      ensures r.Ok? ==> r.value == TokenPair(AccessToken(u.id, u.username), draw.raw.value)
      ensures r.Ok? ==> repo.tokens == old(repo.tokens)[draw.tokenId := NewToken(lib, u.id, draw)]
      ensures r.Err? ==> r.error == Internal && repo.tokens == old(repo.tokens)
      ensures StoreOk(repo.Model())
    {
      IssuingKeepsStoreOk(repo.Model(), lib, u, draw);
      if !draw.signs {
        return Err(Internal);
      }
      var access := AccessToken(u.id, u.username);
      if draw.raw.None? {
        return Err(Internal);
      }
      var raw := draw.raw.value;
      repo.CreateRefreshToken(
        RefreshToken(draw.tokenId, u.id, lib.hashToken(raw), draw.now + REFRESH_TOKEN_TTL, None, draw.now));
      r := Ok(TokenPair(access, raw));
    }
  }
}
