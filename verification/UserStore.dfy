/** The in-memory store of user-service: users and refresh tokens, scanned linearly. */
module UserStore {
  import opened Units
  import opened Wrappers

  datatype Error = NotFound | AlreadyExists | InvalidCreds | TokenInvalid | Internal
  type Result<+T> = Wrappers.Result<T, Error>

  datatype User = User(
    id: string, email: string, username: string, passwordHash: string,
    displayName: string, avatarUrl: string, statusText: string, createdAt: Time, updatedAt: Time)

  datatype RefreshToken = RefreshToken(
    id: string, userId: string, tokenHash: string, expiresAt: Time, revokedAt: Option<Time>, createdAt: Time)

  datatype Store = Store(users: map<string, User>, tokens: map<string, RefreshToken>)

  predicate Clashes(a: User, b: User) { a.email == b.email || a.username == b.username }

  /** Keys are ids, no two users share an email or a username, every token has an owner, and no two
      tokens share a hash. */
  ghost predicate StoreOk(s: Store) {
    && (forall k | k in s.users :: s.users[k].id == k)
    && (forall k, l | k in s.users && l in s.users && k != l :: !Clashes(s.users[k], s.users[l]))
    && (forall k | k in s.tokens :: s.tokens[k].id == k && s.tokens[k].userId in s.users)
    && (forall k, l | k in s.tokens && l in s.tokens && k != l :: s.tokens[k].tokenHash != s.tokens[l].tokenHash)
  }

  ghost function UserByEmail(s: Store, email: string): Option<User> {
    if exists k :: k in s.users && s.users[k].email == email
    then var k :| k in s.users && s.users[k].email == email; Some(s.users[k])
    else None
  }

  ghost function TokenByHash(s: Store, hash: string): Option<RefreshToken> {
    if exists k :: k in s.tokens && s.tokens[k].tokenHash == hash
    then var k :| k in s.tokens && s.tokens[k].tokenHash == hash; Some(s.tokens[k])
    else None
  }

  /** Whatever order the maps are iterated in, a lookup has one answer. */
  lemma LookupsAreFunctions(s: Store, k: string)
    requires StoreOk(s)
    ensures k in s.users ==> UserByEmail(s, s.users[k].email) == Some(s.users[k])
    ensures k in s.tokens ==> TokenByHash(s, s.tokens[k].tokenHash) == Some(s.tokens[k])
  {
    if k in s.users {
      assert UserByEmail(s, s.users[k].email).Some?;
      var l :| l in s.users && s.users[l].email == s.users[k].email &&
        UserByEmail(s, s.users[k].email) == Some(s.users[l]);
      assert !(k != l) || Clashes(s.users[k], s.users[l]);
    }
    if k in s.tokens {
      assert TokenByHash(s, s.tokens[k].tokenHash).Some?;
    }
  }

  class InMemRepository {
    var users: map<string, User>
    var tokens: map<string, RefreshToken>

    constructor ()
      ensures Model() == Store(map[], map[]) && StoreOk(Model())
    {
      users, tokens := map[], map[];
    }

    ghost function Model(): Store
      reads this
    {
      Store(users, tokens)
    }

    method CreateUser(u: User) returns (r: Result<()>)
      modifies this`users
      ensures r.Err? <==> exists k :: k in old(users) && Clashes(old(users)[k], u)
      ensures r.Err? ==> r.error == AlreadyExists && users == old(users)
      ensures r.Ok? ==> users == old(users)[u.id := u]
    {
      var todo := users.Keys;
      while todo != {}
        invariant todo <= users.Keys && users == old(users)
        invariant forall k | k in users.Keys - todo :: !Clashes(users[k], u)
      {
        var k :| k in todo;
        var existing := users[k];
        if existing.email == u.email || existing.username == u.username {
          assert Clashes(users[k], u);
          return Err(AlreadyExists);
        }
        todo := todo - {k};
      }
      users := users[u.id := u];
      r := Ok(());
    }

    method GetUserById(id: string) returns (r: Result<User>)
      ensures r == if id in users then Ok(users[id]) else Err(NotFound)
    {
      r := if id in users then Ok(users[id]) else Err(NotFound);
    }

    method GetUsersByIds(ids: seq<string>) returns (out: seq<User>)
      ensures out == FoundUsers(users, ids)
      ensures |out| == Known(users, ids)
      ensures forall i | 0 <= i < |ids| && ids[i] in users ::
        Known(users, ids[..i]) < |out| && out[Known(users, ids[..i])] == users[ids[i]]
    {
      out := [];
      for i := 0 to |ids|
        invariant out == FoundUsers(users, ids[..i])
      {
        assert ids[..i + 1][..i] == ids[..i];
        if ids[i] in users {
          out := out + [users[ids[i]]];
        }
      }
      assert ids[..|ids|] == ids;
      FoundInOrder(users, ids);
    }

    method GetUserByEmail(email: string) returns (r: Result<User>)
      requires StoreOk(Model())
      ensures match UserByEmail(Model(), email) case None => r == Err(NotFound) case Some(u) => r == Ok(u)
    {
      var todo := users.Keys;
      while todo != {}
        invariant todo <= users.Keys
        invariant forall k | k in users.Keys - todo :: users[k].email != email
      {
        var k :| k in todo;
        var u := users[k];
        if u.email == email {
          LookupsAreFunctions(Model(), k);
          return Ok(u);
        }
        todo := todo - {k};
      }
      r := Err(NotFound);
    }

    method UpdateUser(u: User) returns (r: Result<()>)
      modifies this`users
      ensures r.Ok? <==> u.id in old(users)
      ensures r.Err? ==> r.error == NotFound && users == old(users)
      ensures r.Ok? ==> users == old(users)[u.id := old(users)[u.id].(
        displayName := u.displayName, avatarUrl := u.avatarUrl, statusText := u.statusText, updatedAt := u.updatedAt)]
    {
      if u.id !in users {
        return Err(NotFound);
      }
      var existing := users[u.id];
      existing := existing.(displayName := u.displayName);
      existing := existing.(avatarUrl := u.avatarUrl);
      existing := existing.(statusText := u.statusText);
      existing := existing.(updatedAt := u.updatedAt);
      users := users[u.id := existing];
      r := Ok(());
    }

    method CreateRefreshToken(t: RefreshToken)
      modifies this`tokens
      ensures tokens == old(tokens)[t.id := t]
    {
      tokens := tokens[t.id := t];
    }

    method GetRefreshTokenByHash(hash: string) returns (r: Result<RefreshToken>)
      requires StoreOk(Model())
      ensures match TokenByHash(Model(), hash) case None => r == Err(NotFound) case Some(t) => r == Ok(t)
    {
      var todo := tokens.Keys;
      while todo != {}
        invariant todo <= tokens.Keys
        invariant forall k | k in tokens.Keys - todo :: tokens[k].tokenHash != hash
      {
        var k :| k in todo;
        var t := tokens[k];
        if t.tokenHash == hash {
          LookupsAreFunctions(Model(), k);
          return Ok(t);
        }
        todo := todo - {k};
      }
      r := Err(NotFound);
    }

    method RevokeRefreshToken(id: string, revokedAt: Time) returns (r: Result<()>)
      modifies this`tokens
      ensures r.Ok? <==> id in old(tokens)
      ensures r.Err? ==> r.error == NotFound && tokens == old(tokens)
      ensures r.Ok? ==> tokens == old(tokens)[id := old(tokens)[id].(revokedAt := Some(revokedAt))]
    {
      if id !in tokens {
        return Err(NotFound);
      }
      tokens := tokens[id := tokens[id].(revokedAt := Some(revokedAt))];
      r := Ok(());
    }
  }

  /** How many of these ids are known. */
  ghost function Known(users: map<string, User>, ids: seq<string>): nat {
    if ids == [] then 0 else Known(users, ids[..|ids| - 1]) + if ids[|ids| - 1] in users then 1 else 0
  }

  /** The answer to the i-th id stands behind the answers to the known ids before it. */
  lemma {:induction false} FoundInOrder(users: map<string, User>, ids: seq<string>)
    ensures |FoundUsers(users, ids)| == Known(users, ids)
    ensures forall i | 0 <= i < |ids| && ids[i] in users ::
      && Known(users, ids[..i]) < |FoundUsers(users, ids)|
      && FoundUsers(users, ids)[Known(users, ids[..i])] == users[ids[i]]
  {
    if ids != [] {
      var n := |ids| - 1;
      FoundInOrder(users, ids[..n]);
      forall i | 0 <= i < |ids| && ids[i] in users
        ensures Known(users, ids[..i]) < |FoundUsers(users, ids)|
        ensures FoundUsers(users, ids)[Known(users, ids[..i])] == users[ids[i]]
      {
        if i < n { assert ids[..n][..i] == ids[..i] && ids[..n][i] == ids[i]; }
      }
    }
  }

  /** One answer for each known id, in the order asked; unknown ids are left out. */
  function FoundUsers(users: map<string, User>, ids: seq<string>): seq<User> {
    if ids == [] then []
    else
      var last := ids[|ids| - 1];
      FoundUsers(users, ids[..|ids| - 1]) + if last in users then [users[last]] else []
  }
}
