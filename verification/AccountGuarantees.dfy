/** What registering, logging in and updating a profile are answered over whole runs. */
module AccountGuarantees {
  import Strings
  import opened UserStore
  import opened UserService
  import opened Rotation
  import opened RotationGuarantees
  import opened Wrappers

  /** Every call of every run is answered, and leaves the store, as the contracts of the service say. */
  ghost predicate IsAnswered(w: World, lib: Lib, call: Call, w1: World, reply: Reply) {
    match call
    case Register(email, username, displayName, password, passwordHash, id, now) =>
      && reply.Registered?
      && RegisterAnswered(w.store, lib, email, username, displayName, password, passwordHash, id, now,
                          w1.store, reply.user)
    case Login(email, password, draw) =>
      reply.Paired? && LoginAnswered(w.store, lib, email, password, draw, w1.store, reply.pair)
    case Refresh(raw, now, draw) =>
      reply.Paired? && RefreshAnswered(w.store, lib, raw, now, draw, w1.store, reply.pair)
    case UpdateMe(requester, profile, now) =>
      reply.Updated? && UpdateAnswered(w.store, requester, profile, now, w1.store, reply.user)
  }

  lemma CallIsAnswered(w: World, lib: Lib, call: Call)
    requires StoreOk(w.store)
    ensures IsAnswered(w, lib, call, Answered(w, lib, call).0, Answered(w, lib, call).1)
  {
    hide StoreOk, RegisterAnswered, LoginAnswered, RefreshAnswered, Registering, LoggingIn, Refreshing;
    match call
    case Register(email, username, displayName, password, passwordHash, id, now) =>
      RegisterIsAnswered(w.store, lib, email, username, displayName, password, passwordHash, id, now);
    case Login(email, password, draw) => LoginIsAnswered(w.store, lib, email, password, draw);
    case Refresh(raw, now, draw) => RefreshIsAnswered(w.store, lib, raw, now, draw);
    case UpdateMe(_, _, _) =>
  }

  lemma EveryCallIsAnswered(lib: Lib, calls: seq<Call>, i: nat)
    requires Admitted(lib, calls) && i < |calls|
    ensures IsAnswered(Before(lib, calls, i), lib, calls[i], Before(lib, calls, i + 1), ReplyTo(lib, calls, i))
  {
    BeforeIsOk(lib, calls, i, i);
    hide Answered, IsAnswered, Admissible, Run;
    CallIsAnswered(Before(lib, calls, i), lib, calls[i]);
  }

  /** The user whom an email and a password stand for. */
  ghost predicate Owns(u: User, lib: Lib, email: string, password: string) {
    u.email == lib.toLower(Strings.TrimSpace(email)) && lib.passwordMatches(u.passwordHash, password)
  }

  /** A login is refused if and only if no stored user has the normalised email and a hash that
      matches the password. Past that it succeeds if and only if signing and the random source work,
      and the access token names the user the email and the password stand for. */
  lemma LoginSucceedsIff(lib: Lib, calls: seq<Call>, i: nat)
    requires Admitted(lib, calls) && i < |calls| && calls[i].Login?
    ensures var users, reply := Before(lib, calls, i).store.users, ReplyTo(lib, calls, i);
      && reply.Paired?
      && (reply.pair == Err(InvalidCreds) <==>
            !exists k :: k in users && Owns(users[k], lib, calls[i].email, calls[i].password))
      && (reply.pair.Ok? <==> reply.pair != Err(InvalidCreds) && calls[i].draw.signs && calls[i].draw.raw.Some?)
      && (reply.pair.Ok? ==> forall k | k in users && Owns(users[k], lib, calls[i].email, calls[i].password) ::
            reply.pair.value == TokenPair(AccessToken(k, users[k].username), calls[i].draw.raw.value))
  {
    hide Admitted, Before, ReplyTo;
    EveryCallIsAnswered(lib, calls, i);
  }

  /** Whoever has registered can log in from then on, with the same email however it is written and
      with the password that was hashed, and is logged in as the user who registered. */
  lemma RegisteredCanLogIn(lib: Lib, calls: seq<Call>, i: nat, j: nat)
    requires Admitted(lib, calls) && i < j < |calls| && calls[i].Register? && calls[j].Login?
    requires ReplyTo(lib, calls, i).user.Ok?
    requires lib.toLower(Strings.TrimSpace(calls[j].email)) == lib.toLower(Strings.TrimSpace(calls[i].email))
    requires calls[i].passwordHash.Some? ==> lib.passwordMatches(calls[i].passwordHash.value, calls[j].password)
    requires calls[j].draw.signs && calls[j].draw.raw.Some?
    ensures var name := Strings.TrimSpace(calls[i].username);
      ReplyTo(lib, calls, j) == Paired(Ok(TokenPair(AccessToken(calls[i].id, name), calls[j].draw.raw.value)))
  {
    hide Admitted, ReplyTo, WorldOk, Run;
    EveryCallIsAnswered(lib, calls, i);
    BeforeIsOk(lib, calls, i + 1, j);
    LoginSucceedsIff(lib, calls, j);
    var id := calls[i].id;
    assert id in Before(lib, calls, i + 1).store.users;
    assert Owns(Before(lib, calls, j).store.users[id], lib, calls[j].email, calls[j].password);
  }
}
