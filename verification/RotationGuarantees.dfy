/** What every run of atomic calls guarantees about users and refresh tokens. */
module RotationGuarantees {
  import Strings
  import opened UserStore
  import opened UserService
  import opened Rotation
  import opened Wrappers

  // ---------------------------------------------------------------- what a run never takes back

  predicate SameIdentity(a: User, b: User) {
    a.id == b.id && a.email == b.email && a.username == b.username && a.passwordHash == b.passwordHash &&
      a.createdAt == b.createdAt
  }

  predicate SameToken(a: RefreshToken, b: RefreshToken) {
    && a.(revokedAt := None) == b.(revokedAt := None)
    && (a.revokedAt.Some? ==> b.revokedAt == a.revokedAt)
  }

  ghost predicate Later(a: World, b: World) {
    && a.clock <= b.clock
    && (forall k | k in a.store.users :: k in b.store.users && SameIdentity(a.store.users[k], b.store.users[k]))
    && (forall k | k in a.store.tokens :: k in b.store.tokens && SameToken(a.store.tokens[k], b.store.tokens[k]))
    && (forall k | k in a.origins :: k in b.origins && a.origins[k] == b.origins[k])
  }

  lemma LaterIsTransitive(a: World, b: World, c: World)
    requires Later(a, b) && Later(b, c)
    ensures Later(a, c)
  {
  }

  lemma UserCallIsLater(w: World, lib: Lib, call: Call)
    requires Admissible(w, lib, call) && (call.Register? || call.UpdateMe?)
    ensures Later(w, Answered(w, lib, call).0)
  {
    hide Clashes, Strings.TrimSpace;
  }

  lemma LoginIsLater(w: World, lib: Lib, call: Call)
    requires WorldOk(w) && Admissible(w, lib, call) && call.Login?
    ensures Later(w, Answered(w, lib, call).0)
  {
    hide PairOk, TokenOk, RootOk, StoreOk, UserByEmail;
  }

  lemma RefreshIsLater(w: World, lib: Lib, call: Call)
    requires WorldOk(w) && Admissible(w, lib, call) && call.Refresh?
    ensures Later(w, Answered(w, lib, call).0)
  {
    hide PairOk, TokenOk, RootOk, StoreOk, TokenByHash;
    TokenByHashIsStored(w.store, lib.hashToken(call.raw));
  }

  lemma CallIsLater(w: World, lib: Lib, call: Call)
    requires WorldOk(w) && Admissible(w, lib, call)
    ensures Later(w, Answered(w, lib, call).0)
  {
    hide Answered, Later, WorldOk, Admissible;
    match call
    case Login(_, _, _) => LoginIsLater(w, lib, call);
    case Refresh(_, _, _) => RefreshIsLater(w, lib, call);
    case _ => UserCallIsLater(w, lib, call);
  }

  /** The run up to call i, of a longer run. */
  lemma {:induction false} RunIsLater(lib: Lib, calls: seq<Call>, i: nat)
    requires Admitted(lib, calls) && i <= |calls|
    ensures WorldOk(Run(lib, calls[..i])) && WorldOk(Run(lib, calls)) && Later(Run(lib, calls[..i]), Run(lib, calls))
  {
    hide WorldOk, Admissible, Answered;
    AdmittedPrefix(lib, calls, i);
    RunKeepsWorldOk(lib, calls[..i]);
    RunKeepsWorldOk(lib, calls);
    if i < |calls| {
      hide Later;
      var f := calls[..|calls| - 1];
      AdmittedPrefix(lib, calls, |f|);
      RunIsLater(lib, f, i);
      assert f[..i] == calls[..i];
      assert calls[..|f|] == f;
      CallIsLater(Run(lib, f), lib, calls[|f|]);
      LaterIsTransitive(Run(lib, calls[..i]), Run(lib, f), Run(lib, calls));
    } else {
      assert calls[..i] == calls;
    }
  }

  /** The state in which call i is answered. */
  ghost function Before(lib: Lib, calls: seq<Call>, i: nat): World
    requires i <= |calls|
  {
    Run(lib, calls[..i])
  }

  lemma BeforeIsOk(lib: Lib, calls: seq<Call>, i: nat, j: nat)
    requires Admitted(lib, calls) && i <= j <= |calls|
    ensures WorldOk(Before(lib, calls, i)) && WorldOk(Before(lib, calls, j)) &&
      Later(Before(lib, calls, i), Before(lib, calls, j))
    ensures i < |calls| ==> Before(lib, calls, i + 1) == Answered(Before(lib, calls, i), lib, calls[i]).0
  {
    hide WorldOk, Later, Answered, Admissible;
    AdmittedPrefix(lib, calls, j);
    RunIsLater(lib, calls[..j], i);
    assert calls[..j][..i] == calls[..i];
    if i < |calls| { assert calls[..i + 1][..i] == calls[..i]; }
  }

  /** Emails and usernames stay pairwise distinct, and what identifies a user never changes. */
  lemma {:induction false} IdentityIsStable(lib: Lib, calls: seq<Call>, i: nat, id: string)
    requires Admitted(lib, calls) && i <= |calls| && id in Before(lib, calls, i).store.users
    ensures var s := Run(lib, calls).store;
      && id in s.users && SameIdentity(Before(lib, calls, i).store.users[id], s.users[id])
      && (forall k | k in s.users && k != id ::
        s.users[k].email != s.users[id].email && s.users[k].username != s.users[id].username)
      && UserByEmail(s, s.users[id].email) == Some(s.users[id])
  {
    RunIsLater(lib, calls, i);
    var s := Run(lib, calls).store;
    LookupsAreFunctions(s, id);
    forall k | k in s.users && k != id ensures !Clashes(s.users[k], s.users[id]) { }
  }

  // ---------------------------------------------------------------- the forest

  /** Parents are there, one level up, in the same family. */
  lemma ParentOf(w: World, k: string)
    requires WorldOk(w) && k in w.store.tokens
    ensures k in w.origins
    ensures w.origins[k].parent.None? <==> w.origins[k].depth == 0
    ensures w.origins[k].parent.None? ==> w.origins[k].root == k
    ensures w.origins[k].parent.Some? ==>
      var p := w.origins[k].parent.value;
      p in w.store.tokens && p in w.origins && w.origins[p].depth + 1 == w.origins[k].depth &&
        w.origins[p].root == w.origins[k].root
  {
    assert TokenOk(w, k);
  }

  /** The token from which n refreshes led to token k. */
  ghost function Ancestor(w: World, k: string, n: nat): string
    requires WorldOk(w) && k in w.store.tokens && n <= w.origins[k].depth
    decreases n
  {
    if n == 0 then k
    else
      ParentOf(w, k);
      Ancestor(w, w.origins[k].parent.value, n - 1)
  }

  lemma {:induction false} AncestorIsRoot(w: World, k: string)
    requires WorldOk(w) && k in w.store.tokens
    ensures Ancestor(w, k, w.origins[k].depth) == w.origins[k].root
    decreases w.origins[k].depth
  {
    hide StoreOk, PairOk, RootOk, TokenOk;
    ParentOf(w, k);
    if w.origins[k].parent.Some? { AncestorIsRoot(w, w.origins[k].parent.value); }
  }

  /** In every run the tokens form a forest whose roots are logins: every token descends from a
      root, each token has at most one successor, and a token with a successor is revoked. */
  lemma TokensFormForest(lib: Lib, calls: seq<Call>, k: string)
    requires Admitted(lib, calls) && k in Run(lib, calls).store.tokens
    ensures WorldOk(Run(lib, calls))
    ensures var w := Run(lib, calls);
      && Ancestor(w, k, w.origins[k].depth) in w.store.tokens
      && w.origins[Ancestor(w, k, w.origins[k].depth)].parent.None?
      && (forall l, m | l in w.store.tokens && m in w.store.tokens &&
            w.origins[l].parent == Some(k) && w.origins[m].parent == Some(k) :: l == m)
      && (forall l | l in w.store.tokens && w.origins[l].parent == Some(k) :: w.store.tokens[k].revokedAt.Some?)
  {
    RunKeepsWorldOk(lib, calls);
    var w := Run(lib, calls);
    AncestorIsRoot(w, k);
    assert RootOk(w, k);
    forall l | l in w.store.tokens && w.origins[l].parent == Some(k)
      ensures w.store.tokens[k].revokedAt.Some? && w.origins[l].root == w.origins[k].root &&
        w.origins[l].depth == w.origins[k].depth + 1
    {
      assert TokenOk(w, l);
    }
    forall l, m | l in w.store.tokens && m in w.store.tokens && w.origins[l].parent == Some(k) &&
      w.origins[m].parent == Some(k)
      ensures l == m
    {
      assert PairOk(w, l, m);
    }
  }

  /** Times of one token and of its successor. */
  lemma {:induction false} TokenTimes(lib: Lib, calls: seq<Call>, k: string)
    requires Admitted(lib, calls) && k in Run(lib, calls).store.tokens
    ensures var w := Run(lib, calls); var t := w.store.tokens[k];
      && t.expiresAt == t.createdAt + 2_592_000_000_000_000
      && (t.revokedAt.Some? ==> t.createdAt <= t.revokedAt.value <= t.expiresAt)
      && k in w.origins
      && (w.origins[k].parent.Some? ==>
            var p := w.origins[k].parent.value;
            p in w.store.tokens && w.store.tokens[p].revokedAt.Some? &&
              w.store.tokens[p].revokedAt.value <= t.createdAt)
  {
    RunKeepsWorldOk(lib, calls);
    assert TokenOk(Run(lib, calls), k);
  }

  /** Revocation is written once and never undone; nothing else about a token changes. */
  lemma {:induction false} RevocationIsFinal(lib: Lib, calls: seq<Call>, i: nat, k: string)
    requires Admitted(lib, calls) && i <= |calls| && k in Before(lib, calls, i).store.tokens
    ensures k in Run(lib, calls).store.tokens
    ensures SameToken(Before(lib, calls, i).store.tokens[k], Run(lib, calls).store.tokens[k])
  {
    RunIsLater(lib, calls, i);
  }

  // ---------------------------------------------------------------- live tokens against logins

  ghost function Live(w: World, u: string): set<string> {
    set k | k in w.store.tokens && w.store.tokens[k].userId == u && w.store.tokens[k].revokedAt.None?
  }

  ghost function Roots(w: World, u: string): set<string> {
    set k | k in w.store.tokens && w.store.tokens[k].userId == u && k in w.origins && w.origins[k].parent.None?
  }

  ghost predicate LoggedIn(call: Call, reply: Reply, u: string) {
    call.Login? && reply.Paired? && reply.pair.Ok? && reply.pair.value.access.userId == u
  }

  ghost function Logins(lib: Lib, calls: seq<Call>, u: string): nat {
    if calls == [] then 0
    else
      var n := |calls| - 1;
      Logins(lib, calls[..n], u) + if LoggedIn(calls[n], ReplyTo(lib, calls, n), u) then 1 else 0
  }

  lemma {:induction false} InjectionBound(a: set<string>, b: set<string>, f: map<string, string>)
    requires forall x | x in a :: x in f && f[x] in b
    requires forall x, y | x in a && y in a && f[x] == f[y] :: x == y
    ensures |a| <= |b|
  {
    if x :| x in a {
      InjectionBound(a - {x}, b - {f[x]}, f);
    }
  }

  lemma OneLiveToken(w: World, k: string, l: string)
    requires WorldOk(w) && k in w.store.tokens && l in w.store.tokens
    requires w.store.tokens[k].revokedAt.None? && w.store.tokens[l].revokedAt.None?
    requires w.origins[k].root == w.origins[l].root
    ensures k == l
  {
    assert PairOk(w, k, l) && PairOk(w, l, k);
  }

  lemma LiveBoundedByRoots(w: World, u: string)
    requires WorldOk(w)
    ensures |Live(w, u)| <= |Roots(w, u)|
  {
    var f := map k | k in w.origins :: w.origins[k].root;
    forall x | x in Live(w, u) ensures x in f && f[x] in Roots(w, u) { assert RootOk(w, x); }
    forall x, y | x in Live(w, u) && y in Live(w, u) && f[x] == f[y] ensures x == y { OneLiveToken(w, x, y); }
    InjectionBound(Live(w, u), Roots(w, u), f);
  }

  lemma UserCallKeepsRoots(w: World, lib: Lib, call: Call, u: string)
    requires call.Register? || call.UpdateMe?
    ensures Roots(Answered(w, lib, call).0, u) == Roots(w, u)
  {
    hide Clashes, Strings.TrimSpace;
  }

  /** A refresh adds tokens, but no roots. */
  lemma RefreshKeepsRoots(w: World, lib: Lib, call: Call, u: string)
    requires WorldOk(w) && Admissible(w, lib, call) && call.Refresh?
    ensures Roots(Answered(w, lib, call).0, u) == Roots(w, u)
  {
    hide PairOk, TokenOk, RootOk, StoreOk, TokenByHash;
    TokenByHashIsStored(w.store, lib.hashToken(call.raw));
  }

  lemma LoginAddsRoot(w: World, lib: Lib, call: Call, u: string)
    requires WorldOk(w) && Admissible(w, lib, call) && call.Login?
    ensures var (w1, reply) := Answered(w, lib, call);
      Roots(w1, u) == Roots(w, u) + if LoggedIn(call, reply, u) then {call.draw.tokenId} else {}
  {
    hide PairOk, TokenOk, RootOk, StoreOk, UserByEmail;
  }

  /** A call adds a root exactly if it is a successful login. */
  lemma RootsGrowByLogins(w: World, lib: Lib, call: Call, u: string)
    requires WorldOk(w) && Admissible(w, lib, call)
    ensures var (w1, reply) := Answered(w, lib, call);
      Roots(w1, u) == Roots(w, u) + if LoggedIn(call, reply, u) then {call.draw.tokenId} else {}
    ensures call.Login? ==> call.draw.tokenId !in Roots(w, u)
  {
    hide Answered, WorldOk;
    match call
    case Login(_, _, _) => LoginAddsRoot(w, lib, call, u);
    case Refresh(_, _, _) => RefreshKeepsRoots(w, lib, call, u);
    case _ => UserCallKeepsRoots(w, lib, call, u);
  }

  lemma {:induction false} RootsAreLogins(lib: Lib, calls: seq<Call>, u: string)
    requires Admitted(lib, calls)
    ensures |Roots(Run(lib, calls), u)| == Logins(lib, calls, u)
  {
    hide WorldOk, Answered, Later;
    if calls != [] {
      hide Roots;
      var n := |calls| - 1;
      BeforeIsOk(lib, calls, n, n);
      AdmittedPrefix(lib, calls, n);
      RootsAreLogins(lib, calls[..n], u);
      RootsGrowByLogins(Run(lib, calls[..n]), lib, calls[n], u);
      assert Run(lib, calls) == Answered(Run(lib, calls[..n]), lib, calls[n]).0;
      assert Logins(lib, calls, u) ==
        Logins(lib, calls[..n], u) + if LoggedIn(calls[n], ReplyTo(lib, calls, n), u) then 1 else 0;
    }
  }

  /** A user's unrevoked tokens never outnumber that user's successful logins. */
  lemma {:induction false} LiveTokensBoundedByLogins(lib: Lib, calls: seq<Call>, u: string)
    requires Admitted(lib, calls)
    ensures |Live(Run(lib, calls), u)| <= Logins(lib, calls, u)
  {
    RunKeepsWorldOk(lib, calls);
    LiveBoundedByRoots(Run(lib, calls), u);
    RootsAreLogins(lib, calls, u);
  }

  // ---------------------------------------------------------------- redeeming

  /** What a refresh is answered: it is refused exactly if the presented value is not that of a stored
      token, unrevoked and not past its expiry; past that it succeeds exactly if issuing works, that
      is if signing does and the random source does. It never fails for want of the token's owner. */
  lemma RefreshSucceedsIff(lib: Lib, calls: seq<Call>, i: nat)
    requires Admitted(lib, calls) && i < |calls| && calls[i].Refresh?
    ensures var w, reply := Before(lib, calls, i), ReplyTo(lib, calls, i);
      && reply.Paired?
      && (reply.pair == Err(TokenInvalid) <==>
            !exists k :: k in w.store.tokens &&
              Redeemable(w.store.tokens[k], lib.hashToken(calls[i].raw), calls[i].now))
      && (reply.pair.Ok? <==> reply.pair != Err(TokenInvalid) && calls[i].draw.signs && calls[i].draw.raw.Some?)
  {
    hide WorldOk, Answered, Run, Later;
    BeforeIsOk(lib, calls, i, i);
    RefreshAnswers(Before(lib, calls, i), lib, calls[i]);
  }

  lemma RefreshAnswers(w: World, lib: Lib, call: Call)
    requires WorldOk(w) && call.Refresh?
    ensures var reply := Answered(w, lib, call).1;
      && reply.Paired?
      && (reply.pair == Err(TokenInvalid) <==>
            !exists k :: k in w.store.tokens && Redeemable(w.store.tokens[k], lib.hashToken(call.raw), call.now))
      && (reply.pair.Ok? <==> reply.pair != Err(TokenInvalid) && call.draw.signs && call.draw.raw.Some?)
  {
    hide StoreOk, PairOk, TokenOk, RootOk, Refreshing, Redeemable;
    RefreshIsAnswered(w.store, lib, call.raw, call.now, call.draw);
  }

  /** A token value is redeemed at most once: once a refresh got past the checks, whether or not it
      then managed to issue a successor, every later refresh with that value is refused. */
  lemma RedeemedAtMostOnce(lib: Lib, calls: seq<Call>, i: nat, j: nat)
    requires Admitted(lib, calls) && i < j < |calls| && calls[i].Refresh? && calls[j].Refresh?
    requires lib.hashToken(calls[i].raw) == lib.hashToken(calls[j].raw)
    requires ReplyTo(lib, calls, i) != Paired(Err(TokenInvalid))
    ensures ReplyTo(lib, calls, j) == Paired(Err(TokenInvalid))
  {
    hide WorldOk, Answered, Run;
    assert Admissible(Before(lib, calls, i), lib, calls[i]);
    BeforeIsOk(lib, calls, i, j);
    BeforeIsOk(lib, calls, i + 1, j);
    var k := RedeemedIsRevoked(Before(lib, calls, i), lib, calls[i]);
    RevokedIsRefused(Before(lib, calls, j), lib, calls[j], k);
  }

  lemma RevokedIsRefused(w: World, lib: Lib, call: Call, k: string)
    requires WorldOk(w) && call.Refresh? && k in w.store.tokens
    requires w.store.tokens[k].tokenHash == lib.hashToken(call.raw) && w.store.tokens[k].revokedAt.Some?
    ensures Answered(w, lib, call).1 == Paired(Err(TokenInvalid))
  {
    hide PairOk, TokenOk, RootOk, Issuing, Revoked;
    LookupsAreFunctions(w.store, k);
  }

  lemma RedeemedIsRevoked(w: World, lib: Lib, call: Call) returns (k: string)
    requires WorldOk(w) && Admissible(w, lib, call) && call.Refresh?
    requires Answered(w, lib, call).1 != Paired(Err(TokenInvalid))
    ensures var s := Answered(w, lib, call).0.store;
      k in s.tokens && s.tokens[k].tokenHash == lib.hashToken(call.raw) && s.tokens[k].revokedAt == Some(call.now)
  {
    hide PairOk, TokenOk, RootOk;
    TokenByHashIsStored(w.store, lib.hashToken(call.raw));
    k := TokenByHash(w.store, lib.hashToken(call.raw)).value.id;
  }

  /** The value handed out by a login or a refresh can be redeemed by the next call, for as long as
      30 days, and names the same user. */
  lemma IssuedTokenIsRedeemable(lib: Lib, calls: seq<Call>, i: nat)
    requires Admitted(lib, calls) && i + 1 < |calls| && (calls[i].Login? || calls[i].Refresh?) && calls[i + 1].Refresh?
    requires ReplyTo(lib, calls, i).pair.Ok? && calls[i + 1].raw == ReplyTo(lib, calls, i).pair.value.refresh
    requires calls[i + 1].now <= calls[i].draw.now + 2_592_000_000_000_000
    requires calls[i + 1].draw.signs && calls[i + 1].draw.raw.Some?
    ensures var reply := ReplyTo(lib, calls, i + 1).pair;
      reply.Ok? && reply.value.access == ReplyTo(lib, calls, i).pair.value.access
  {
    hide WorldOk, Answered, Run;
    assert Admissible(Before(lib, calls, i), lib, calls[i]);
    BeforeIsOk(lib, calls, i, i + 1);
    IssuedIsStored(Before(lib, calls, i), lib, calls[i]);
    LiveIsAccepted(Before(lib, calls, i + 1), lib, calls[i + 1], calls[i].draw.tokenId);
  }

  lemma LiveIsAccepted(w: World, lib: Lib, call: Call, k: string)
    requires WorldOk(w) && call.Refresh? && k in w.store.tokens && call.draw.signs && call.draw.raw.Some?
    requires w.store.tokens[k].tokenHash == lib.hashToken(call.raw) && Usable(w.store.tokens[k], call.now)
    ensures w.store.tokens[k].userId in w.store.users
    ensures var reply := Answered(w, lib, call).1;
      reply.Paired? && reply.pair.Ok? &&
      reply.pair.value.access == AccessToken(w.store.tokens[k].userId, w.store.users[w.store.tokens[k].userId].username)
  {
    hide PairOk, TokenOk, RootOk;
    LookupsAreFunctions(w.store, k);
  }

  /** What a successful login or refresh stores and answers. */
  lemma IssuedIsStored(w: World, lib: Lib, call: Call)
    requires WorldOk(w) && Admissible(w, lib, call) && (call.Login? || call.Refresh?)
    requires Answered(w, lib, call).1.pair.Ok?
    ensures var (w1, reply) := Answered(w, lib, call);
      && call.draw.tokenId in w1.store.tokens
      && var t := w1.store.tokens[call.draw.tokenId];
      && t.userId in w1.store.users
      && t.tokenHash == lib.hashToken(reply.pair.value.refresh) && t.revokedAt.None? &&
        t.expiresAt == call.draw.now + REFRESH_TOKEN_TTL
      && reply.pair.value.access == AccessToken(t.userId, w1.store.users[t.userId].username)
  {
    hide PairOk, TokenOk, RootOk;
    match call
    case Login(email, _, _) => UserByEmailIsStored(w.store, lib.toLower(Strings.TrimSpace(email)));
    case Refresh(raw, _, _) => TokenByHashIsStored(w.store, lib.hashToken(raw));
  }

  /** The unrevoked tokens of one family. */
  ghost function LiveUnder(w: World, root: string): set<string> {
    set k | k in w.store.tokens && k in w.origins && w.origins[k].root == root && w.store.tokens[k].revokedAt.None?
  }

  lemma OneLiveUnderRoot(w: World, root: string)
    requires WorldOk(w) && root in w.store.tokens
    ensures |LiveUnder(w, root)| <= 1
    ensures forall k | k in LiveUnder(w, root) :: w.store.tokens[k].userId == w.store.tokens[root].userId
  {
    hide WorldOk;
    var live := LiveUnder(w, root);
    forall k | k in live ensures w.store.tokens[k].userId == w.store.tokens[root].userId { RootOfToken(w, k); }
    if k :| k in live {
      forall l | l in live ensures l == k { OneLiveToken(w, l, k); }
      assert live == {k};
    }
  }

  /** In every run, a login has left at most one unrevoked token, however often it was refreshed,
      and that token is its user's. */
  lemma {:induction false} OneLiveTokenPerLogin(lib: Lib, calls: seq<Call>, j: nat)
    requires Admitted(lib, calls) && j < |calls| && calls[j].Login? && ReplyTo(lib, calls, j).pair.Ok?
    ensures var live := LiveUnder(Run(lib, calls), calls[j].draw.tokenId);
      && |live| <= 1
      && forall k | k in live ::
        Run(lib, calls).store.tokens[k].userId == ReplyTo(lib, calls, j).pair.value.access.userId
  {
    hide WorldOk, Answered, Run, LiveUnder;
    assert Admissible(Before(lib, calls, j), lib, calls[j]);
    BeforeIsOk(lib, calls, j, j + 1);
    IssuedIsStored(Before(lib, calls, j), lib, calls[j]);
    RunIsLater(lib, calls, j + 1);
    OneLiveUnderRoot(Run(lib, calls), calls[j].draw.tokenId);
  }

  /** The login that a root token comes from. */
  lemma {:induction false} RootComesFromLogin(lib: Lib, calls: seq<Call>, r: string) returns (j: nat)
    requires Admitted(lib, calls)
    requires r in Run(lib, calls).origins && Run(lib, calls).origins[r].parent.None?
    ensures j < |calls| && calls[j].Login? && ReplyTo(lib, calls, j).pair.Ok? && calls[j].draw.tokenId == r
  {
    hide WorldOk, Answered;
    var n := |calls| - 1;
    BeforeIsOk(lib, calls, n, n);
    AdmittedPrefix(lib, calls, n);
    var w := Run(lib, calls[..n]);
    assert Admissible(w, lib, calls[n]);
    if r in w.origins {
      CallIsLater(w, lib, calls[n]);
      j := RootComesFromLogin(lib, calls[..n], r);
      assert calls[..n][..j] == calls[..j];
    } else {
      j := n;
      NewRootIsLogin(w, lib, calls[n], r);
    }
  }

  lemma NewRootIsLogin(w: World, lib: Lib, call: Call, r: string)
    requires WorldOk(w) && Admissible(w, lib, call)
    requires r !in w.origins && r in Answered(w, lib, call).0.origins &&
      Answered(w, lib, call).0.origins[r].parent.None?
    ensures call.Login? && Answered(w, lib, call).1.pair.Ok? && call.draw.tokenId == r
  {
    hide PairOk, TokenOk, RootOk, StoreOk, TokenByHash, UserByEmail;
    if call.Refresh? { TokenByHashIsStored(w.store, lib.hashToken(call.raw)); }
  }

  /** Through any number of refreshes, the access token handed out carries the claims of the one
      handed out by the login at the root: the same user, under the same name. */
  lemma {:induction false} RefreshNamesLoginUser(lib: Lib, calls: seq<Call>, i: nat) returns (j: nat)
    requires Admitted(lib, calls) && i < |calls| && calls[i].Refresh? && ReplyTo(lib, calls, i).pair.Ok?
    ensures j < i && calls[j].Login? && ReplyTo(lib, calls, j).pair.Ok?
    ensures ReplyTo(lib, calls, j).pair.value.access == ReplyTo(lib, calls, i).pair.value.access
    ensures calls[i].draw.tokenId in Before(lib, calls, i + 1).origins
    ensures Before(lib, calls, i + 1).origins[calls[i].draw.tokenId].root == calls[j].draw.tokenId
  {
    hide WorldOk, Answered, Run, TokenByHash;
    assert Admissible(Before(lib, calls, i), lib, calls[i]);
    BeforeIsOk(lib, calls, i, i + 1);
    var w := Before(lib, calls, i);
    RefreshAnswer(w, lib, calls[i]);
    var t := TokenByHash(w.store, lib.hashToken(calls[i].raw)).value;
    RootOfToken(w, t.id);
    var r := w.origins[t.id].root;
    AdmittedPrefix(lib, calls, i);
    j := RootComesFromLogin(lib, calls[..i], r);
    assert calls[..i][..j] == calls[..j];
    assert Admissible(Before(lib, calls, j), lib, calls[j]);
    BeforeIsOk(lib, calls, j, i);
    IssuedIsStored(Before(lib, calls, j), lib, calls[j]);
    BeforeIsOk(lib, calls, j + 1, i);
  }

  lemma RootOfToken(w: World, k: string)
    requires WorldOk(w) && k in w.store.tokens
    ensures k in w.origins && w.origins[k].root in w.origins && w.origins[w.origins[k].root].parent.None?
    ensures w.origins[k].root in w.store.tokens && w.store.tokens[w.origins[k].root].userId == w.store.tokens[k].userId
    ensures w.store.tokens[k].userId in w.store.users
  {
    assert RootOk(w, k);
  }

  lemma RefreshAnswer(w: World, lib: Lib, call: Call)
    requires WorldOk(w) && Admissible(w, lib, call) && call.Refresh? && Answered(w, lib, call).1.pair.Ok?
    ensures var found := TokenByHash(w.store, lib.hashToken(call.raw));
      && found.Some? && found.value.id in w.store.tokens && w.store.tokens[found.value.id] == found.value &&
        found.value.userId in w.store.users
      && Answered(w, lib, call).1.pair.value.access ==
           AccessToken(found.value.userId, w.store.users[found.value.userId].username)
      && call.draw.tokenId in Answered(w, lib, call).0.origins
      && Answered(w, lib, call).0.origins[call.draw.tokenId].root == w.origins[found.value.id].root
  {
    hide PairOk, TokenOk, RootOk;
    TokenByHashIsStored(w.store, lib.hashToken(call.raw));
  }
}
