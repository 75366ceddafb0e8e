/** Refreshes whose repository calls interleave. Refresh looks a token up, then revokes it, then issues
    its successor, and none of these calls depends on the ones before still holding. */
module ConcurrentRefresh {
  import Strings
  import opened Units
  import opened UserStore
  import opened UserService
  import opened Wrappers

  /** One atomic repository call; `ticket` says which refresh it belongs to. A login's only write is
      atomic anyway. */
  datatype Step =
    | Lookup(ticket: nat, raw: string, now: Time)
    | Revoke(ticket: nat)
    | Issue(ticket: nat, draw: Draw)
    | Login(email: string, password: string, draw: Draw)

  /** A refresh that passed its checks holds the token as it was when it looked. */
  datatype Held = Held(token: RefreshToken, now: Time, revoked: bool)

  datatype State = State(store: Store, held: map<nat, Held>)

  datatype Reply = Passed | Refused | Silent | Paired(pair: UserStore.Result<TokenPair>)

  ghost function Stepped(s: State, lib: Lib, step: Step): (State, Reply) {
    match step
    case Lookup(ticket, raw, now) =>
      var found := TokenByHash(s.store, lib.hashToken(raw));
      if found.None? || !Usable(found.value, now) then (s, Refused)
      else (s.(held := s.held[ticket := Held(found.value, now, false)]), Passed)
    case Revoke(ticket) =>
      if !RevokesFor(s, ticket) then (s, Silent)
      else
        var h := s.held[ticket];
        (State(Revoked(s.store, s.store.tokens[h.token.id], h.now), s.held[ticket := h.(revoked := true)]), Silent)
    case Issue(ticket, draw) =>
      if ticket !in s.held || !s.held[ticket].revoked then (s, Silent)
      else
        var (store, r) := IssuingTo(s.store, lib, s.held[ticket].token.userId, draw);
        (State(store, s.held - {ticket}), Paired(r))
    case Login(email, password, draw) =>
      var (store, r) := LoggingIn(s.store, lib, email, password, draw);
      (s.(store := store), Paired(r))
  }

  ghost function IssuingTo(s: Store, lib: Lib, userId: string, draw: Draw): (Store, UserStore.Result<TokenPair>) {
    if userId !in s.users then (s, Err(NotFound)) else Issuing(s, lib, s.users[userId], draw)
  }

  /** The ticket's refresh has passed its checks and comes to revoke now. */
  ghost predicate RevokesFor(s: State, ticket: nat) {
    ticket in s.held && !s.held[ticket].revoked && s.held[ticket].token.id in s.store.tokens
  }

  ghost function Run(start: Store, lib: Lib, steps: seq<Step>): State {
    if steps == [] then State(start, map[])
    else Stepped(Run(start, lib, steps[..|steps| - 1]), lib, steps[|steps| - 1]).0
  }

  ghost function Before(start: Store, lib: Lib, steps: seq<Step>, i: nat): State
    requires i <= |steps|
  {
    Run(start, lib, steps[..i])
  }

  ghost function ReplyTo(start: Store, lib: Lib, steps: seq<Step>, i: nat): Reply
    requires i < |steps|
  {
    Stepped(Before(start, lib, steps, i), lib, steps[i]).1
  }

  /** What is drawn at random is new. */
  ghost predicate Admissible(s: State, lib: Lib, step: Step) {
    step.Issue? || step.Login? ==> FreshDraw(s.store, lib, step.draw)
  }

  ghost predicate Admitted(start: Store, lib: Lib, steps: seq<Step>) {
    StoreOk(start) && forall i | 0 <= i < |steps| :: Admissible(Before(start, lib, steps, i), lib, steps[i])
  }

  // ---------------------------------------------------------------- what every step keeps

  /** Each held token is stored, and only its revocation may have been written since, as it has been
      once its holder is done revoking. */
  ghost predicate HeldOk(s: State) {
    forall t | t in s.held ::
      var k := s.held[t].token.id;
      && k in s.store.tokens && s.store.tokens[k].(revokedAt := None) == s.held[t].token.(revokedAt := None)
      && (s.held[t].revoked ==> s.store.tokens[k].revokedAt.Some?)
  }

  ghost predicate StateOk(s: State) { StoreOk(s.store) && HeldOk(s) }

  /** The step revokes token k. */
  ghost predicate Revokes(s: State, step: Step, k: string) {
    step.Revoke? && RevokesFor(s, step.ticket) && s.held[step.ticket].token.id == k
  }

  /** Tokens stay, and a token is revoked exactly by the steps that revoke it. */
  ghost predicate TokensLast(s: State, step: Step, s1: State) {
    forall k | k in s.store.tokens ::
      && k in s1.store.tokens
      && s1.store.tokens[k].(revokedAt := None) == s.store.tokens[k].(revokedAt := None)
      && (s1.store.tokens[k].revokedAt.Some? <==> s.store.tokens[k].revokedAt.Some? || Revokes(s, step, k))
  }

  lemma StepKeepsTokens(s: State, lib: Lib, step: Step)
    requires StateOk(s) && Admissible(s, lib, step)
    ensures TokensLast(s, step, Stepped(s, lib, step).0)
  {
    hide StoreOk, UserByEmail, TokenByHash;
  }

  lemma StepKeepsStoreOk(s: State, lib: Lib, step: Step)
    requires StateOk(s) && Admissible(s, lib, step)
    ensures StoreOk(Stepped(s, lib, step).0.store)
  {
    match step
    case Lookup(_, _, _) =>
    case Revoke(ticket) =>
      if RevokesFor(s, ticket) {
        var h := s.held[ticket];
        RevokingKeepsStoreOk(s.store, s.store.tokens[h.token.id], h.now);
      }
    case Issue(ticket, draw) =>
      hide StoreOk;
      if ticket in s.held && s.held[ticket].token.userId in s.store.users {
        OwnId(s.store, s.held[ticket].token.userId);
        IssuingKeepsStoreOk(s.store, lib, s.store.users[s.held[ticket].token.userId], draw);
      }
    case Login(email, _, draw) =>
      hide StoreOk, UserByEmail;
      var e := lib.toLower(Strings.TrimSpace(email));
      UserByEmailIsStored(s.store, e);
      if UserByEmail(s.store, e).Some? { IssuingKeepsStoreOk(s.store, lib, UserByEmail(s.store, e).value, draw); }
  }

  lemma OwnId(s: Store, userId: string)
    requires StoreOk(s) && userId in s.users
    ensures s.users[userId].id == userId
  {
  }

  lemma StepKeepsHeldOk(s: State, lib: Lib, step: Step)
    requires StateOk(s) && TokensLast(s, step, Stepped(s, lib, step).0)
    ensures HeldOk(Stepped(s, lib, step).0)
  {
    hide StoreOk, UserByEmail, TokenByHash, LoggingIn, IssuingTo, Revoked;
    if step.Lookup? { TokenByHashIsStored(s.store, lib.hashToken(step.raw)); }
  }

  lemma BeforeNext(start: Store, lib: Lib, steps: seq<Step>, i: nat)
    requires i < |steps|
    ensures Before(start, lib, steps, i + 1) == Stepped(Before(start, lib, steps, i), lib, steps[i]).0
  {
    assert steps[..i + 1][..i] == steps[..i];
  }

  lemma {:induction false} BeforeIsOk(start: Store, lib: Lib, steps: seq<Step>, i: nat)
    requires Admitted(start, lib, steps) && i <= |steps|
    ensures StateOk(Before(start, lib, steps, i))
  {
    if i > 0 {
      hide StoreOk, HeldOk, TokensLast, Stepped, Admissible;
      BeforeIsOk(start, lib, steps, i - 1);
      BeforeNext(start, lib, steps, i - 1);
      var s := Before(start, lib, steps, i - 1);
      StepKeepsTokens(s, lib, steps[i - 1]);
      StepKeepsStoreOk(s, lib, steps[i - 1]);
      StepKeepsHeldOk(s, lib, steps[i - 1]);
    }
  }

  // ---------------------------------------------------------------- how often a token can be redeemed

  ghost predicate RevokedBetween(start: Store, lib: Lib, steps: seq<Step>, i: nat, j: nat, k: string)
    requires j <= |steps|
  {
    exists l | i <= l < j :: Revokes(Before(start, lib, steps, l), steps[l], k)
  }

  /** Between two points of a run nothing but its revocation happens to a token. */
  lemma {:induction false} TokenBetween(start: Store, lib: Lib, steps: seq<Step>, i: nat, j: nat, k: string)
    requires Admitted(start, lib, steps) && i <= j <= |steps| && k in Before(start, lib, steps, i).store.tokens
    ensures k in Before(start, lib, steps, j).store.tokens
    ensures var t, t1 := Before(start, lib, steps, i).store.tokens[k], Before(start, lib, steps, j).store.tokens[k];
      && t1.(revokedAt := None) == t.(revokedAt := None)
      && (t1.revokedAt.Some? <==> t.revokedAt.Some? || RevokedBetween(start, lib, steps, i, j, k))
    decreases j
  {
    hide StateOk, Stepped, Before, Revokes, Admissible;
    if i < j {
      TokenBetween(start, lib, steps, i, j - 1, k);
      BeforeIsOk(start, lib, steps, j - 1);
      BeforeNext(start, lib, steps, j - 1);
      StepKeepsTokens(Before(start, lib, steps, j - 1), lib, steps[j - 1]);
    }
  }

  /** The token that a lookup finds. */
  ghost function Found(start: Store, lib: Lib, steps: seq<Step>, i: nat): Option<RefreshToken>
    requires i < |steps| && steps[i].Lookup?
  {
    TokenByHash(Before(start, lib, steps, i).store, lib.hashToken(steps[i].raw))
  }

  lemma FoundStays(s: Store, s1: Store, hash: string, t: RefreshToken)
    requires StoreOk(s) && StoreOk(s1) && TokenByHash(s, hash) == Some(t)
    ensures t.id in s.tokens && s.tokens[t.id] == t
    ensures t.id in s1.tokens && s1.tokens[t.id].(revokedAt := None) == t.(revokedAt := None) ==>
      TokenByHash(s1, hash) == Some(s1.tokens[t.id])
  {
    TokenByHashIsStored(s, hash);
    if t.id in s1.tokens { LookupsAreFunctions(s1, t.id); }
  }

  /** When one token is redeemed twice. After a refresh has passed its checks, another one with the
      same value passes too if and only if it comes before the expiry and no refresh has revoked the
      token in between. */
  lemma SecondPassesIff(start: Store, lib: Lib, steps: seq<Step>, i: nat, j: nat)
    requires Admitted(start, lib, steps) && i < j < |steps| && steps[i].Lookup? && steps[j].Lookup?
    requires lib.hashToken(steps[i].raw) == lib.hashToken(steps[j].raw)
    requires ReplyTo(start, lib, steps, i) == Passed
    ensures Found(start, lib, steps, i).Some?
    ensures var t := Found(start, lib, steps, i).value;
      ReplyTo(start, lib, steps, j) == Passed <==>
        steps[j].now <= t.expiresAt && !RevokedBetween(start, lib, steps, i, j, t.id)
  {
    var t := Found(start, lib, steps, i).value;
    hide StoreOk, Before, RevokedBetween, TokenByHash;
    BeforeIsOk(start, lib, steps, i);
    BeforeIsOk(start, lib, steps, j);
    FoundStays(Before(start, lib, steps, i).store, Before(start, lib, steps, j).store, lib.hashToken(steps[i].raw), t);
    TokenBetween(start, lib, steps, i, j, t.id);
  }

  /** Each refresh that passes its checks revokes the token in the very next step. */
  ghost predicate RevokesAtOnce(start: Store, lib: Lib, steps: seq<Step>) {
    forall i | 0 <= i < |steps| && steps[i].Lookup? && ReplyTo(start, lib, steps, i) == Passed ::
      i + 1 < |steps| && steps[i + 1] == Revoke(steps[i].ticket)
  }

  /** Were the lookup and the revocation one step, a token would be redeemed at most once. */
  lemma SingleUseIfRevokedAtOnce(start: Store, lib: Lib, steps: seq<Step>, i: nat, j: nat)
    requires Admitted(start, lib, steps) && RevokesAtOnce(start, lib, steps)
    requires i < j < |steps| && steps[i].Lookup? && steps[j].Lookup?
    requires lib.hashToken(steps[i].raw) == lib.hashToken(steps[j].raw)
    requires ReplyTo(start, lib, steps, i) == Passed
    ensures ReplyTo(start, lib, steps, j) == Refused
  {
    assert steps[i + 1] == Revoke(steps[i].ticket);
    SecondPassesIff(start, lib, steps, i, j);
    var t := Found(start, lib, steps, i).value;
    BeforeIsOk(start, lib, steps, i);
    TokenByHashIsStored(Before(start, lib, steps, i).store, lib.hashToken(steps[i].raw));
    BeforeNext(start, lib, steps, i);
    assert Revokes(Before(start, lib, steps, i + 1), steps[i + 1], t.id);
  }

  /** Once past the checks and the revocation, a refresh succeeds exactly if signing and the random
      source do: nobody looks at the token again. */
  lemma IssueSucceedsIff(start: Store, lib: Lib, steps: seq<Step>, i: nat)
    requires Admitted(start, lib, steps) && i < |steps| && steps[i].Issue?
    requires var held := Before(start, lib, steps, i).held; steps[i].ticket in held && held[steps[i].ticket].revoked
    ensures var reply := ReplyTo(start, lib, steps, i);
      && reply.Paired? && reply.pair != Err(NotFound)
      && (reply.pair.Ok? <==> steps[i].draw.signs && steps[i].draw.raw.Some?)
  {
    hide Run;
    BeforeIsOk(start, lib, steps, i);
  }

  /** Nobody issues without having revoked: the old token is dead before the new one is handed out. */
  lemma {:induction false} IssueNeedsRevoke(start: Store, lib: Lib, steps: seq<Step>, i: nat)
    requires Admitted(start, lib, steps) && i < |steps| && steps[i].Issue? && ReplyTo(start, lib, steps, i) != Silent
    ensures exists l | 0 <= l < i :: steps[l] == Revoke(steps[i].ticket)
    ensures var s := Before(start, lib, steps, i);
      && steps[i].ticket in s.held && s.held[steps[i].ticket].token.id in s.store.tokens
      && s.store.tokens[s.held[steps[i].ticket].token.id].revokedAt.Some?
  {
    hide Run;
    BeforeIsOk(start, lib, steps, i);
    RevokeCameBefore(start, lib, steps, i, steps[i].ticket);
  }

  lemma {:induction false} RevokeCameBefore(start: Store, lib: Lib, steps: seq<Step>, i: nat, ticket: nat)
    requires i <= |steps|
    requires var held := Before(start, lib, steps, i).held; ticket in held && held[ticket].revoked
    ensures exists l | 0 <= l < i :: steps[l] == Revoke(ticket)
  {
    if i > 0 && steps[i - 1] != Revoke(ticket) {
      hide Stepped;
      BeforeNext(start, lib, steps, i - 1);
      OnlyRevokeRevokes(Before(start, lib, steps, i - 1), lib, steps[i - 1], ticket);
      RevokeCameBefore(start, lib, steps, i - 1, ticket);
    }
  }

  lemma OnlyRevokeRevokes(s: State, lib: Lib, step: Step, ticket: nat)
    requires step != Revoke(ticket)
    requires var held := Stepped(s, lib, step).0.held; ticket in held && held[ticket].revoked
    ensures ticket in s.held && s.held[ticket].revoked
  {
    hide TokenByHash, UserByEmail, LoggingIn, IssuingTo, Revoked;
  }

  /** A login is answered in the midst of refreshes as it always is, and does not touch what they hold. */
  lemma LoginIsAtomic(start: Store, lib: Lib, steps: seq<Step>, i: nat)
    requires Admitted(start, lib, steps) && i < |steps| && steps[i].Login?
    ensures var s, s1 := Before(start, lib, steps, i), Before(start, lib, steps, i + 1);
      var reply := ReplyTo(start, lib, steps, i);
      && s1.held == s.held && reply.Paired?
      && LoginAnswered(s.store, lib, steps[i].email, steps[i].password, steps[i].draw, s1.store, reply.pair)
  {
    hide LoginAnswered, LoggingIn, Run;
    BeforeIsOk(start, lib, steps, i);
    BeforeNext(start, lib, steps, i);
    LoginIsAnswered(Before(start, lib, steps, i).store, lib, steps[i].email, steps[i].password, steps[i].draw);
  }

  /** With nothing in between, the three calls are the atomic refresh. */
  lemma ThreeCallsAreRefreshing(s: State, lib: Lib, ticket: nat, raw: string, now: Time, draw: Draw)
    requires StateOk(s) && ticket !in s.held
    ensures var s1 := Stepped(s, lib, Lookup(ticket, raw, now));
      var s3 := Stepped(Stepped(s1.0, lib, Revoke(ticket)).0, lib, Issue(ticket, draw));
      var whole := Refreshing(s.store, lib, raw, now, draw);
      s3.0 == State(whole.0, s.held) &&
        (if s1.1 == Refused then whole.1 == Err(TokenInvalid) else s3.1 == Paired(whole.1))
  {
    hide StoreOk, TokenByHash;
    TokenByHashIsStored(s.store, lib.hashToken(raw));
  }

  ghost predicate Works(s: Store, lib: Lib, draw: Draw) {
    draw.signs && draw.raw.Some? && FreshDraw(s, lib, draw)
  }

  ghost function RaceSteps(raw: string, now: Time, a: Draw, b: Draw): seq<Step> {
    [Lookup(0, raw, now), Lookup(1, raw, now), Revoke(0), Revoke(1), Issue(0, a), Issue(1, b)]
  }

  /** Both refreshes hold the token, and both have revoked it. */
  ghost function RaceState(start: Store, t: RefreshToken, now: Time): State {
    State(Revoked(start, t, now), map[0 := Held(t, now, true), 1 := Held(t, now, true)])
  }

  lemma RaceBegins(start: Store, lib: Lib, raw: string, now: Time, t: RefreshToken)
    requires StoreOk(start) && TokenByHash(start, lib.hashToken(raw)) == Some(t) && Usable(t, now)
    ensures var s2 := Stepped(Stepped(State(start, map[]), lib, Lookup(0, raw, now)).0, lib, Lookup(1, raw, now)).0;
      Stepped(Stepped(s2, lib, Revoke(0)).0, lib, Revoke(1)).0 == RaceState(start, t, now)
  {
    hide StoreOk, TokenByHash;
    TokenByHashIsStored(start, lib.hashToken(raw));
    var s2 := Stepped(Stepped(State(start, map[]), lib, Lookup(0, raw, now)).0, lib, Lookup(1, raw, now)).0;
    assert s2 == State(start, map[0 := Held(t, now, false), 1 := Held(t, now, false)]);
    var s3 := Stepped(s2, lib, Revoke(0)).0;
    assert s3 == State(Revoked(start, t, now), map[0 := Held(t, now, true), 1 := Held(t, now, false)]);
    assert Revoked(s3.store, s3.store.tokens[t.id], now) == Revoked(start, t, now);
  }

  lemma RaceEnds(start: Store, lib: Lib, t: RefreshToken, now: Time, a: Draw, b: Draw)
    requires StoreOk(start) && t.id in start.tokens && start.tokens[t.id] == t
    requires Works(start, lib, a) && Works(start, lib, b)
    requires a.tokenId != b.tokenId && lib.hashToken(a.raw.value) != lib.hashToken(b.raw.value)
    ensures var s4 := RaceState(start, t, now);
      var first := Stepped(s4, lib, Issue(0, a));
      var second := Stepped(first.0, lib, Issue(1, b));
      && FreshDraw(s4.store, lib, a) && first.1.Paired? && first.1.pair.Ok?
      && FreshDraw(first.0.store, lib, b) && second.1.Paired? && second.1.pair.Ok?
  {
  }

  /** It does happen, to any token that can be redeemed at all: two refreshes that both look before
      either revokes both succeed. */
  lemma RaceRedeemsTwice(start: Store, lib: Lib, raw: string, now: Time, a: Draw, b: Draw)
    requires StoreOk(start) && TokenByHash(start, lib.hashToken(raw)).Some?
    requires Usable(TokenByHash(start, lib.hashToken(raw)).value, now)
    requires Works(start, lib, a) && Works(start, lib, b)
    requires a.tokenId != b.tokenId && lib.hashToken(a.raw.value) != lib.hashToken(b.raw.value)
    ensures var steps := RaceSteps(raw, now, a, b);
      && Admitted(start, lib, steps)
      && ReplyTo(start, lib, steps, 4).Paired? && ReplyTo(start, lib, steps, 4).pair.Ok?
      && ReplyTo(start, lib, steps, 5).Paired? && ReplyTo(start, lib, steps, 5).pair.Ok?
  {
    hide StoreOk, TokenByHash, Stepped, Works, Usable, FreshDraw, RaceState;
    var steps := RaceSteps(raw, now, a, b);
    var t := TokenByHash(start, lib.hashToken(raw)).value;
    TokenByHashIsStored(start, lib.hashToken(raw));
    RaceBegins(start, lib, raw, now, t);
    RaceEnds(start, lib, t, now, a, b);
    assert steps[..0] == [];
    assert Before(start, lib, steps, 0) == State(start, map[]);
    hide Before;
    BeforeNext(start, lib, steps, 0);
    BeforeNext(start, lib, steps, 1);
    BeforeNext(start, lib, steps, 2);
    BeforeNext(start, lib, steps, 3);
    BeforeNext(start, lib, steps, 4);
    assert Before(start, lib, steps, 4) == RaceState(start, t, now);
  }
}
