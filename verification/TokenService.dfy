/**
 The token life cycle (pkg/app/auth.go): password login, login with an access token, refresh
 and revoke over a store that keeps one refresh token for each user id.  Each successful
 request is one step; the delays in a label are the time that passes between the clock reads
 inside the handler.  Refused requests change nothing and are not steps.
 */
module TokenService {
  import opened Wrappers
  import opened Machine
  import opened Jwt

  datatype User = User(id: int, uuid: string, roles: seq<Role>)

  /**
   A token as it was handed out: when it was signed, the refresh token it descends from
   (itself, for a refresh token), and the token that was shown to get it, if any.
   */
  datatype Issue = Issue(token: Token, refresh: bool, at: int, family: nat, shown: Option<nat>, user: User)

  datatype State = State(clock: int, tokens: map<int, Token>, log: seq<Issue>)

  /** Tokens a client shows are named by their position in the log. */
  datatype Label =
    | Tick(d: nat)
    | PasswordLogin(id: int, user: User, d: nat)
    | ImplicitLogin(id: int, shown: nat, d1: nat, d2: nat)
    | Refresh(id: int, shown: nat, d1: nat, d2: nat)
    | Revoke(id: int, shown: nat, refresh: Token)
    | Evict(id: int)   // the store lets an entry go

  function NewClaims(u: User): Claims {
    Claims(u.id, u.uuid, u.roles, [TOKEN_AUDIENCE], ISSUER, None, None, None)
  }

  /** The claims Refresh builds from those of the refresh token. */
  function RenewedClaims(c: Claims, now: int): Claims {
    Claims(c.id, c.uuid, c.roles, [TOKEN_AUDIENCE], ISSUER, None, Some(Sec(now)), None)
  }

  /** responseToken: sign both tokens and store the refresh token under the claims' id. */
  function Respond(s: State, c: Claims, now: int, d: nat, shown: Option<nat>, user: User): State {
    var access := AccessClaims(c, now);
    var refresh := RefreshClaims(access, now + d);
    var n := |s.log|;
    State(now + d, s.tokens[c.id := Signed(refresh)],
          s.log + [Issue(Signed(access), false, now, n + 1, shown, user),
                   Issue(Signed(refresh), true, now + d, n + 1, shown, user)])
  }

  predicate Shows(s: State, shown: nat) {
    shown < |s.log| && s.log[shown].token.Signed?
  }

  function Step(s: State, l: Label): Option<State> {
    match l
    case Tick(d) => Some(s.(clock := s.clock + d))
    case PasswordLogin(id, user, d) =>
      if id == user.id then Some(Respond(s, NewClaims(user), s.clock, d, None, user)) else None
    case ImplicitLogin(id, shown, d1, d2) =>
      if Shows(s, shown) && Guard(s.log[shown].token, s.clock).Ok? && s.log[shown].token.claims.id == id then
        Some(Respond(s, s.log[shown].token.claims, s.clock + d1, d2, Some(shown), s.log[shown].user))
      else None
    case Refresh(id, shown, d1, d2) =>
      if Shows(s, shown) && ValidateRefreshToken(s.log[shown].token, s.clock).Ok? && s.log[shown].token.claims.id == id
         && id in s.tokens && s.tokens[id] == s.log[shown].token then
        var now := s.clock + d1 + d2;
        var access := AccessClaims(RenewedClaims(s.log[shown].token.claims, s.clock + d1), now);
        Some(State(now, s.tokens, s.log + [Issue(Signed(access), false, now, shown, Some(shown), s.log[shown].user)]))
      else None
    case Revoke(id, shown, refresh) =>
      if Shows(s, shown) && Guard(s.log[shown].token, s.clock).Ok? && s.log[shown].token.claims.id == id
         && id in s.tokens && s.tokens[id] == refresh then
        Some(s.(tokens := s.tokens - {id}))
      else None
    case Evict(id) => Some(s.(tokens := s.tokens - {id}))
  }

  function Init(clock: int): State {
    State(clock, map[], [])
  }

  // ---- What is in the log ----

  predicate SameIdentity(c: Claims, u: User) {
    c.id == u.id && c.uuid == u.uuid && c.roles == u.roles
  }

  predicate WellIssued(log: seq<Issue>, i: nat)
    requires i < |log|
  {
    var x := log[i];
    && x.token.Signed?
    && x.token.claims.iss == ISSUER
    && x.token.claims.aud == [if x.refresh then REFRESH_AUDIENCE else TOKEN_AUDIENCE]
    && x.token.claims.exp == Some(Sec(x.at + if x.refresh then REFRESH_EXPIRATION else EXPIRATION))
    && SameIdentity(x.token.claims, x.user)
    && x.token.claims.iat.Some?
    && (x.token.claims.nbf.Some? ==> x.token.claims.nbf.value <= x.token.claims.iat.value)
    && (if x.refresh then i > 0 && !log[i - 1].refresh && x.token.claims.iat.value == Sec(log[i - 1].at)
        else x.token.claims.iat.value == Sec(x.at))
    && x.family < |log| && log[x.family].refresh && (x.refresh ==> x.family == i)
    && (x.shown.Some? ==> x.shown.value < i && log[x.shown.value].user == x.user)
  }

  lemma WellIssuedExtends(log: seq<Issue>, more: seq<Issue>, i: nat)
    requires i < |log| && WellIssued(log, i)
    ensures WellIssued(log + more, i)
  {
  }

  lemma RespondWellIssued(s: State, c: Claims, now: int, d: nat, shown: Option<nat>, user: User)
    requires forall i :: 0 <= i < |s.log| ==> WellIssued(s.log, i)
    requires c.iss == ISSUER && c.aud == [TOKEN_AUDIENCE] && SameIdentity(c, user)
    requires c.nbf.Some? ==> c.nbf.value * SECOND <= now
    requires shown.Some? ==> shown.value < |s.log| && s.log[shown.value].user == user
    ensures var log := Respond(s, c, now, d, shown, user).log;
      forall i :: 0 <= i < |log| ==> WellIssued(log, i)
  {
    var log, n := Respond(s, c, now, d, shown, user).log, |s.log|;
    forall i | 0 <= i < n ensures WellIssued(log, i) {
      WellIssuedExtends(s.log, log[n..], i);
      assert log == s.log + log[n..];
    }
    assert c.nbf.Some? ==> c.nbf.value <= Sec(now);
    assert WellIssued(log, n + 1);
    assert WellIssued(log, n);
  }

  lemma StepWellIssued(s: State, l: Label)
    requires forall i :: 0 <= i < |s.log| ==> WellIssued(s.log, i)
    requires Step(s, l).Some?
    ensures forall i :: 0 <= i < |Step(s, l).value.log| ==> WellIssued(Step(s, l).value.log, i)
  {
    match l
    case PasswordLogin(_, user, d) =>
      RespondWellIssued(s, NewClaims(user), s.clock, d, None, user);
    case ImplicitLogin(_, shown, d1, d2) =>
      assert WellIssued(s.log, shown);
      assert TOKEN_AUDIENCE[0] != REFRESH_AUDIENCE[0];
      RespondWellIssued(s, s.log[shown].token.claims, s.clock + d1, d2, Some(shown), s.log[shown].user);
    case Refresh(_, shown, d1, d2) =>
      assert WellIssued(s.log, shown);
      assert TOKEN_AUDIENCE[0] != REFRESH_AUDIENCE[0];
      var log, n := Step(s, l).value.log, |s.log|;
      forall i | 0 <= i < n ensures WellIssued(log, i) {
        WellIssuedExtends(s.log, log[n..], i);
        assert log == s.log + log[n..];
      }
      assert WellIssued(log, n);
    case _ =>
  }

  lemma {:induction false} LogWellIssued(clock: int, ls: seq<Label>, s: State)
    requires Run(Step, Init(clock), ls) == Some(s)
    ensures forall i :: 0 <= i < |s.log| ==> WellIssued(s.log, i)
    decreases |ls|
  {
    if ls != [] {
      var m := Run(Step, Init(clock), ls[..|ls| - 1]).value;
      LogWellIssued(clock, ls[..|ls| - 1], m);
      StepWellIssued(m, ls[|ls| - 1]);
    }
  }

  /** An access token passes the guard while its times hold and never refreshes; and vice versa. */
  lemma IssuedForOneUse(clock: int, ls: seq<Label>, s: State, i: nat, now: int)
    requires Run(Step, Init(clock), ls) == Some(s) && i < |s.log|
    ensures Guard(s.log[i].token, now).Ok? <==> !s.log[i].refresh && Parses(s.log[i].token, now)
    ensures ValidateRefreshToken(s.log[i].token, now).Ok? <==> s.log[i].refresh && Parses(s.log[i].token, now)
  {
    LogWellIssued(clock, ls, s);
    assert WellIssued(s.log, i);
    NeverBoth(s.log[i].token, now, now);
  }

  /**
   Exactly when an issued token is accepted: an access token from the second it was signed in
   for two hours, a refresh token from the second the access token beside it was signed in
   until five days after its own signing, both cut to whole seconds.
   */
  lemma IssuedAcceptedExactly(clock: int, ls: seq<Label>, s: State, i: nat, now: int)
    requires Run(Step, Init(clock), ls) == Some(s) && i < |s.log|
    ensures Guard(s.log[i].token, now).Ok? <==>
      && !s.log[i].refresh
      && s.log[i].at / 1_000_000_000 * 1_000_000_000 <= now
      && now < (s.log[i].at + 7_200_000_000_000) / 1_000_000_000 * 1_000_000_000
    ensures s.log[i].refresh ==> i > 0 && !s.log[i - 1].refresh
    ensures ValidateRefreshToken(s.log[i].token, now).Ok? <==>
      && s.log[i].refresh
      && s.log[i - 1].at / 1_000_000_000 * 1_000_000_000 <= now
      && now < (s.log[i].at + 432_000_000_000_000) / 1_000_000_000 * 1_000_000_000
  {
    LogWellIssued(clock, ls, s);
    assert WellIssued(s.log, i);
    IssuedForOneUse(clock, ls, s, i, now);
  }

  /** Tokens are signed while their request is handled, and time does not go back. */
  lemma IssuedDuringStep(s: State, l: Label, i: nat)
    requires Step(s, l).Some?
    ensures s.clock <= Step(s, l).value.clock
    ensures s.log <= Step(s, l).value.log
    ensures |s.log| <= i < |Step(s, l).value.log| ==> s.clock <= Step(s, l).value.log[i].at <= Step(s, l).value.clock
  {
  }

  // ---- Identity along chains ----

  /** The password login a token goes back to, through every token that was shown. */
  function Root(log: seq<Issue>, i: nat): (r: nat)
    requires i < |log|
    ensures r <= i
  {
    match log[i].shown
    case Some(p) => if p < i then Root(log, p) else i
    case None => i
  }

  /** Id, uuid and roles are those of the user who logged in with a password at the root. */
  lemma {:induction false} IdentityFromRoot(clock: int, ls: seq<Label>, s: State, i: nat)
    requires Run(Step, Init(clock), ls) == Some(s) && i < |s.log|
    ensures s.log[Root(s.log, i)].shown == None
    ensures s.log[i].token.Signed? && SameIdentity(s.log[i].token.claims, s.log[Root(s.log, i)].user)
    decreases i
  {
    LogWellIssued(clock, ls, s);
    assert WellIssued(s.log, i);
    if s.log[i].shown.Some? {
      IdentityFromRoot(clock, ls, s, s.log[i].shown.value);
      assert WellIssued(s.log, s.log[i].shown.value);
    }
  }

  /** The root is a password login of the run, by that very user. */
  lemma {:induction false} RootIsPasswordLogin(clock: int, ls: seq<Label>, s: State, i: nat) returns (k: nat, d: nat)
    requires Run(Step, Init(clock), ls) == Some(s) && i < |s.log| && s.log[i].shown == None
    ensures k < |ls| && ls[k] == PasswordLogin(s.log[i].user.id, s.log[i].user, d)
    decreases |ls|
  {
    var ls', l := ls[..|ls| - 1], ls[|ls| - 1];
    var m := Run(Step, Init(clock), ls').value;
    IssuedDuringStep(m, l, i);
    if i < |m.log| {
      k, d := RootIsPasswordLogin(clock, ls', m, i);
    } else {
      k, d := |ls'|, l.d;
    }
  }

  // ---- Lifetime ----

  predicate Prompt(l: Label, delta: nat) {
    l.Refresh? ==> l.d1 + l.d2 <= delta
  }

  lemma SecBounds(t: int)
    ensures Sec(t) * SECOND <= t < Sec(t) * SECOND + SECOND
  {
  }

  /** The whole seconds by which a refresh that takes delta can outrun the refresh token's end. */
  function Overrun(delta: nat): nat {
    if delta == 0 then 0 else (delta - 1) / SECOND * SECOND
  }

  /** When both lifetimes of the refresh token that token i descends from are over. */
  function EndOfFamily(log: seq<Issue>, i: nat): int
    requires i < |log| && log[i].family < |log|
  {
    log[log[i].family].at + REFRESH_EXPIRATION + EXPIRATION
  }

  /** Expiry times are whole seconds, so up to a second of delay is lost again in rounding down. */
  lemma RoundingAbsorbs(clock: int, end: int, d: nat, delta: nat)
    requires clock < Sec(end) * SECOND && d <= delta
    ensures Sec(clock + d + EXPIRATION) * SECOND <= end + EXPIRATION + Overrun(delta)
  {
    SecBounds(end);
    SecBounds(clock + d + EXPIRATION);
    if delta > 0 {
      var q := (delta - 1) / SECOND;
      assert clock + d + EXPIRATION < (Sec(end) + EXPIRATION / SECOND + q + 1) * SECOND;
    }
  }

  /**
   An access token expires within both lifetimes of the signing of the refresh token it
   descends from, however many refreshes lie between.  delta bounds how long a Refresh takes
   from checking the old token to signing the new one; it counts only beyond whole seconds.
   */
  lemma {:induction false} AccessLifetime(clock: int, ls: seq<Label>, s: State, delta: nat, i: nat)
    requires Run(Step, Init(clock), ls) == Some(s) && i < |s.log| && !s.log[i].refresh
    requires forall k :: 0 <= k < |ls| ==> Prompt(ls[k], delta)
    ensures s.log[i].family < |s.log| && s.log[s.log[i].family].refresh
    ensures s.log[i].token.Signed? && s.log[i].token.claims.exp.Some?
    ensures s.log[i].token.claims.exp.value * SECOND <= EndOfFamily(s.log, i) + Overrun(delta)
    decreases |ls|
  {
    LogWellIssued(clock, ls, s);
    assert WellIssued(s.log, i);
    SecBounds(s.log[i].at + EXPIRATION);
    var ls', l := ls[..|ls| - 1], ls[|ls| - 1];
    var m := Run(Step, Init(clock), ls').value;
    if i < |m.log| {
      AccessLifetime(clock, ls', m, delta, i);
    } else if l.Refresh? {
      assert Prompt(l, delta);
      RefreshInTime(clock, ls', m, l, delta);
    }
  }

  /** What one refresh adds: the new token's expiry against the end of the token it showed. */
  lemma RefreshInTime(clock: int, ls: seq<Label>, m: State, l: Label, delta: nat)
    requires Run(Step, Init(clock), ls) == Some(m) && l.Refresh? && Step(m, l).Some? && l.d1 + l.d2 <= delta
    ensures l.shown < |m.log| && m.log[l.shown].refresh && m.log[l.shown].family == l.shown
    ensures Sec(m.clock + l.d1 + l.d2 + EXPIRATION) * SECOND
         <= m.log[l.shown].at + REFRESH_EXPIRATION + EXPIRATION + Overrun(delta)
  {
    LogWellIssued(clock, ls, m);
    assert WellIssued(m.log, l.shown);
    IssuedForOneUse(clock, ls, m, l.shown, m.clock);
    RoundingAbsorbs(m.clock, m.log[l.shown].at + REFRESH_EXPIRATION, l.d1 + l.d2, delta);
  }

  /** So, while no Refresh takes longer than a second, no guard accepts it after that. */
  lemma AcceptedWithinLifetime(clock: int, ls: seq<Label>, s: State, i: nat, now: int)
    requires Run(Step, Init(clock), ls) == Some(s) && i < |s.log|
    requires forall k :: 0 <= k < |ls| ==> Prompt(ls[k], SECOND)
    requires Guard(s.log[i].token, now).Ok?
    ensures s.log[i].family < |s.log| && s.log[s.log[i].family].refresh
    ensures now < s.log[s.log[i].family].at + REFRESH_EXPIRATION + EXPIRATION
  {
    IssuedForOneUse(clock, ls, s, i, now);
    AccessLifetime(clock, ls, s, SECOND, i);
  }

  /** An access token and its family, with the token's expiry within both lifetimes. */
  predicate ExpiresInTime(log: seq<Issue>, i: nat)
    requires i < |log|
  {
    && log[i].family < |log|
    && log[i].token.Signed? && log[i].token.claims.exp.Some?
    && log[i].token.claims.exp.value * SECOND <= EndOfFamily(log, i)
  }

  ghost predicate AlwaysInTime(delta: nat) {
    forall clock: int, ls: seq<Label>, s: State, i: nat ::
      && Run(Step, Init(clock), ls) == Some(s)
      && i < |s.log| && !s.log[i].refresh
      && (forall k :: 0 <= k < |ls| ==> Prompt(ls[k], delta))
      ==> ExpiresInTime(s.log, i)
  }

  const NOBODY: User := User(0, "", [])

  /** The state after a login at time 0, at the last moment its refresh token is good. */
  function LastMoment(): State {
    Respond(Init(0), NewClaims(NOBODY), 0, 0, None, NOBODY).(clock := REFRESH_EXPIRATION - 1)
  }

  lemma LastMomentReached()
    ensures Run(Step, Init(0), [PasswordLogin(0, NOBODY, 0), Tick(REFRESH_EXPIRATION - 1)]) == Some(LastMoment())
  {
    var a, b := PasswordLogin(0, NOBODY, 0), Tick(REFRESH_EXPIRATION - 1);
    RunSnoc(Step, Init(0), [], a);
    RunSnoc(Step, Init(0), [a], b);
    assert [] + [a] == [a] && [a] + [b] == [a, b];
  }

  lemma LastMomentValid()
    ensures var s := LastMoment();
      |s.log| == 2 && s.log[1].token.Signed? && ValidateRefreshToken(s.log[1].token, s.clock).Ok?
  {
    assert Sec(0) == 0 && Sec(REFRESH_EXPIRATION) * SECOND == REFRESH_EXPIRATION;
  }

  /** A refresh one nanosecond before the end that takes a second and a nanosecond. */
  lemma LastMomentRefresh() returns (ls: seq<Label>, s: State)
    ensures Run(Step, Init(0), ls) == Some(s) && forall k :: 0 <= k < |ls| ==> Prompt(ls[k], SECOND + 1)
    ensures |s.log| == 3 && !s.log[2].refresh && !ExpiresInTime(s.log, 2)
  {
    var before, last := [PasswordLogin(0, NOBODY, 0), Tick(REFRESH_EXPIRATION - 1)], Refresh(0, 1, SECOND + 1, 0);
    LastMomentReached();
    LastMomentValid();
    RunSnoc(Step, Init(0), before, last);
    ls := before + [last];
    s := Step(LastMoment(), last).value;
    LastMomentTooLate(s.log[2].token.claims.exp.value);
  }

  lemma LastMomentTooLate(exp: int)
    requires exp == Sec(REFRESH_EXPIRATION - 1 + (SECOND + 1) + EXPIRATION)
    ensures exp * SECOND == REFRESH_EXPIRATION + EXPIRATION + SECOND
  {
  }

  /**
   Access tokens always expire within both lifetimes of their refresh token's signing exactly
   when no Refresh takes longer than a second between its check and its signature.
   */
  lemma InTimeExactlyUpToASecond(delta: nat)
    ensures AlwaysInTime(delta) <==> delta <= SECOND
  {
    if delta <= SECOND {
      forall clock: int, ls: seq<Label>, s: State, i: nat |
        && Run(Step, Init(clock), ls) == Some(s)
        && i < |s.log| && !s.log[i].refresh
        && (forall k :: 0 <= k < |ls| ==> Prompt(ls[k], delta))
        ensures ExpiresInTime(s.log, i)
      {
        AccessLifetime(clock, ls, s, delta, i);
      }
    } else {
      var ls, s := LastMomentRefresh();
      assert forall k :: 0 <= k < |ls| ==> Prompt(ls[k], SECOND + 1);
      assert forall k :: 0 <= k < |ls| ==> Prompt(ls[k], delta);
    }
  }

  // ---- One live refresh token for each user ----

  predicate IsLogin(l: Label, id: int) {
    (l.PasswordLogin? || l.ImplicitLogin?) && l.id == id
  }

  predicate TouchesStore(l: Label, id: int) {
    IsLogin(l, id) || ((l.Revoke? || l.Evict?) && l.id == id)
  }

  /** Step k is a login for id whose refresh token is r, and nothing has touched id since. */
  ghost predicate LatestLogin(clock: int, ls: seq<Label>, id: int, r: Token, k: nat) {
    && k < |ls|
    && IsLogin(ls[k], id)
    && Run(Step, Init(clock), ls[..k + 1]).Some?
    && (var log := Run(Step, Init(clock), ls[..k + 1]).value.log;
        |log| > 0 && log[|log| - 1].refresh && log[|log| - 1].token == r)
    && (forall m :: k < m < |ls| ==> !TouchesStore(ls[m], id))
  }

  /** A login stores the refresh token it just issued; other ids are left alone. */
  lemma StoreStep(s: State, l: Label, id: int)
    requires Step(s, l).Some?
    ensures var s' := Step(s, l).value;
      && s.log <= s'.log
      && (IsLogin(l, id) ==>
            |s'.log| == |s.log| + 2 && s'.log[|s.log| + 1].refresh
            && id in s'.tokens && s'.tokens[id] == s'.log[|s.log| + 1].token)
      && (!TouchesStore(l, id) ==> (id in s'.tokens <==> id in s.tokens))
      && (!TouchesStore(l, id) && id in s.tokens ==> s'.tokens[id] == s.tokens[id])
      && (TouchesStore(l, id) && !IsLogin(l, id) ==> id !in s'.tokens)
  {
  }

  lemma LatestLoginLasts(clock: int, ls: seq<Label>, l: Label, id: int, r: Token, k: nat)
    requires LatestLogin(clock, ls, id, r, k) && !TouchesStore(l, id)
    ensures LatestLogin(clock, ls + [l], id, r, k)
  {
    assert (ls + [l])[..k + 1] == ls[..k + 1];
  }

  lemma LoginIsLatest(clock: int, ls: seq<Label>, m: State, l: Label, id: int)
    requires Run(Step, Init(clock), ls) == Some(m) && Step(m, l).Some? && IsLogin(l, id)
    ensures id in Step(m, l).value.tokens
    ensures LatestLogin(clock, ls + [l], id, Step(m, l).value.tokens[id], |ls|)
  {
    RunSnoc(Step, Init(clock), ls, l);
    StoreStep(m, l, id);
    assert (ls + [l])[..|ls| + 1] == ls + [l];
  }

  lemma {:induction false} StoreKeepsLatestLogin(clock: int, ls: seq<Label>, s: State, id: int) returns (k: nat)
    requires Run(Step, Init(clock), ls) == Some(s) && id in s.tokens
    ensures LatestLogin(clock, ls, id, s.tokens[id], k)
    decreases |ls|
  {
    var ls', l := ls[..|ls| - 1], ls[|ls| - 1];
    var m := Run(Step, Init(clock), ls').value;
    assert ls == ls' + [l];
    if IsLogin(l, id) {
      k := |ls'|;
      LoginIsLatest(clock, ls', m, l, id);
    } else {
      StoreStep(m, l, id);
      k := StoreKeepsLatestLogin(clock, ls', m, id);
      LatestLoginLasts(clock, ls', l, id, s.tokens[id], k);
    }
  }

  /** A refresh succeeds only with the token of the latest login for its id. */
  lemma RefreshNeedsLatestLogin(clock: int, ls: seq<Label>, s: State, id: int, shown: nat, d1: nat, d2: nat)
    returns (k: nat)
    requires Run(Step, Init(clock), ls) == Some(s) && Step(s, Refresh(id, shown, d1, d2)).Some?
    ensures LatestLogin(clock, ls, id, s.log[shown].token, k)
  {
    k := StoreKeepsLatestLogin(clock, ls, s, id);
  }

  /** Once another token is stored for id, or none, r works again only if it is issued anew. */
  lemma {:induction false} SupersededStaysDead(s: State, ls: seq<Label>, s': State, id: int, r: Token)
    requires Run(Step, s, ls) == Some(s')
    requires id !in s.tokens || s.tokens[id] != r
    ensures s.log <= s'.log
    ensures (forall i :: |s.log| <= i < |s'.log| ==> s'.log[i].token != r) ==> id !in s'.tokens || s'.tokens[id] != r
    decreases |ls|
  {
    if ls != [] {
      var m := Run(Step, s, ls[..|ls| - 1]).value;
      SupersededStaysDead(s, ls[..|ls| - 1], m, id, r);
      StoreStep(m, ls[|ls| - 1], id);
    }
  }

  /** After a Revoke nothing refreshes for that id until its next login. */
  lemma {:induction false} RevokedUntilLogin(s0: State, id: int, shown: nat, refresh: Token, ls: seq<Label>, s: State)
    requires Step(s0, Revoke(id, shown, refresh)).Some?
    requires Run(Step, Step(s0, Revoke(id, shown, refresh)).value, ls) == Some(s)
    requires forall k :: 0 <= k < |ls| ==> !IsLogin(ls[k], id)
    ensures id !in s.tokens
    ensures forall i, d1, d2 :: Step(s, Refresh(id, i, d1, d2)) == None
    decreases |ls|
  {
    if ls != [] {
      var ls', l := ls[..|ls| - 1], ls[|ls| - 1];
      var m := Run(Step, Step(s0, Revoke(id, shown, refresh)).value, ls').value;
      RevokedUntilLogin(s0, id, shown, refresh, ls', m);
      StoreStep(m, l, id);
    }
  }

  // ---- Exactly which requests succeed ----

  lemma {:induction false} SignedByNow(clock: int, ls: seq<Label>, s: State)
    requires Run(Step, Init(clock), ls) == Some(s)
    ensures forall i :: 0 <= i < |s.log| ==> s.log[i].at <= s.clock
    decreases |ls|
  {
    if ls != [] {
      var m := Run(Step, Init(clock), ls[..|ls| - 1]).value;
      SignedByNow(clock, ls[..|ls| - 1], m);
      forall i | 0 <= i < |s.log| ensures s.log[i].at <= s.clock {
        IssuedDuringStep(m, ls[|ls| - 1], i);
      }
    }
  }

  /** The token of the latest login is the one the store holds. */
  lemma {:induction false} LatestLoginIsStored(clock: int, ls: seq<Label>, s: State, id: int, r: Token, k: nat)
    requires Run(Step, Init(clock), ls) == Some(s) && LatestLogin(clock, ls, id, r, k)
    ensures id in s.tokens && s.tokens[id] == r
    decreases |ls|
  {
    var ls', l := ls[..|ls| - 1], ls[|ls| - 1];
    var m := Run(Step, Init(clock), ls').value;
    StoreStep(m, l, id);
    if k == |ls'| {
      assert ls[..k + 1] == ls;
    } else {
      assert ls'[..k + 1] == ls[..k + 1];
      assert forall i :: 0 <= i < |ls'| ==> ls'[i] == ls[i];
      LatestLoginIsStored(clock, ls', m, id, r, k);
    }
  }

  lemma StoredExactly(clock: int, ls: seq<Label>, s: State, id: int, r: Token)
    requires Run(Step, Init(clock), ls) == Some(s)
    ensures id in s.tokens && s.tokens[id] == r <==> exists k :: LatestLogin(clock, ls, id, r, k)
  {
    if id in s.tokens {
      var k := StoreKeepsLatestLogin(clock, ls, s, id);
    }
    if k :| LatestLogin(clock, ls, id, r, k) {
      LatestLoginIsStored(clock, ls, s, id, r, k);
    }
  }

  /** Log entry i is an access token for id within the two hours after its signing. */
  predicate AccessFor(s: State, id: int, i: nat) {
    && i < |s.log| && !s.log[i].refresh && s.log[i].user.id == id
    && s.clock < (s.log[i].at + 7_200_000_000_000) / 1_000_000_000 * 1_000_000_000
  }

  /** Log entry i is a refresh token for id within the five days after its signing. */
  predicate RefreshFor(s: State, id: int, i: nat) {
    && i < |s.log| && s.log[i].refresh && s.log[i].user.id == id
    && s.clock < (s.log[i].at + 432_000_000_000_000) / 1_000_000_000 * 1_000_000_000
  }

  lemma AcceptedNow(clock: int, ls: seq<Label>, s: State, id: int, i: nat)
    requires Run(Step, Init(clock), ls) == Some(s) && i < |s.log|
    ensures var x := s.log[i].token;
      && x.Signed?
      && (AccessFor(s, id, i) <==> Guard(x, s.clock).Ok? && x.claims.id == id)
      && (RefreshFor(s, id, i) <==> ValidateRefreshToken(x, s.clock).Ok? && x.claims.id == id)
  {
    LogWellIssued(clock, ls, s);
    assert WellIssued(s.log, i);
    IssuedAcceptedExactly(clock, ls, s, i, s.clock);
    SignedByNow(clock, ls, s);
  }

  /** A Refresh succeeds exactly with the unexpired refresh token of the latest login for its id. */
  lemma RefreshSucceedsExactly(clock: int, ls: seq<Label>, s: State, id: int, shown: nat, d1: nat, d2: nat)
    requires Run(Step, Init(clock), ls) == Some(s)
    ensures Step(s, Refresh(id, shown, d1, d2)).Some?
       <==> RefreshFor(s, id, shown) && exists k :: LatestLogin(clock, ls, id, s.log[shown].token, k)
  {
    if shown < |s.log| {
      AcceptedNow(clock, ls, s, id, shown);
      StoredExactly(clock, ls, s, id, s.log[shown].token);
    }
  }

  /** A login without a password needs an unexpired access token, and that is all. */
  lemma ImplicitLoginSucceedsExactly(clock: int, ls: seq<Label>, s: State, id: int, shown: nat, d1: nat, d2: nat)
    requires Run(Step, Init(clock), ls) == Some(s)
    ensures Step(s, ImplicitLogin(id, shown, d1, d2)).Some? <==> AccessFor(s, id, shown)
  {
    if shown < |s.log| {
      AcceptedNow(clock, ls, s, id, shown);
    }
  }

  /** A Revoke needs both: an unexpired access token and the latest login's refresh token. */
  lemma RevokeSucceedsExactly(clock: int, ls: seq<Label>, s: State, id: int, shown: nat, refresh: Token)
    requires Run(Step, Init(clock), ls) == Some(s)
    ensures Step(s, Revoke(id, shown, refresh)).Some?
       <==> AccessFor(s, id, shown) && exists k :: LatestLogin(clock, ls, id, refresh, k)
  {
    if shown < |s.log| {
      AcceptedNow(clock, ls, s, id, shown);
      StoredExactly(clock, ls, s, id, refresh);
    }
  }

  // ---- The handlers ----

  datatype HttpError = Status400 | Status401 | Status404 | Status415 | Status500 | HydraStatus

  class Service {
    var clock: int
    var tokens: map<int, Token>
    ghost var log: seq<Issue>

    ghost function St(): State
      reads this
    {
      State(clock, tokens, log)
    }

    /** Only this service signs, so a signed token is one it handed out. */
    ghost predicate HandedOut(t: Token, index: nat)
      reads this
    {
      t.Signed? ==> index < |log| && log[index].token == t
    }

    constructor (clock: int)
      ensures St() == Init(clock)
    {
      this.clock, tokens, log := clock, map[], [];
    }

    method ResponseToken(c: ClaimsRef, d: nat, ghost shown: Option<nat>, ghost user: User) returns (resp: TokenResponse)
      modifies this, c
      ensures fresh(resp)
      ensures St() == Respond(old(St()), old(c.claims), old(clock), d, shown, user)
      ensures |log| >= 2 && resp.token == log[|log| - 2].token && resp.refreshToken == Some(log[|log| - 1].token)
      ensures c.claims == AccessClaims(old(c.claims), old(clock))
    {
      resp := NewTokenResponse(clock, d, c);
      var refresh := resp.refreshToken.value;
      tokens := tokens[c.claims.id := refresh];
      log := log + [Issue(resp.token, false, clock, |log| + 1, shown, user),
                    Issue(refresh, true, clock + d, |log| + 1, shown, user)];
      clock := clock + d;
    }

    /** `bad` is what is wrong with the body or query; u is what the user store made of the login. */
    method Token(bad: Option<HttpError>, u: Option<User>, hydra: bool, d: nat)
      returns (r: Result<TokenResponse, HttpError>)
      modifies this
      ensures r.Ok? <==> bad.None? && u.Some? && hydra
      ensures r.Ok? ==> Some(St()) == Step(old(St()), PasswordLogin(u.value.id, u.value, d))
      ensures r.Ok? ==> |log| >= 2 && r.value.token == log[|log| - 2].token
      ensures r.Ok? ==> r.value.refreshToken == Some(log[|log| - 1].token)
      ensures r.Err? ==> St() == old(St())
      ensures r.Err? ==> r.error == if bad.Some? then bad.value else if u.None? then Status404 else Status500
    {
      if bad.Some? {
        return Err(bad.value);
      }
      match u {
        case None => return Err(Status404);
        case Some(user) =>
          if !hydra {
            return Err(Status500);
          }
          var claims := new ClaimsRef(NewClaims(user));
          var resp := ResponseToken(claims, d, None, user);
          return Ok(resp);
      }
    }

    /**
     ImplicitUser and Login: an access token that passes the guard stands in for the password
     if its user still exists, and its claims are signed again as they are.  A challenge that
     the OAuth server does not accept, or a bad body, ends the request before anything is issued.
     */
    method Login(
        access: Token, ghost index: nat, bad: Option<HttpError>, u: Option<User>, known: bool, hydra: bool,
        d1: nat, d2: nat)
      returns (r: Result<TokenResponse, HttpError>)
      requires HandedOut(access, index)
      modifies this
      ensures var implicit := Guard(access, old(clock)).Ok?;
        && (r.Ok? <==> bad.None? && hydra && if implicit then known else u.Some?)
        && (r.Ok? && implicit ==>
              Some(St()) == Step(old(St()), ImplicitLogin(access.claims.id, index, d1, d2)))
        && (r.Ok? && !implicit ==>
              Some(St()) == Step(old(St()).(clock := old(clock) + d1), PasswordLogin(u.value.id, u.value, d2)))
        && (r.Ok? ==> |log| >= 2 && r.value.token == log[|log| - 2].token)
        && (r.Err? ==>
              r.error == if bad.Some? then bad.value
                         else if (if implicit then known else u.Some?) then HydraStatus
                         else Status401)
      ensures r.Err? ==> St() == old(St())
    {
      if bad.Some? {
        return Err(bad.value);
      }
      match Guard(access, clock) {
        case Ok(c) =>
          if !known {
            return Err(Status401);
          }
          if !hydra {
            return Err(HydraStatus);
          }
          var claims := new ClaimsRef(c);
          clock := clock + d1;
          var resp := ResponseToken(claims, d2, Some(index), log[index].user);
          return Ok(resp);
        case Err(_) =>
          match u {
            case None => return Err(Status401);
            case Some(user) =>
              if !hydra {
                return Err(HydraStatus);
              }
              var claims := new ClaimsRef(NewClaims(user));
              clock := clock + d1;
              var resp := ResponseToken(claims, d2, None, user);
              return Ok(resp);
          }
      }
    }

    /** Tokens.Get: when Redis fails, the error is dropped and the token reads as empty. */
    method ReadStore(id: int, fails: bool) returns (r: Option<Token>)
      ensures r == if fails then Some(Junk("")) else if id in tokens then Some(tokens[id]) else None
    {
      if fails {
        return Some(Junk(""));
      }
      if id !in tokens {
        return None;
      }
      return Some(tokens[id]);
    }

    method Refresh(token: Token, ghost index: nat, binds: bool, fails: bool, d1: nat, d2: nat)
      returns (r: Result<TokenResponse, HttpError>)
      requires HandedOut(token, index)
      modifies this
      ensures r.Ok? <==>
        binds && !fails && token.Signed? && Step(old(St()), Label.Refresh(token.claims.id, index, d1, d2)).Some?
      ensures r.Ok? ==> Some(St()) == Step(old(St()), Label.Refresh(token.claims.id, index, d1, d2))
      ensures r.Ok? ==> |log| > 0 && r.value.token == log[|log| - 1].token && r.value.refreshToken == Some(token)
      ensures r.Err? ==> St() == old(St())
      ensures r.Err? ==>
        r.error == if !binds || ValidateRefreshToken(token, old(clock)).Err? then Status400 else Status401
    {
      if !binds {
        return Err(Status400);
      }
      match ValidateRefreshToken(token, clock) {
        case Err(_) => return Err(Status400);
        case Ok(c) =>
          var stored := ReadStore(c.id, fails);
          if stored.None? || stored.value != token {
            return Err(Status401);
          }
          var claims := new ClaimsRef(RenewedClaims(c, clock + d1));
          clock := clock + d1 + d2;
          var resp := NewAccessToken(clock, claims);
          resp.refreshToken := Some(token);
          log := log + [Issue(resp.token, false, clock, index, Some(index), log[index].user)];
          return Ok(resp);
      }
    }

    /** While Redis fails only an empty refresh token matches, and then the entry is deleted all the same. */
    method Revoke(access: Token, ghost index: nat, refresh: Token, fails: bool) returns (r: Result<(), HttpError>)
      requires HandedOut(access, index)
      modifies this
      ensures r.Ok? ==> access.Signed?
      ensures r.Ok? && !fails ==> Some(St()) == Step(old(St()), Label.Revoke(access.claims.id, index, refresh))
      ensures r.Ok? && fails ==> Some(St()) == Step(old(St()), Evict(access.claims.id))
      ensures !fails ==>
        (r.Ok? <==> access.Signed? && Step(old(St()), Label.Revoke(access.claims.id, index, refresh)).Some?)
      ensures fails ==> (r.Ok? <==> Guard(access, old(clock)).Ok? && refresh == Junk(""))
      ensures r.Err? ==> St() == old(St())
    {
      match Guard(access, clock) {
        case Err(BadToken) => return Err(Status401);
        case Err(_) => return Err(Status400);
        case Ok(c) =>
          var stored := ReadStore(c.id, fails);
          if stored.None? {
            return Err(Status500);
          }
          if stored.value != refresh {
            return Err(Status400);
          }
          tokens := tokens - {c.id};
          return Ok(());
      }
    }
  }
}
