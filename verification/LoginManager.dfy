/**
 The browser's login manager (frontend/legacy/util/LoginManager.ts): one refresh timer, and
 refreshes that are in flight while the page goes on calling login, logout and stop.
 */
module LoginManager {
  import opened Wrappers
  import opened Machine

  /** A refresh under way; one started by a timer schedules the next when it has its token. */
  datatype Flight = Fetching(chains: bool) | Scheduling

  /**
   `held` is the manager's refreshTokenTimeout; `pending` are the browser's timers that have
   neither fired nor been cleared, each with the time it is due, and all of them are numbered
   below `next`.  Times are in milliseconds; a token's expiry is in seconds.
   */
  datatype State = State(
    held: Option<nat>,
    pending: map<nat, int>,
    next: nat,
    loggedIn: bool,
    flights: map<nat, Flight>)

  datatype Label =
    | Login(expires: int, now: int, d: nat)    // d passes between the two looks at the clock
    | Logout
    | Stop
    | Fire(t: nat, f: nat, stored: bool)       // stored: there is a refresh token to send
    | StartRefresh(f: nat)                     // the constructor found an expired access token
    | RefreshOk(f: nat)
    | RefreshFails(f: nat)
    | Schedule(f: nat, expires: int, now: int) // the timer callback's continuation

  const SECOND: int := 1000

  predicate IsExpired(expires: int, now: int) {
    now >= expires * 1000
  }

  /** clearTimeout does nothing for a timer that has fired already. */
  function ClearRefreshTimeout(s: State): State {
    match s.held
    case Some(t) => s.(held := None, pending := s.pending - {t})
    case None => s
  }

  /** A token with less than a second left leaves the old timer as it is. */
  function DoTimeout(s: State, expires: int, now: int): State {
    var ms := expires * 1000 - now - SECOND;
    if ms < 0 then s
    else
      var c := ClearRefreshTimeout(s);
      c.(held := Some(c.next), pending := c.pending[c.next := now + ms], next := c.next + 1)
  }

  function Step(s: State, l: Label): Option<State> {
    match l
    case Login(expires, now, d) =>
      Some(if IsExpired(expires, now) then s else DoTimeout(s.(loggedIn := true), expires, now + d))
    case Logout => Some(ClearRefreshTimeout(s.(loggedIn := false)))
    case Stop => Some(ClearRefreshTimeout(s))
    case Fire(t, f, stored) =>
      if t in s.pending && f !in s.flights then
        var fired := s.(pending := s.pending - {t});
        Some(if stored then fired.(flights := s.flights[f := Fetching(true)]) else fired)
      else None
    case StartRefresh(f) =>
      if f !in s.flights then Some(s.(flights := s.flights[f := Fetching(false)])) else None
    case RefreshOk(f) =>
      if f in s.flights && s.flights[f].Fetching? then
        var flights := if s.flights[f].chains then s.flights[f := Scheduling] else s.flights - {f};
        Some(s.(loggedIn := true, flights := flights))
      else None
    case RefreshFails(f) =>
      if f in s.flights && s.flights[f].Fetching? then
        Some(s.(loggedIn := false, flights := s.flights - {f}))
      else None
    case Schedule(f, expires, now) =>
      if f in s.flights && s.flights[f].Scheduling? then
        Some(DoTimeout(s.(flights := s.flights - {f}), expires, now))
      else None
  }

  const INIT: State := State(None, map[], 0, false, map[])

  // ---- One timer ----

  predicate OneTimer(s: State) {
    && (forall t :: t in s.pending ==> s.held == Some(t))
    && (s.held.Some? ==> s.held.value < s.next)
  }

  lemma OneTimerStep(s: State, l: Label)
    requires OneTimer(s) && Step(s, l).Some?
    ensures OneTimer(Step(s, l).value)
  {
  }

  lemma OneTimerCard(s: State)
    requires OneTimer(s)
    ensures |s.pending| <= 1
  {
    if s.held.Some? {
      assert s.pending.Keys <= {s.held.value};
      assert s.pending.Keys == {} || s.pending.Keys == {s.held.value};
      assert |s.pending| == |s.pending.Keys|;
    } else {
      assert s.pending == map[];
    }
  }

  /** In every run at most one refresh timer is pending, and it is the one the manager holds. */
  lemma {:induction false} AtMostOneTimer(ls: seq<Label>, s: State)
    requires Run(Step, INIT, ls) == Some(s)
    ensures OneTimer(s) && |s.pending| <= 1
    decreases |ls|
  {
    if ls != [] {
      var m := Run(Step, INIT, ls[..|ls| - 1]).value;
      AtMostOneTimer(ls[..|ls| - 1], m);
      OneTimerStep(m, ls[|ls| - 1]);
    }
    OneTimerCard(s);
  }

  /** Clearing the held timer therefore clears every timer. */
  lemma ClearedMeansNonePending(ls: seq<Label>, s: State)
    requires Run(Step, INIT, ls) == Some(s)
    ensures ClearRefreshTimeout(s).pending == map[]
  {
    AtMostOneTimer(ls, s);
  }

  // ---- Who is logged in, and when the timer is due ----

  predicate LogsIn(l: Label) {
    (l.Login? && l.now < l.expires * 1000) || l.RefreshOk?
  }

  predicate LogsOut(l: Label) {
    l.Logout? || l.RefreshFails?
  }

  /** The manager is logged in exactly when it was logged in or refreshed, and not out again since. */
  lemma {:induction false} LoggedInExactly(ls: seq<Label>, s: State)
    requires Run(Step, INIT, ls) == Some(s)
    ensures s.loggedIn <==> exists k :: 0 <= k < |ls| && LogsIn(ls[k]) && forall m :: k < m < |ls| ==> !LogsOut(ls[m])
    decreases |ls|
  {
    if ls != [] {
      var ls', l := ls[..|ls| - 1], ls[|ls| - 1];
      LoggedInExactly(ls', Run(Step, INIT, ls').value);
      assert LogsIn(l) ==> s.loggedIn;
      assert LogsOut(l) ==> !s.loggedIn;
      assert !LogsIn(l) && !LogsOut(l) ==> s.loggedIn == Run(Step, INIT, ls').value.loggedIn;
      if s.loggedIn && !LogsIn(l) {
        var k :| 0 <= k < |ls'| && LogsIn(ls'[k]) && forall m :: k < m < |ls'| ==> !LogsOut(ls'[m]);
        assert LogsIn(ls[k]) && forall m :: k < m < |ls| ==> !LogsOut(ls[m]);
      }
      if k :| 0 <= k < |ls| && LogsIn(ls[k]) && forall m :: k < m < |ls| ==> !LogsOut(ls[m]) {
        assert k < |ls'| ==> LogsIn(ls'[k]) && forall m :: k < m < |ls'| ==> !LogsOut(ls'[m]);
      }
    }
  }

  /** The expiry of the token that a login or a timer's refresh brings, and when it is looked at. */
  function Brings(l: Label): Option<(int, int)> {
    match l
    case Login(expires, now, d) => if now < expires * 1000 then Some((expires, now + d)) else None
    case Schedule(_, expires, now) => Some((expires, now))
    case _ => None
  }

  lemma OnlyNewTimer(s: State, expires: int, now: int)
    requires OneTimer(s)
    ensures var t := DoTimeout(s, expires, now);
      if expires * 1000 - now >= 1000 then
        && t.held == Some(s.next) && t.held != s.held && s.next !in s.pending
        && t.pending == map[s.next := expires * 1000 - 1000]
      else
        t.held == s.held && t.pending == s.pending
  {
    assert ClearRefreshTimeout(s).pending == map[];
  }

  /**
   A token with at least a second left leaves exactly one timer, a new one, held by the
   manager and due one second before the token expires; any other changes no timer.
   */
  lemma TimerForToken(ls: seq<Label>, s: State, l: Label)
    requires Run(Step, INIT, ls) == Some(s) && Step(s, l).Some? && Brings(l).Some?
    ensures var (expires, now), t := Brings(l).value, Step(s, l).value;
      if expires * 1000 - now >= 1000 then
        && t.held.Some? && t.held != s.held && t.held.value !in s.pending
        && t.pending == map[t.held.value := expires * 1000 - 1000]
      else
        t.held == s.held && t.pending == s.pending
  {
    AtMostOneTimer(ls, s);
    var (expires, now) := Brings(l).value;
    var m := if l.Login? then s.(loggedIn := true) else s.(flights := s.flights - {l.f});
    assert Step(s, l) == Some(DoTimeout(m, expires, now));
    OnlyNewTimer(m, expires, now);
  }

  // ---- After logout and stop ----

  /** A flight that will schedule a timer when it succeeds. */
  predicate WillSchedule(x: Flight) {
    x == Fetching(true) || x == Scheduling
  }

  predicate Quiet(s: State) {
    s.pending == map[] && forall f :: f in s.flights ==> !WillSchedule(s.flights[f])
  }

  /** No continuation without a login, or a new manager, makes a refresh timer go off. */
  ghost predicate NeverRefreshes(s: State) {
    forall ls: seq<Label> ::
      Run(Step, s, ls).Some? ==>
        (exists i :: 0 <= i < |ls| && ls[i].Login?) || (forall i :: 0 <= i < |ls| ==> !ls[i].Fire?)
  }

  lemma {:induction false} QuietStays(s: State, ls: seq<Label>)
    requires Quiet(s) && Run(Step, s, ls).Some? && forall i :: 0 <= i < |ls| ==> !ls[i].Login?
    ensures Quiet(Run(Step, s, ls).value) && forall i :: 0 <= i < |ls| ==> !ls[i].Fire?
    decreases |ls|
  {
    if ls != [] {
      QuietStays(s, ls[..|ls| - 1]);
    }
  }

  /** A flight that is scheduling arms timer s.next, which can then go off. */
  lemma SchedulingFires(s: State, f: nat, stored: bool)
    requires f in s.flights && s.flights[f].Scheduling?
    ensures Run(Step, s, [Schedule(f, 1, 0), Fire(s.next, f, stored)])
         == Some(Fired(s, f, stored))
  {
    var a, b := Schedule(f, 1, 0), Fire(s.next, f, stored);
    var m := Step(s, a).value;
    assert s.next in m.pending && f !in m.flights;
    RunTwo(s, a, b, m, Fired(s, f, stored));
  }

  function Fired(s: State, f: nat, stored: bool): State
    requires f in s.flights && s.flights[f].Scheduling?
  {
    var armed := DoTimeout(s.(flights := s.flights - {f}), 1, 0);
    var t := armed.(pending := armed.pending - {s.next});
    if stored then t.(flights := t.flights[f := Fetching(true)]) else t
  }

  lemma RunTwo(s: State, a: Label, b: Label, m: State, t: State)
    requires Step(s, a) == Some(m) && Step(m, b) == Some(t)
    ensures Run(Step, s, [a, b]) == Some(t)
  {
    RunSnoc(Step, s, [], a);
    RunSnoc(Step, s, [a], b);
    assert [] + [a] == [a] && [a] + [b] == [a, b];
  }

  /** The state after the answer to a timer's refresh has come. */
  lemma AnswerComes(s: State, f: nat)
    requires f in s.flights && s.flights[f].Fetching?
    ensures var t := Step(s, RefreshOk(f));
      && Run(Step, s, [RefreshOk(f)]) == t && t.Some? && t.value.loggedIn
      && (s.flights[f].chains ==> f in t.value.flights && t.value.flights[f].Scheduling?)
  {
    RunSnoc(Step, s, [], RefreshOk(f));
    assert [] + [RefreshOk(f)] == [RefreshOk(f)];
  }

  lemma FlightComesBack(s: State, f: nat) returns (ls: seq<Label>)
    requires f in s.flights && WillSchedule(s.flights[f])
    ensures Run(Step, s, ls).Some? && |ls| > 0 && ls[|ls| - 1].Fire? && forall i :: 0 <= i < |ls| ==> !ls[i].Login?
  {
    if s.flights[f].Fetching? {
      AnswerComes(s, f);
      var t := Step(s, RefreshOk(f)).value;
      var rest := [Schedule(f, 1, 0), Fire(t.next, f, false)];
      SchedulingFires(t, f, false);
      RunConcat(Step, s, [RefreshOk(f)], rest);
      ls := [RefreshOk(f)] + rest;
    } else {
      SchedulingFires(s, f, false);
      ls := [Schedule(f, 1, 0), Fire(s.next, f, false)];
    }
  }

  /**
   After a logout or stop the manager refreshes no more until the next login exactly when no
   timer's refresh was in flight; one that was in flight schedules the next timer when it
   succeeds, logged out or not.
   */
  lemma SilentExactlyWhenNothingInFlight(ls: seq<Label>, s: State, l: Label)
    requires Run(Step, INIT, ls) == Some(s) && (l.Logout? || l.Stop?)
    ensures NeverRefreshes(Step(s, l).value) <==> forall f :: f in s.flights ==> !WillSchedule(s.flights[f])
  {
    var t := Step(s, l).value;
    ClearedMeansNonePending(ls, s);
    if Quiet(t) {
      forall ms: seq<Label> | Run(Step, t, ms).Some? && forall i :: 0 <= i < |ms| ==> !ms[i].Login?
        ensures forall i :: 0 <= i < |ms| ==> !ms[i].Fire?
      {
        QuietStays(t, ms);
      }
    } else {
      var f :| f in t.flights && WillSchedule(t.flights[f]);
      var ms := FlightComesBack(t, f);
      assert ms[|ms| - 1].Fire?;
    }
  }

  /** No continuation without a login or a new refresh ends up logged in. */
  ghost predicate StaysLoggedOut(s: State) {
    forall ls: seq<Label> ::
      Run(Step, s, ls).Some? ==>
        (exists i :: 0 <= i < |ls| && (ls[i].Login? || ls[i].StartRefresh?)) || !Run(Step, s, ls).value.loggedIn
  }

  lemma {:induction false} LoggedOutStays(s: State, ls: seq<Label>)
    requires !s.loggedIn && s.pending == map[] && s.flights == map[] && Run(Step, s, ls).Some?
    requires forall i :: 0 <= i < |ls| ==> !ls[i].Login? && !ls[i].StartRefresh?
    ensures var t := Run(Step, s, ls).value; !t.loggedIn && t.pending == map[] && t.flights == map[]
    decreases |ls|
  {
    if ls != [] {
      LoggedOutStays(s, ls[..|ls| - 1]);
    }
  }

  lemma AnyFlightLogsIn(s: State, f: nat) returns (ls: seq<Label>)
    requires f in s.flights
    ensures Run(Step, s, ls).Some? && Run(Step, s, ls).value.loggedIn
    ensures forall i :: 0 <= i < |ls| ==> !ls[i].Login? && !ls[i].StartRefresh?
  {
    if s.flights[f].Fetching? {
      AnswerComes(s, f);
      ls := [RefreshOk(f)];
    } else {
      var rest, t := [Schedule(f, 1, 0), Fire(s.next, f, true)], Fired(s, f, true);
      SchedulingFires(s, f, true);
      assert f in t.flights && t.flights[f].Fetching?;
      AnswerComes(t, f);
      RunConcat(Step, s, rest, [RefreshOk(f)]);
      ls := rest + [RefreshOk(f)];
    }
  }

  /** A logout holds against everything but a login exactly when no refresh was in flight. */
  lemma LogoutHoldsExactlyWhenNothingInFlight(ls: seq<Label>, s: State)
    requires Run(Step, INIT, ls) == Some(s)
    ensures StaysLoggedOut(Step(s, Logout).value) <==> s.flights == map[]
  {
    var t := Step(s, Logout).value;
    ClearedMeansNonePending(ls, s);
    AtMostOneTimer(ls, s);
    if s.flights == map[] {
      forall ms: seq<Label> |
        Run(Step, t, ms).Some? && forall i :: 0 <= i < |ms| ==> !ms[i].Login? && !ms[i].StartRefresh?
        ensures !Run(Step, t, ms).value.loggedIn
      {
        LoggedOutStays(t, ms);
      }
    } else {
      var f :| f in s.flights;
      var ms := AnyFlightLogsIn(t, f);
    }
  }

  // ---- The manager ----

  class Manager {
    var refreshTokenTimeout: Option<nat>
    var loggedIn: bool
    // The browser's side: live timers, the next timer id, and requests under way.
    var pending: map<nat, int>
    var next: nat
    var flights: map<nat, Flight>

    /** The manager before it looks for a stored token. */
    constructor ()
      ensures St() == INIT
    {
      refreshTokenTimeout, loggedIn, pending, next, flights := None, false, map[], 0, map[];
    }

    function St(): State
      reads this
    {
      State(refreshTokenTimeout, pending, next, loggedIn, flights)
    }

    method ClearTimeoutHeld()
      modifies this
      ensures St() == ClearRefreshTimeout(old(St()))
    {
      if refreshTokenTimeout.Some? {
        pending := pending - {refreshTokenTimeout.value};
        refreshTokenTimeout := None;
      }
    }

    /** A new timer one second before the token expires, in place of the old one. */
    method ScheduleRefresh(expires: int, now: int)
      modifies this
      ensures St() == DoTimeout(old(St()), expires, now)
      ensures loggedIn == old(loggedIn) && flights == old(flights)
      ensures expires * 1000 - now >= 1000 ==>
        refreshTokenTimeout == Some(old(next)) && old(next) in pending && pending[old(next)] == expires * 1000 - 1000
      ensures expires * 1000 - now < 1000 ==> refreshTokenTimeout == old(refreshTokenTimeout) && pending == old(pending)
    {
      var ms := expires * 1000 - now - SECOND;
      if ms < 0 {
        return;
      }
      ClearTimeoutHeld();
      refreshTokenTimeout := Some(next);
      pending := pending[next := now + ms];
      next := next + 1;
    }

    method LogIn(expires: int, now: int, d: nat) returns (ok: bool)
      modifies this
      ensures ok <==> now < expires * 1000
      ensures loggedIn == if ok then true else old(loggedIn)
      ensures Some(St()) == Step(old(St()), Login(expires, now, d))
    {
      if IsExpired(expires, now) {
        return false;
      }
      loggedIn := true;
      ScheduleRefresh(expires, now + d);
      return true;
    }

    method LogOut()
      modifies this
      ensures Some(St()) == Step(old(St()), Logout)
      ensures !loggedIn && refreshTokenTimeout == None
    {
      loggedIn := false;
      ClearTimeoutHeld();
    }

    method StopTimers()
      modifies this
      ensures Some(St()) == Step(old(St()), Stop)
    {
      ClearTimeoutHeld();
    }

    /** Rejects without a stored refresh token, or with an empty one; otherwise sends request f. */
    method SendRefresh(f: nat, refreshToken: Option<string>, chains: bool) returns (sent: bool)
      requires f !in flights
      modifies this`flights
      ensures sent <==> refreshToken.Some? && refreshToken.value != ""
      ensures flights == if sent then old(flights)[f := Fetching(chains)] else old(flights)
    {
      if refreshToken.None? || |refreshToken.value| == 0 {
        return false;
      }
      flights := flights[f := Fetching(chains)];
      return true;
    }

    /** The callback of timer t. */
    method OnTimer(t: nat, f: nat, refreshToken: Option<string>)
      requires t in pending && f !in flights
      modifies this
      ensures Some(St()) == Step(old(St()), Fire(t, f, refreshToken.Some? && refreshToken.value != ""))
      ensures refreshTokenTimeout == old(refreshTokenTimeout)
    {
      pending := pending - {t};
      var sent := SendRefresh(f, refreshToken, true);
    }

    /** What the constructor does with the token it finds in storage, given by its expiry. */
    method Startup(token: Option<int>, now: int, d: nat, refreshExpired: bool, f: nat, refreshToken: Option<string>)
      requires St() == INIT
      modifies this
      ensures token.Some? && now < token.value * 1000 ==>
        loggedIn && flights == map[] && Some(St()) == Step(INIT, Login(token.value, now, d))
      ensures var sends := !refreshExpired && refreshToken.Some? && refreshToken.value != "";
        token.Some? && token.value * 1000 <= now ==>
          !loggedIn && Some(St()) == if sends then Step(INIT, StartRefresh(f)) else Some(INIT)
      ensures token.None? ==> St() == INIT
    {
      match token {
        case None =>
        case Some(expires) =>
          if !IsExpired(expires, now) {
            var ok := LogIn(expires, now, d);
          } else if !refreshExpired {
            var sent := SendRefresh(f, refreshToken, false);
          }
      }
    }

    method OnAnswer(f: nat, ok: bool)
      requires f in flights && flights[f].Fetching?
      modifies this
      ensures Some(St()) == Step(old(St()), if ok then RefreshOk(f) else RefreshFails(f))
    {
      if ok {
        loggedIn := true;
        if flights[f].chains {
          flights := flights[f := Scheduling];
        } else {
          flights := flights - {f};
        }
      } else {
        loggedIn := false;
        flights := flights - {f};
      }
    }

    method OnToken(f: nat, expires: int, now: int)
      requires f in flights && flights[f].Scheduling?
      modifies this
      ensures Some(St()) == Step(old(St()), Schedule(f, expires, now))
    {
      flights := flights - {f};
      ScheduleRefresh(expires, now);
    }
  }
}
