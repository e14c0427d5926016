/**
 Who may invite whom, and the accounts that come of it (pkg/app/invite.go and the parts of
 pkg/app/user.go and pkg/auth/role.go it uses).  Requests do not overlap.  Accounts are
 named by the order they were made in, which stands for their fresh uuids.
 */
module Invitations {
  import opened Wrappers
  import opened Machine
  import opened Jwt
  import Invites = InviteStore

  type Uuid = Invites.Uuid
  type Session = Invites.Session
  type CreateRequest = Invites.CreateRequest
  type Db = Invites.Db

  /** `invite` and `inviter` say how the account came about; both are None for the first ones. */
  datatype Account = Account(email: string, roles: seq<Role>, invite: Option<string>, inviter: Option<Uuid>)

  datatype Login = Login(username: string, email: string, password: string)

  /** Which account asked for an invite, and what it asked for. */
  datatype Origin = Origin(who: Uuid, req: CreateRequest)

  /** `made` remembers where each invite came from. */
  datatype State = State(clock: int, db: Db, accounts: seq<Account>, made: map<string, Origin>)

  datatype Error =
    | Unauthorized | InvalidTimeout | Forbidden | NotFound | BadRequest
    | EmptyLogin | EmailMismatch | Malformed | Internal

  /** What happens around a sign-up: delays, whether the body binds, the insert and the clean-up work. */
  datatype World = World(d: nat, binds: bool, inserts: bool, cleansUp: bool)

  datatype Label =
    | Tick(d: nat)
    | Create(who: Uuid, id: string, req: CreateRequest, d: nat)
    | SignUp(id: string, login: Login, w: World)
    | View(id: string)
    | Delete(id: string, who: Uuid)

  predicate HasAdmin(roles: seq<Role>) {
    Role.Admin in roles
  }

  /** auth.IsAdmin, the loop over the claims' roles. */
  method IsAdmin(roles: seq<Role>) returns (r: bool)
    ensures r == HasAdmin(roles)
  {
    for i := 0 to |roles|
      invariant Role.Admin !in roles[..i]
    {
      if roles[i] == Role.Admin {
        return true;
      }
    }
    assert roles[..|roles|] == roles;
    return false;
  }

  /** What Create refuses before it reaches the store. */
  function CreateRefusal(roles: seq<Role>, req: CreateRequest): Option<Error> {
    if !HasAdmin(roles) then
      if req.ttl != 0 || req.timeout != 0 || |req.roles| > 0 then Some(Unauthorized) else None
    else if req.timeout < 0 then Some(InvalidTimeout)
    else None
  }

  /** userStore.Create gives an account without roles the default one. */
  function AccountRoles(roles: seq<Role>): seq<Role> {
    if |roles| == 0 then [Default] else roles
  }

  /** What SignUp refuses once the invite let it through; the attempt is spent either way. */
  function SignUpRefusal(s: Session, login: Login, w: World): Option<Error> {
    if !w.binds then Some(BadRequest)
    else if |login.email| == 0 || |login.password| == 0 then Some(EmptyLogin)
    else if |s.email| > 0 && s.email != login.email then Some(EmailMismatch)
    else if !w.inserts then Some(Internal)
    else None
  }

  predicate SignsUp(s: State, id: string, login: Login, w: World) {
    Invites.Usable(s.db, id, s.clock) && SignUpRefusal(s.db[id].session, login, w).None?
  }

  function Step(s: State, l: Label): Option<State> {
    match l
    case Tick(d) => Some(s.(clock := s.clock + d))
    case Create(who, id, req, d) =>
      // Fresh random ids: none is handed out twice.
      if who < |s.accounts| && id !in s.made then
        if CreateRefusal(s.accounts[who].roles, req).Some? then Some(s)
        else
          var db := Invites.Created(s.db, id, who, req, s.clock, d);
          Some(s.(clock := s.clock + d, db := db, made := s.made[id := Origin(who, req)]))
      else None
    case SignUp(id, login, w) =>
      var db := Invites.Got(s.db, id, s.clock, w.d);
      if SignsUp(s, id, login, w) then
        var session := s.db[id].session;
        var account := Account(login.email, AccountRoles(session.roles), Some(id), Some(session.createdBy));
        Some(State(s.clock + w.d, if w.cleansUp then db - {id} else db, s.accounts + [account], s.made))
      else Some(s.(clock := s.clock + w.d, db := db))
    case View(id) => Some(s.(db := Invites.Viewed(s.db, id, s.clock)))
    case Delete(id, who) =>
      if who < |s.accounts| then
        Some(if Invites.Owns(s.db, id, who, s.clock) then s.(db := s.db - {id}) else s)
      else None
  }

  /** The service starts with some accounts and no invites. */
  predicate Initial(s: State) {
    && s.db == map[] && s.made == map[]
    && forall i :: 0 <= i < |s.accounts| ==> s.accounts[i].invite == None && s.accounts[i].inviter == None
  }

  // ---- Provenance ----

  predicate SessionSound(s: State, id: string)
    requires id in s.db
  {
    var x := s.db[id].session;
    && id in s.made && s.made[id].who == x.createdBy && x.createdBy < |s.accounts|
    && x.email == s.made[id].req.email && x.roles == Invites.AsAuthRoles(s.made[id].req.roles)
    && (|x.roles| > 0 ==> HasAdmin(s.accounts[x.createdBy].roles))
  }

  predicate AccountSound(s: State, i: nat)
    requires i < |s.accounts|
  {
    var a := s.accounts[i];
    match a.inviter
    case None => a.invite == None
    case Some(p) =>
      && p < i
      && a.invite.Some? && a.invite.value in s.made && s.made[a.invite.value].who == p
      && (var req := s.made[a.invite.value].req;
          && |a.email| > 0 && (|req.email| > 0 ==> a.email == req.email)
          && a.roles == if |req.roles| == 0 then [Default] else Invites.AsAuthRoles(req.roles))
      && (a.roles == [Default] || HasAdmin(s.accounts[p].roles))
  }

  ghost predicate Sound(s: State) {
    && (forall id :: id in s.db ==> SessionSound(s, id))
    && (forall i :: 0 <= i < |s.accounts| ==> AccountSound(s, i))
  }

  /** What is made is never unmade, and accounts stay as they are. */
  predicate Extends(s: State, t: State) {
    && s.accounts <= t.accounts
    && forall id :: id in s.made ==> id in t.made && t.made[id] == s.made[id]
  }

  lemma StepExtends(s: State, l: Label)
    requires Step(s, l).Some?
    ensures Extends(s, Step(s, l).value)
  {
  }

  lemma SessionsStep(s: State, l: Label, id: string)
    requires Sound(s) && Step(s, l).Some? && id in Step(s, l).value.db
    ensures SessionSound(Step(s, l).value, id)
  {
    StepExtends(s, l);
    if id in s.db {
      assert SessionSound(s, id);
    }
  }

  lemma AccountsStep(s: State, l: Label, i: nat)
    requires Sound(s) && Step(s, l).Some? && i < |Step(s, l).value.accounts|
    ensures AccountSound(Step(s, l).value, i)
  {
    StepExtends(s, l);
    if i < |s.accounts| {
      assert AccountSound(s, i);
    } else {
      assert SessionSound(s, l.id);
    }
  }

  lemma SoundStep(s: State, l: Label)
    requires Sound(s) && Step(s, l).Some?
    ensures Sound(Step(s, l).value)
  {
    forall id | id in Step(s, l).value.db ensures SessionSound(Step(s, l).value, id) {
      SessionsStep(s, l, id);
    }
    forall i | 0 <= i < |Step(s, l).value.accounts| ensures AccountSound(Step(s, l).value, i) {
      AccountsStep(s, l, i);
    }
  }

  lemma {:induction false} AlwaysSound(s0: State, ls: seq<Label>, s: State)
    requires Initial(s0) && Run(Step, s0, ls) == Some(s)
    ensures Sound(s)
    decreases |ls|
  {
    if ls != [] {
      var m := Run(Step, s0, ls[..|ls| - 1]).value;
      AlwaysSound(s0, ls[..|ls| - 1], m);
      SoundStep(m, ls[|ls| - 1]);
    }
  }

  /**
   Over every run, an account made from an invite has an e-mail, the one the invite was asked
   for if any, and exactly the roles that were asked for, or the default role if none were.
   */
  lemma AccountIsAsAsked(s0: State, ls: seq<Label>, s: State, i: nat)
    requires Initial(s0) && Run(Step, s0, ls) == Some(s)
    requires i < |s.accounts| && s.accounts[i].invite.Some?
    ensures s.accounts[i].invite.value in s.made
    ensures var a, origin := s.accounts[i], s.made[s.accounts[i].invite.value];
      && a.inviter == Some(origin.who)
      && a.email != "" && (origin.req.email != "" ==> a.email == origin.req.email)
      && (origin.req.roles == [] ==> a.roles == [Role.Default])
      && (origin.req.roles != [] ==> |a.roles| == |origin.req.roles|)
      && (origin.req.roles != [] ==>
            forall k :: 0 <= k < |a.roles| ==> Invites.Names(origin.req.roles[k], a.roles[k]))
  {
    AlwaysSound(s0, ls, s);
    assert AccountSound(s, i);
    var roles := s.made[s.accounts[i].invite.value].req.roles;
    forall k | 0 <= k < |roles| ensures Invites.Names(roles[k], Invites.ParseRole(roles[k])) {
      Invites.ReadsAsNamed(roles[k], Invites.ParseRole(roles[k]));
    }
  }

  /**
   When a Create makes an invite, and what it may ask for: an admin anything but a negative
   timeout, everybody else an invite of five attempts and ten minutes without roles.
   */
  lemma CreateMakes(s: State, who: Uuid, id: string, req: CreateRequest, d: nat)
    requires who < |s.accounts| && id !in s.made
    ensures var admin := Role.Admin in s.accounts[who].roles;
      var allowed := if admin then req.timeout >= 0 else req.ttl == 0 && req.timeout == 0 && req.roles == [];
      var t := Step(s, Create(who, id, req, d));
      && t.Some? && t.value.accounts == s.accounts
      && (!allowed ==> t == Some(s))
      && (allowed ==>
            && t.value.made == s.made[id := Origin(who, req)] && id in t.value.db
            && t.value.db[id].session.ttl == (if req.ttl != 0 then req.ttl else 5)
            && t.value.db[id].deadline == Some(s.clock + d + if req.timeout > 0 then req.timeout else 600_000_000_000))
  {
  }

  /** Only the account that asked for an invite can delete it. */
  lemma OnlyMakerDeletes(s0: State, ls: seq<Label>, s: State, id: string, who: Uuid)
    requires Initial(s0) && Run(Step, s0, ls) == Some(s) && who < |s.accounts|
    ensures Step(s, Delete(id, who)).Some?
    ensures Step(s, Delete(id, who)).value != s <==>
      id in s.made && s.made[id].who == who && Invites.Alive(s.db, id, s.clock)
  {
    AlwaysSound(s0, ls, s);
    assert id in s.db ==> SessionSound(s, id);
  }

  /** An account that came of a non-admin's invite has the default role and nothing else. */
  lemma NonAdminInvitesDefault(s0: State, ls: seq<Label>, s: State, i: nat)
    requires Initial(s0) && Run(Step, s0, ls) == Some(s)
    requires i < |s.accounts| && s.accounts[i].inviter.Some?
    ensures s.accounts[i].inviter.value < i
    ensures !HasAdmin(s.accounts[s.accounts[i].inviter.value].roles) ==> s.accounts[i].roles == [Default]
  {
    AlwaysSound(s0, ls, s);
    assert AccountSound(s, i);
  }

  /** Everybody on the way from account i back to a first account is an admin. */
  ghost predicate AdminLine(accounts: seq<Account>, i: nat)
    requires i < |accounts|
  {
    && HasAdmin(accounts[i].roles)
    && (accounts[i].inviter.Some? ==> accounts[i].inviter.value < i && AdminLine(accounts, accounts[i].inviter.value))
  }

  /** Every admin account goes back, through invites made by admins only, to an initial admin. */
  lemma {:induction false} AdminsComeFromAdmins(s0: State, ls: seq<Label>, s: State, i: nat)
    requires Initial(s0) && Run(Step, s0, ls) == Some(s)
    requires i < |s.accounts| && HasAdmin(s.accounts[i].roles)
    ensures AdminLine(s.accounts, i)
    decreases i
  {
    AlwaysSound(s0, ls, s);
    assert AccountSound(s, i);
    if s.accounts[i].inviter.Some? {
      AdminsComeFromAdmins(s0, ls, s, s.accounts[i].inviter.value);
    }
  }

  // ---- Accounts per invite ----

  ghost function FromInvite(accounts: seq<Account>, id: string): set<nat> {
    set i: nat | i < |accounts| && accounts[i].invite == Some(id)
  }

  predicate CleansUp(l: Label) {
    l.SignUp? ==> l.w.cleansUp
  }

  lemma NewAccount(accounts: seq<Account>, a: Account, id: string)
    ensures |FromInvite(accounts + [a], id)| == |FromInvite(accounts, id)| + (if a.invite == Some(id) then 1 else 0)
  {
    assert FromInvite(accounts + [a], id)
        == FromInvite(accounts, id) + (if a.invite == Some(id) then {|accounts|} else {});
  }

  /** No accounts while an invite is unused, and one at most afterwards. */
  ghost predicate AtMostOne(s: State, id: string) {
    && (id !in s.made ==> id !in s.db && |FromInvite(s.accounts, id)| == 0)
    && (id in s.db ==> |FromInvite(s.accounts, id)| == 0)
    && |FromInvite(s.accounts, id)| <= 1
  }

  lemma AtMostOneStep(s: State, l: Label, t: State, id: string)
    requires Step(s, l) == Some(t) && CleansUp(l) && AtMostOne(s, id)
    ensures AtMostOne(t, id)
  {
    if l.SignUp? && SignsUp(s, l.id, l.login, l.w) {
      NewAccount(s.accounts, t.accounts[|s.accounts|], id);
    }
  }

  /** As long as clean-up deletes succeed, an invite makes one account at most and is then gone. */
  lemma {:induction false} OneAccountPerInvite(s0: State, ls: seq<Label>, s: State, id: string)
    requires Initial(s0) && Run(Step, s0, ls) == Some(s)
    requires forall k :: 0 <= k < |ls| ==> CleansUp(ls[k])
    ensures AtMostOne(s, id)
    decreases |ls|
  {
    if ls != [] {
      var m := Run(Step, s0, ls[..|ls| - 1]).value;
      OneAccountPerInvite(s0, ls[..|ls| - 1], m, id);
      AtMostOneStep(m, ls[|ls| - 1], s, id);
    } else {
      assert FromInvite(s.accounts, id) == {};
    }
  }

  /** The accounts an invite has made and the attempts it has left. */
  ghost function Stake(s: State, id: string): int {
    |FromInvite(s.accounts, id)| + (if id in s.db then s.db[id].session.ttl else 0)
  }

  ghost predicate Limited(s: State, id: string) {
    id in s.made && (id in s.db ==> s.db[id].session.ttl >= 0)
  }

  lemma StakeStep(s: State, l: Label, t: State, id: string)
    requires Step(s, l) == Some(t) && Limited(s, id)
    ensures Limited(t, id) && Stake(t, id) <= Stake(s, id)
  {
    if l.SignUp? && SignsUp(s, l.id, l.login, l.w) {
      NewAccount(s.accounts, t.accounts[|s.accounts|], id);
    }
  }

  /**
   Even when every clean-up fails, an invite with a positive budget k makes at most k
   accounts: what is left of the budget and the accounts made never exceed it.
   */
  lemma {:induction false} AccountsWithinBudget(s: State, ls: seq<Label>, t: State, id: string)
    requires Run(Step, s, ls) == Some(t) && Limited(s, id)
    ensures Limited(t, id) && Stake(t, id) <= Stake(s, id)
    ensures |FromInvite(t.accounts, id)| <= Stake(s, id)
    decreases |ls|
  {
    if ls != [] {
      var m := Run(Step, s, ls[..|ls| - 1]).value;
      AccountsWithinBudget(s, ls[..|ls| - 1], m, id);
      StakeStep(m, ls[|ls| - 1], t, id);
    }
  }

  /** So over its whole life an invite makes at most as many accounts as its budget says. */
  lemma InviteMakesAtMostBudget(
      s0: State, before: seq<Label>, s1: State, who: Uuid, id: string, req: CreateRequest, d: nat,
      s2: State, ls: seq<Label>, t: State)
    requires Initial(s0) && Run(Step, s0, before) == Some(s1)
    requires id !in s1.made && Step(s1, Create(who, id, req, d)) == Some(s2)
    requires id in s2.db && s2.db[id].session.ttl >= 0
    requires Run(Step, s2, ls) == Some(t)
    ensures |FromInvite(t.accounts, id)| <= s2.db[id].session.ttl
  {
    AlwaysSound(s0, before, s1);
    assert FromInvite(s1.accounts, id) == {} by {
      forall i: nat | i < |s1.accounts| ensures s1.accounts[i].invite != Some(id) {
        assert AccountSound(s1, i);
      }
    }
    assert id !in s1.db by {
      assert id in s1.db ==> SessionSound(s1, id);
    }
    AccountsWithinBudget(s2, ls, t, id);
  }

  // ---- The handlers ----

  class Handlers {
    const store: Invites.SessionStore
    var accounts: seq<Account>
    ghost var made: map<string, Origin>

    constructor (store: Invites.SessionStore, accounts: seq<Account>)
      ensures this.store == store && this.accounts == accounts && made == map[]
    {
      this.store, this.accounts, made := store, accounts, map[];
    }

    ghost function St(): State
      reads this, store
    {
      State(store.clock, store.db, accounts, made)
    }

    /**
     `claims` are those of an access token of account who, or None; `body` is the request, None
     if it is no JSON; `mails` is false if the invite had to be mailed and that failed.  An
     invite that could not be mailed has been made all the same.
     */
    method Create(claims: Option<seq<Role>>, who: Uuid, id: string, body: Option<CreateRequest>, mails: bool, d: nat)
      returns (r: Result<Session, Error>)
      requires claims.Some? ==> who < |accounts| && claims.value == accounts[who].roles && id !in made
      modifies this, store
      ensures claims.None? ==> r == Err(Unauthorized) && St() == old(St())
      ensures claims.Some? && body.None? ==> r == Err(Malformed) && St() == old(St())
      ensures claims.Some? && body.Some? ==> Some(St()) == Step(old(St()), Label.Create(who, id, body.value, d))
      ensures claims.Some? && body.Some? ==>
        var admin, req := Role.Admin in claims.value, body.value;
        if !admin && (req.ttl != 0 || req.timeout != 0 || req.roles != []) then r == Err(Unauthorized)
        else if admin && req.timeout < 0 then r == Err(InvalidTimeout)
        else id in store.db && r == if mails then Ok(store.db[id].session) else Err(Internal)
    {
      match claims {
        case None => return Err(Unauthorized);
        case Some(roles) =>
          if body.None? {
            return Err(Malformed);
          }
          var req := body.value;
          var admin := IsAdmin(roles);
          if !admin {
            if req.ttl != 0 || req.timeout != 0 || |req.roles| > 0 {
              return Err(Unauthorized);
            }
          } else if req.timeout < 0 {
            return Err(InvalidTimeout);
          }
          var session := store.Create(id, who, req, d);
          made := made[id := Origin(who, req)];
          if !mails {
            return Err(Internal);
          }
          return Ok(session);
      }
    }

    method SignUp(id: string, login: Login, w: World) returns (r: Result<(), Error>)
      modifies this, store
      ensures Some(St()) == Step(old(St()), Label.SignUp(id, login, w))
      ensures !Invites.Alive(old(store.db), id, old(store.clock)) ==> r == Err(NotFound)
      ensures Invites.Alive(old(store.db), id, old(store.clock)) ==>
        var x := old(store.db)[id].session;
        r == if x.ttl == 0 then Err(Forbidden)
             else if !w.binds then Err(BadRequest)
             else if login.email == "" || login.password == "" then Err(EmptyLogin)
             else if x.email != "" && x.email != login.email then Err(EmailMismatch)
             else if !w.inserts then Err(Internal)
             else Ok(())
      ensures r.Err? ==> accounts == old(accounts)
      ensures r.Ok? ==>
        var x := old(store.db)[id].session;
        var roles := if x.roles == [] then [Role.Default] else x.roles;
        accounts == old(accounts) + [Account(login.email, roles, Some(id), Some(x.createdBy))]
    {
      var g := store.Get(id, w.d);
      match g {
        case Err(e) => return Err(if e.InviteTTL? then Forbidden else NotFound);
        case Ok(session) =>
          if !w.binds {
            return Err(BadRequest);
          }
          if |login.email| == 0 || |login.password| == 0 {
            return Err(EmptyLogin);
          }
          if |session.email| > 0 && session.email != login.email {
            return Err(EmailMismatch);
          }
          if !w.inserts {
            return Err(Internal);
          }
          var roles := session.roles;
          if |roles| == 0 {
            roles := [Default];
          }
          accounts := accounts + [Account(login.email, roles, Some(id), Some(session.createdBy))];
          if w.cleansUp {
            store.Del(id);
          }
          return Ok(());
      }
    }

    method Delete(id: string, claims: Option<Uuid>) returns (r: Result<(), Error>)
      requires claims.Some? ==> claims.value < |accounts|
      modifies store
      ensures claims.None? ==> r == Err(Unauthorized) && St() == old(St())
      ensures claims.Some? ==> Some(St()) == Step(old(St()), Label.Delete(id, claims.value))
      ensures claims.Some? ==>
        r == if !Invites.Alive(old(store.db), id, store.clock) then Err(NotFound)
             else if old(store.db)[id].session.createdBy != claims.value then Err(Forbidden)
             else Ok(())
    {
      match claims {
        case None => return Err(Unauthorized);
        case Some(uid) =>
          var x := store.OwnerDel(id, uid);
          match x {
            case Ok(_) => return Ok(());
            case Err(e) => return Err(if e.NotFound? then NotFound else Forbidden);
          }
      }
    }
  }
}
