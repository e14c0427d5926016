/**
 Invitations kept in Redis with an attempt budget and a deadline (pkg/invite/invite.go).
 Store calls do not overlap each other, but time passes inside them: Get reads the record
 and writes it back in two commands, and the record can run out in between.
 */
module InviteStore {
  import opened Wrappers
  import opened Machine
  import opened Jwt

  type Uuid = nat

  datatype Session = Session(createdBy: Uuid, ttl: int, expiresAt: int, email: string, roles: seq<Role>)

  datatype CreateRequest = CreateRequest(timeout: int, ttl: int, email: string, roles: seq<string>)

  datatype Error = NotFound | InviteTTL | Forbidden

  const DEFAULT_TTL: int := 5
  const DEFAULT_TIMEOUT: int := 10 * 60 * SECOND
  const MILLISECOND: int := 1_000_000

  /** The Redis client's marker for keeping a key's deadline. */
  const KEEP_TTL: int := -1

  function ParseRole(s: string): Role {
    match s
    case "admin" => Role.Admin
    case "default" => Default
    case "family" => Family
    case "tanya" => Tanya
    case _ => Invalid
  }

  /** The name a role goes by; anything else names no role. */
  predicate Names(name: string, r: Role) {
    match r
    case Admin => name == "admin"
    case Default => name == "default"
    case Family => name == "family"
    case Tanya => name == "tanya"
    case Invalid => name != "admin" && name != "default" && name != "family" && name != "tanya"
  }

  /** Every text names one role, the one it is read as. */
  lemma ReadsAsNamed(name: string, r: Role)
    ensures ParseRole(name) == r <==> Names(name, r)
  {
    assert "admin"[0] == 'a' && "default"[0] == 'd' && "family"[0] == 'f' && "tanya"[0] == 't';
  }

  function AsAuthRoles(ss: seq<string>): seq<Role> {
    seq(|ss|, (i: nat) requires i < |ss| => ParseRole(ss[i]))
  }

  method FillRoles(ss: seq<string>) returns (roles: seq<Role>)
    ensures roles == AsAuthRoles(ss)
  {
    roles := [];
    for i := 0 to |ss|
      invariant roles == AsAuthRoles(ss)[..i]
    {
      roles := roles + [ParseRole(ss[i])];
    }
  }

  // ---- Redis ----

  datatype Record = Record(session: Session, deadline: Option<int>)

  type Db = map<string, Record>

  /** A key whose deadline has come is as good as absent. */
  predicate Alive(db: Db, key: string, now: int) {
    key in db && (db[key].deadline.Some? ==> now < db[key].deadline.value)
  }

  function RedisGet(db: Db, key: string, now: int): Option<Session> {
    if Alive(db, key, now) then Some(db[key].session) else None
  }

  function RedisSet(db: Db, key: string, s: Session, timeout: int, now: int): Db {
    var deadline :=
      if timeout > 0 then Some(now + timeout)
      else if timeout == KEEP_TTL && Alive(db, key, now) then db[key].deadline
      else None;
    db[key := Record(s, deadline)]
  }

  // ---- What one store call does ----

  function NewSession(creator: Uuid, req: CreateRequest, now: int): Session {
    var timeout := if req.timeout == 0 then DEFAULT_TIMEOUT else req.timeout;
    var ttl := if req.ttl == 0 then DEFAULT_TTL else req.ttl;
    Session(creator, ttl, (now + timeout) / MILLISECOND, req.email, AsAuthRoles(req.roles))
  }

  function Created(db: Db, id: string, creator: Uuid, req: CreateRequest, now: int, d: nat): Db {
    RedisSet(db, id, NewSession(creator, req, now), if req.timeout == 0 then DEFAULT_TIMEOUT else req.timeout, now + d)
  }

  /** A view is answered while the record lives and has attempts left (a negative number never ends). */
  predicate Usable(db: Db, id: string, now: int) {
    Alive(db, id, now) && db[id].session.ttl != 0
  }

  /** A spent record is deleted by the next call that looks at it. */
  function Viewed(db: Db, id: string, now: int): Db {
    if Alive(db, id, now) && db[id].session.ttl == 0 then db - {id} else db
  }

  /** A usable record with a positive budget is written back with one attempt less, d later. */
  function Got(db: Db, id: string, now: int, d: nat): Db {
    if !Usable(db, id, now) then Viewed(db, id, now)
    else if db[id].session.ttl > 0 then
      RedisSet(db, id, db[id].session.(ttl := db[id].session.ttl - 1), KEEP_TTL, now + d)
    else db
  }

  predicate Owns(db: Db, id: string, uid: Uuid, now: int) {
    Alive(db, id, now) && db[id].session.createdBy == uid
  }

  // ---- Runs of store calls ----

  datatype State = State(clock: int, db: Db)

  datatype Label =
    | Tick(d: nat)
    | Create(id: string, creator: Uuid, req: CreateRequest, d: nat)
    | Get(id: string, d: nat)
    | View(id: string)
    | OwnerDel(id: string, uid: Uuid)
    | Del(id: string)

  function Step(s: State, l: Label): Option<State> {
    match l
    case Tick(d) => Some(s.(clock := s.clock + d))
    case Create(id, creator, req, d) => Some(State(s.clock + d, Created(s.db, id, creator, req, s.clock, d)))
    case Get(id, d) => Some(State(s.clock + d, Got(s.db, id, s.clock, d)))
    case View(id) => Some(s.(db := Viewed(s.db, id, s.clock)))
    case OwnerDel(id, uid) => Some(if Owns(s.db, id, uid, s.clock) then s.(db := s.db - {id}) else s)
    case Del(id) => Some(s.(db := s.db - {id}))
  }

  /** The Gets of id that succeeded in a run. */
  ghost function Wins(s: State, ls: seq<Label>, id: string): nat
    decreases |ls|
  {
    if ls == [] then 0
    else
      var ls', l := ls[..|ls| - 1], ls[|ls| - 1];
      Wins(s, ls', id)
      + (match Run(Step, s, ls')
         case Some(m) => if l.Get? && l.id == id && Usable(m.db, id, m.clock) then 1 else 0
         case None => 0)
  }

  predicate CreatesId(l: Label, id: string) {
    l.Create? && l.id == id
  }

  /**
   The attempt budget: stored attempts and successful Gets always add up to what the record
   started with, so no more Gets succeed than that; a negative budget is never used up.
   */
  lemma {:induction false} Budget(s: State, ls: seq<Label>, id: string)
    requires id in s.db && forall i :: 0 <= i < |ls| ==> !CreatesId(ls[i], id)
    ensures Run(Step, s, ls).Some?
    ensures var k, t := s.db[id].session.ttl, Run(Step, s, ls).value;
      && (k >= 0 ==> Wins(s, ls, id) <= k)
      && (id in t.db ==> t.db[id].session == s.db[id].session.(ttl := if k >= 0 then k - Wins(s, ls, id) else k))
    decreases |ls|
  {
    if ls != [] {
      Budget(s, ls[..|ls| - 1], id);
    }
  }

  /** Once the budget is used up, Get and View refuse the invite for good. */
  lemma SpentIsRefused(s: State, ls: seq<Label>, id: string, now: int)
    requires id in s.db && forall i :: 0 <= i < |ls| ==> !CreatesId(ls[i], id)
    requires s.db[id].session.ttl >= 0 && Wins(s, ls, id) >= s.db[id].session.ttl
    ensures Run(Step, s, ls).Some? && !Usable(Run(Step, s, ls).value.db, id, now)
  {
    Budget(s, ls, id);
  }

  /**
   What a created record holds: the creator, e-mail and roles of the request, its budget or 5,
   and a deadline after its timeout or ten minutes.  The time it shows is that deadline, less
   the delay before the write, in whole milliseconds.
   */
  lemma CreateStartsBudget(s: State, id: string, creator: Uuid, req: CreateRequest, d: nat)
    ensures var t := Step(s, Create(id, creator, req, d)).value;
      && t.clock == s.clock + d && id in t.db
      && (var x := t.db[id].session;
          && x.createdBy == creator && x.email == req.email
          && |x.roles| == |req.roles| && (forall k :: 0 <= k < |x.roles| ==> Names(req.roles[k], x.roles[k]))
          && x.ttl == (if req.ttl != 0 then req.ttl else 5) && x.ttl != 0
          && (req.timeout >= 0 ==>
                var deadline := t.clock + if req.timeout > 0 then req.timeout else 600_000_000_000;
                && t.db[id].deadline == Some(deadline) && Usable(t.db, id, t.clock)
                && x.expiresAt * 1_000_000 <= deadline - d < (x.expiresAt + 1) * 1_000_000))
  {
    forall k | 0 <= k < |req.roles| ensures Names(req.roles[k], ParseRole(req.roles[k])) {
      ReadsAsNamed(req.roles[k], ParseRole(req.roles[k]));
    }
  }

  /** Only the account a record was created by deletes it with OwnerDel, whatever happened since. */
  lemma OnlyCreatorDeletes(
      s: State, id: string, creator: Uuid, req: CreateRequest, d: nat, ls: seq<Label>, m: State, uid: Uuid)
    requires Run(Step, Step(s, Create(id, creator, req, d)).value, ls) == Some(m)
    requires forall i :: 0 <= i < |ls| ==> !CreatesId(ls[i], id)
    requires id in m.db
    ensures id !in Step(m, OwnerDel(id, uid)).value.db <==> uid == creator && Alive(m.db, id, m.clock)
  {
    Budget(Step(s, Create(id, creator, req, d)).value, ls, id);
  }

  // ---- The deadline ----

  /** What Get needs to keep the deadline: nothing to write, no deadline, or time to write it. */
  predicate InTime(s: State, id: string, d: nat) {
    Usable(s.db, id, s.clock) && s.db[id].session.ttl > 0 && s.db[id].deadline.Some? ==>
      s.clock + d < s.db[id].deadline.value
  }

  /**
   A Get keeps the record's deadline exactly when it writes back before it.  Otherwise the
   write makes the key anew, without a deadline, and the record outlives every time limit.
   */
  lemma GetKeepsDeadlineExactlyInTime(s: State, id: string, d: nat)
    requires Alive(s.db, id, s.clock) && Usable(s.db, id, s.clock)
    ensures var t := Step(s, Get(id, d)).value;
      && id in t.db
      && (t.db[id].deadline == s.db[id].deadline <==> InTime(s, id, d))
      && (!InTime(s, id, d) ==> forall now :: Alive(t.db, id, now))
  {
  }

  /** In runs whose Gets write back in time, the deadline stays the one fixed at creation. */
  lemma {:induction false} DeadlineFixed(s: State, ls: seq<Label>, id: string)
    requires id in s.db && forall i :: 0 <= i < |ls| ==> !CreatesId(ls[i], id)
    requires forall i :: 0 <= i < |ls| && ls[i].Get? && ls[i].id == id && Run(Step, s, ls[..i]).Some? ==>
      InTime(Run(Step, s, ls[..i]).value, id, ls[i].d)
    ensures Run(Step, s, ls).Some?
    ensures id in Run(Step, s, ls).value.db ==> Run(Step, s, ls).value.db[id].deadline == s.db[id].deadline
    decreases |ls|
  {
    if ls != [] {
      var ls' := ls[..|ls| - 1];
      assert forall i :: 0 <= i <= |ls'| ==> ls'[..i] == ls[..i];
      assert ls'[..|ls'|] == ls';
      DeadlineFixed(s, ls', id);
    }
  }

  /** A record that is gone stays gone until it is created again. */
  lemma {:induction false} GoneStaysGone(s: State, ls: seq<Label>, id: string)
    requires id !in s.db && forall i :: 0 <= i < |ls| ==> !CreatesId(ls[i], id)
    ensures Run(Step, s, ls).Some? && id !in Run(Step, s, ls).value.db
    decreases |ls|
  {
    if ls != [] {
      GoneStaysGone(s, ls[..|ls| - 1], id);
    }
  }

  // ---- The store ----

  class SessionStore {
    const prefix: string
    var clock: int
    var db: Db

    constructor (prefix: string, clock: int)
      ensures this.prefix == prefix && this.clock == clock && db == map[]
    {
      this.prefix, this.clock, db := prefix, clock, map[];
    }

    function St(): State
      reads this
    {
      State(clock, db)
    }

    method Create(id: string, creator: Uuid, req: CreateRequest, d: nat) returns (s: Session)
      modifies this
      ensures Some(St()) == Step(old(St()), Label.Create(id, creator, req, d))
      ensures id in db && s == db[id].session
    {
      var timeout, ttl := req.timeout, req.ttl;
      if req.timeout == 0 {
        timeout := DEFAULT_TIMEOUT;
      }
      if req.ttl == 0 {
        ttl := DEFAULT_TTL;
      }
      var roles := FillRoles(req.roles);
      s := Session(creator, ttl, (clock + timeout) / MILLISECOND, req.email, roles);
      clock := clock + d;
      db := RedisSet(db, id, s, timeout, clock);
    }

    method View(id: string) returns (r: Result<Session, Error>)
      modifies this`db
      ensures Some(St()) == Step(old(St()), Label.View(id))
      ensures r.Ok? <==> Usable(old(db), id, clock)
      ensures r.Ok? ==> r.value == old(db)[id].session && db == old(db)
      ensures r.Err? ==> r.error == if Alive(old(db), id, clock) then InviteTTL else NotFound
    {
      match RedisGet(db, id, clock) {
        case None => return Err(NotFound);
        case Some(s) =>
          if s.ttl == 0 {
            db := db - {id};
            return Err(InviteTTL);
          }
          return Ok(s);
      }
    }

    method Get(id: string, d: nat) returns (r: Result<Session, Error>)
      modifies this
      ensures Some(St()) == Step(old(St()), Label.Get(id, d))
      ensures r.Ok? <==> Usable(old(db), id, old(clock))
      ensures r.Ok? ==>
        var x := old(db)[id].session;
        id in db && db[id].session == r.value && r.value == x.(ttl := if x.ttl > 0 then x.ttl - 1 else x.ttl)
      ensures r.Err? ==> r.error == if Alive(old(db), id, old(clock)) then InviteTTL else NotFound
    {
      r := View(id);
      clock := clock + d;
      if r.Err? {
        return;
      }
      var s := r.value;
      if s.ttl > 0 {
        s := s.(ttl := s.ttl - 1);
        db := RedisSet(db, id, s, KEEP_TTL, clock);
      }
      return Ok(s);
    }

    method OwnerDel(id: string, uid: Uuid) returns (r: Result<(), Error>)
      modifies this`db
      ensures Some(St()) == Step(old(St()), Label.OwnerDel(id, uid))
      ensures r == if !Alive(old(db), id, clock) then Err(NotFound)
                   else if old(db)[id].session.createdBy != uid then Err(Forbidden)
                   else Ok(())
      ensures db == if r.Ok? then old(db) - {id} else old(db)
    {
      match RedisGet(db, id, clock) {
        case None => return Err(NotFound);
        case Some(s) =>
          if s.createdBy != uid {
            return Err(Forbidden);
          }
          db := db - {id};
          return Ok(());
      }
    }

    method Del(id: string)
      modifies this`db
      ensures Some(St()) == Step(old(St()), Label.Del(id))
    {
      db := db - {id};
    }
  }
}
