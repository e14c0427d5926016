/** Validation and the statement loops of DBConfig.Provision (pkg/provision/postgres.go). */
module Provisioner {
  import opened Wrappers
  import opened Machine
  import opened Provision

  const TABLE_PRIVILEGES: set<string> :=
    {"SELECT", "INSERT", "UPDATE", "DELETE", "TRUNCATE", "REFERENCES", "TRIGGER", "ALL"}
  const DATABASE_PRIVILEGES: set<string> := {"CREATE", "CONNECT", "TEMPORARY", "TEMP", "ALL"}

  // ---- Validation ----

  ghost predicate ValidEntries(es: seq<Entry>, valid: set<string>) {
    forall e :: e in es ==> e.target.name != "" && forall p :: p in e.privileges ==> Upper(p) in valid
  }

  ghost predicate ValidUser(u: User) {
    ValidEntries(u.databaseGrants, DATABASE_PRIVILEGES) && ValidEntries(u.tableGrants, TABLE_PRIVILEGES)
  }

  /** Which users are valid, with the privileges PostgreSQL knows written out. */
  lemma ValidUserExactly(u: User)
    ensures ValidUser(u) <==>
      && (forall e, p :: e in u.databaseGrants && p in e.privileges ==>
            Upper(p) == "CREATE" || Upper(p) == "CONNECT" || Upper(p) == "TEMPORARY" || Upper(p) == "TEMP"
            || Upper(p) == "ALL")
      && (forall e, p :: e in u.tableGrants && p in e.privileges ==>
            Upper(p) == "SELECT" || Upper(p) == "INSERT" || Upper(p) == "UPDATE" || Upper(p) == "DELETE"
            || Upper(p) == "TRUNCATE" || Upper(p) == "REFERENCES" || Upper(p) == "TRIGGER" || Upper(p) == "ALL")
      && (forall e :: e in u.databaseGrants + u.tableGrants ==> e.target.name != "")
  {
    assert forall e :: e in u.databaseGrants ==> e in u.databaseGrants + u.tableGrants;
    assert forall e :: e in u.tableGrants ==> e in u.databaseGrants + u.tableGrants;
  }

  method ValidateEntries(es: seq<Entry>, valid: set<string>) returns (ok: bool)
    ensures ok <==> ValidEntries(es, valid)
  {
    for i := 0 to |es|
      invariant forall e :: e in es[..i] ==> e.target.name != "" && forall p :: p in e.privileges ==> Upper(p) in valid
    {
      assert es[i] in es;
      if es[i].target.name == "" {
        return false;
      }
      for j := 0 to |es[i].privileges|
        invariant forall p :: p in es[i].privileges[..j] ==> Upper(p) in valid
      {
        if Upper(es[i].privileges[j]) !in valid {
          return false;
        }
      }
      assert es[i].privileges[..|es[i].privileges|] == es[i].privileges;
      assert es[..i + 1] == es[..i] + [es[i]];
    }
    assert es[..|es|] == es;
    return true;
  }

  method Validate(cfg: Config) returns (ok: bool)
    ensures ok <==> forall u :: u in cfg.users ==> ValidUser(u)
  {
    for i := 0 to |cfg.users|
      invariant forall u :: u in cfg.users[..i] ==> ValidUser(u)
    {
      var databases := ValidateEntries(cfg.users[i].databaseGrants, DATABASE_PRIVILEGES);
      var tables := ValidateEntries(cfg.users[i].tableGrants, TABLE_PRIVILEGES);
      if !databases || !tables {
        assert cfg.users[i] in cfg.users && !ValidUser(cfg.users[i]);
        return false;
      }
    }
    assert cfg.users[..|cfg.users|] == cfg.users;
    return true;
  }

  // ---- Sending statements ----

  /** The statements went through, or they stopped at the first one that failed. */
  ghost predicate Sent(s: Server, sts: seq<Stmt>, ok: bool, t: Server) {
    if ok then Run(Step, s, sts) == Some(t)
    else exists k | 0 <= k < |sts| :: Run(Step, s, sts[..k]) == Some(t) && Step(t, sts[k]) == None
  }

  lemma SentThen(s: Server, a: seq<Stmt>, t: Server, b: seq<Stmt>, ok: bool, u: Server)
    requires Sent(s, a, true, t) && Sent(t, b, ok, u)
    ensures Sent(s, a + b, ok, u)
  {
    if ok {
      RunConcat(Step, s, a, b);
    } else {
      var k :| 0 <= k < |b| && Run(Step, t, b[..k]) == Some(u) && Step(u, b[k]) == None;
      RunConcat(Step, s, a, b[..k]);
      assert (a + b)[..|a| + k] == a + b[..k];
      assert (a + b)[|a| + k] == b[k];
    }
  }

  lemma SentFails(s: Server, a: seq<Stmt>, t: Server, b: seq<Stmt>)
    requires Sent(s, a, false, t)
    ensures Sent(s, a + b, false, t)
  {
    var k :| 0 <= k < |a| && Run(Step, s, a[..k]) == Some(t) && Step(t, a[k]) == None;
    assert (a + b)[..k] == a[..k] && (a + b)[k] == a[k];
  }

  /** One more statement, or a batch of them, of a list that is sent in order. */
  lemma Continue(
      s0: Server, done: seq<Stmt>, s1: Server, part: seq<Stmt>, ok: bool, t: Server, rest: seq<Stmt>, all: seq<Stmt>)
    requires Sent(s0, done, true, s1) && Sent(s1, part, ok, t)
    requires all == done + (part + rest)
    ensures all == done + part + rest
    ensures if ok then Sent(s0, done + part, true, t) else Sent(s0, all, false, t)
  {
    Associative(done, part, rest);
    SentThen(s0, done, s1, part, ok, t);
    if !ok {
      SentFails(s0, done + part, t, rest);
    }
  }

  lemma Associative<T>(a: seq<T>, b: seq<T>, c: seq<T>)
    ensures a + (b + c) == a + b + c
  {
  }

  lemma SentOne(s: Server, st: Stmt)
    ensures Step(s, st).Some? ==> Sent(s, [st], true, Step(s, st).value)
    ensures Step(s, st) == None ==> Sent(s, [st], false, s)
  {
    RunSnoc(Step, s, [], st);
    assert [] + [st] == [st];
    assert [st][..0] == [] && [st][0] == st;
  }

  class Connection {
    var server: Server

    constructor (server: Server)
      ensures this.server == server
    {
      this.server := server;
    }

    method ExecContext(st: Stmt) returns (r: Reply)
      modifies this
      ensures r == Exec(old(server), st)
      ensures server == if r.Done? then r.server else old(server)
    {
      r := Exec(server, st);
      if r.Done? {
        server := r.server;
      }
    }

    /** A duplicate of the role is as good as a new one. */
    method CreateRole(st: Stmt) returns (ok: bool)
      requires st.CreateRole?
      modifies this
      ensures Sent(old(server), [st], ok, server)
    {
      SentOne(server, st);
      var r := ExecContext(st);
      match r {
        case Done(_) => return true;
        case DuplicateObject => return true;
        case _ => return false;
      }
    }

    /** Each database must have an owner; a duplicate of the database is as good as a new one. */
    method CreateDatabase(d: Database) returns (ok: bool)
      modifies this
      ensures Sent(old(server), [DatabaseStmt(d)], ok, server)
    {
      SentOne(server, DatabaseStmt(d));
      if d.owner == "" {
        return false;
      }
      var r := ExecContext(Stmt.CreateDatabase(d.name, d.owner));
      match r {
        case Done(_) => return true;
        case DuplicateDatabase => return true;
        case _ => return false;
      }
    }

    method SendGrant(st: Stmt) returns (ok: bool)
      requires IsGrant(st)
      modifies this
      ensures Sent(old(server), [st], ok, server)
    {
      SentOne(server, st);
      var r := ExecContext(st);
      return r.Done?;
    }

    method CreateRoles(us: seq<User>) returns (ok: bool)
      modifies this
      ensures Sent(old(server), RoleStmts(us), ok, server)
    {
      ghost var s0, all, done := server, RoleStmts(us), [];
      for i := 0 to |us|
        invariant all == done + RoleStmts(us[i..])
        invariant Sent(s0, done, true, server)
      {
        ghost var s1 := server;
        assert us[i..][1..] == us[i + 1..];
        var attributes := Attributes(us[i].password, us[i].superUser, us[i].createDb, us[i].createRole);
        var st := Stmt.CreateRole(us[i].name, attributes);
        ok := CreateRole(st);
        Continue(s0, done, s1, [st], ok, server, RoleStmts(us[i + 1..]), all);
        if !ok {
          return false;
        }
        done := done + [st];
      }
      assert done == all;
      return true;
    }

    method CreateDatabases(ds: seq<Database>) returns (ok: bool)
      modifies this
      ensures Sent(old(server), DatabaseStmts(ds), ok, server)
    {
      ghost var s0, all, done := server, DatabaseStmts(ds), [];
      for i := 0 to |ds|
        invariant all == done + DatabaseStmts(ds[i..])
        invariant Sent(s0, done, true, server)
      {
        ghost var s1 := server;
        assert ds[i..][1..] == ds[i + 1..];
        ok := CreateDatabase(ds[i]);
        Continue(s0, done, s1, [DatabaseStmt(ds[i])], ok, server, DatabaseStmts(ds[i + 1..]), all);
        if !ok {
          return false;
        }
        done := done + [DatabaseStmt(ds[i])];
      }
      assert done == all;
      return true;
    }

    method GrantPrivileges(user: string, target: Target, ps: seq<string>) returns (ok: bool)
      modifies this
      ensures Sent(old(server), PrivilegeStmts(user, target, ps), ok, server)
    {
      ghost var s0, all, done := server, PrivilegeStmts(user, target, ps), [];
      for i := 0 to |ps|
        invariant all == done + PrivilegeStmts(user, target, ps[i..])
        invariant Sent(s0, done, true, server)
      {
        ghost var s1 := server;
        assert ps[i..][1..] == ps[i + 1..];
        var st := Grant(ps[i], target, user);
        ok := SendGrant(st);
        Continue(s0, done, s1, [st], ok, server, PrivilegeStmts(user, target, ps[i + 1..]), all);
        if !ok {
          return false;
        }
        done := done + [st];
      }
      assert done == all;
      return true;
    }

    method GrantEntries(user: string, es: seq<Entry>) returns (ok: bool)
      modifies this
      ensures Sent(old(server), EntryStmts(user, es), ok, server)
    {
      ghost var s0, all, done := server, EntryStmts(user, es), [];
      for i := 0 to |es|
        invariant all == done + EntryStmts(user, es[i..])
        invariant Sent(s0, done, true, server)
      {
        ghost var s1 := server;
        assert es[i..][1..] == es[i + 1..];
        ghost var part := PrivilegeStmts(user, es[i].target, es[i].privileges);
        ok := GrantPrivileges(user, es[i].target, es[i].privileges);
        Continue(s0, done, s1, part, ok, server, EntryStmts(user, es[i + 1..]), all);
        if !ok {
          return false;
        }
        done := done + part;
      }
      assert done == all;
      return true;
    }

    method GrantRoles(user: string, roles: seq<string>) returns (ok: bool)
      modifies this
      ensures Sent(old(server), MemberStmts(user, roles), ok, server)
    {
      ghost var s0, all, done := server, MemberStmts(user, roles), [];
      for i := 0 to |roles|
        invariant all == done + MemberStmts(user, roles[i..])
        invariant Sent(s0, done, true, server)
      {
        ghost var s1 := server;
        assert roles[i..][1..] == roles[i + 1..];
        var st := GrantRole(roles[i], user);
        ok := SendGrant(st);
        Continue(s0, done, s1, [st], ok, server, MemberStmts(user, roles[i + 1..]), all);
        if !ok {
          return false;
        }
        done := done + [st];
      }
      assert done == all;
      return true;
    }

    method GrantUser(u: User) returns (ok: bool)
      modifies this
      ensures Sent(old(server), UserStmts(u), ok, server)
    {
      ghost var s0, a := server, EntryStmts(u.name, u.databaseGrants);
      ghost var b, c := EntryStmts(u.name, u.tableGrants), MemberStmts(u.name, u.roles);
      ok := GrantEntries(u.name, u.databaseGrants);
      if !ok {
        SentFails(s0, a, server, b);
        SentFails(s0, a + b, server, c);
        return;
      }
      ghost var s1 := server;
      ok := GrantEntries(u.name, u.tableGrants);
      SentThen(s0, a, s1, b, ok, server);
      if !ok {
        SentFails(s0, a + b, server, c);
        return;
      }
      ghost var s2 := server;
      ok := GrantRoles(u.name, u.roles);
      SentThen(s0, a + b, s2, c, ok, server);
    }

    method GrantAll(us: seq<User>) returns (ok: bool)
      modifies this
      ensures Sent(old(server), GrantStmts(us), ok, server)
    {
      ghost var s0, all, done := server, GrantStmts(us), [];
      for i := 0 to |us|
        invariant all == done + GrantStmts(us[i..])
        invariant Sent(s0, done, true, server)
      {
        ghost var s1 := server;
        assert us[i..][1..] == us[i + 1..];
        ghost var part := UserStmts(us[i]);
        ok := GrantUser(us[i]);
        Continue(s0, done, s1, part, ok, server, GrantStmts(us[i + 1..]), all);
        if !ok {
          return false;
        }
        done := done + part;
      }
      assert done == all;
      return true;
    }

    /** Nothing is sent for an invalid configuration; otherwise the statements, up to a failure. */
    method Provision(cfg: Config) returns (ok: bool)
      modifies this
      ensures (exists u :: u in cfg.users && !ValidUser(u)) ==> !ok && server == old(server)
      ensures (forall u :: u in cfg.users ==> ValidUser(u)) ==> Sent(old(server), Stmts(cfg), ok, server)
    {
      ok := Validate(cfg);
      if !ok {
        return;
      }
      ghost var s0, a, b, c := server, RoleStmts(cfg.users), DatabaseStmts(cfg.databases), GrantStmts(cfg.users);
      ok := CreateRoles(cfg.users);
      if !ok {
        SentFails(s0, a, server, b);
        SentFails(s0, a + b, server, c);
        return;
      }
      ghost var s1 := server;
      ok := CreateDatabases(cfg.databases);
      SentThen(s0, a, s1, b, ok, server);
      if !ok {
        SentFails(s0, a + b, server, c);
        return;
      }
      ghost var s2 := server;
      ok := GrantAll(cfg.users);
      SentThen(s0, a + b, s2, c, ok, server);
    }
  }
}
