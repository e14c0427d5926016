/**
 Provisioning of roles, databases and grants (pkg/provision/postgres.go): the statements a
 configuration sends, what they do to the server, and why they can be sent again.
 */
module Provision {
  import opened Wrappers
  import opened Machine
  import opened Membership

  // ---- Configuration ----

  datatype Target = OnDatabase(name: string) | OnTable(name: string)

  /** One map entry: a database or table and the privileges listed for it. */
  datatype Entry = Entry(target: Target, privileges: seq<string>)

  /** The two grant maps are given in the order a run happens to iterate them. */
  datatype User = User(
    name: string, password: string, superUser: bool, createDb: bool, createRole: bool,
    databaseGrants: seq<Entry>, tableGrants: seq<Entry>, roles: seq<string>)

  datatype Database = Database(name: string, owner: string)

  datatype Config = Config(users: seq<User>, databases: seq<Database>)

  // ---- Statements ----

  datatype Attributes = Attributes(password: string, superUser: bool, createDb: bool, createRole: bool)

  datatype Stmt =
    | CreateRole(name: string, attributes: Attributes)
    | CreateDatabase(name: string, owner: string)
    | NoOwner                                        // the check before CREATE DATABASE fails
    | Grant(privilege: string, target: Target, to: string)  // names as written, without quotes
    | GrantRole(role: string, to: string)

  function LowerChar(c: char): char {
    if 'A' <= c <= 'Z' then (c as int + 32) as char else c
  }

  function UpperChar(c: char): char {
    if 'a' <= c <= 'z' then (c as int - 32) as char else c
  }

  function Upper(s: string): string {
    seq(|s|, (i: nat) requires i < |s| => UpperChar(s[i]))
  }

  /** How the server lowers what is written without quotes. */
  function Fold(s: string): string {
    seq(|s|, (i: nat) requires i < |s| => LowerChar(s[i]))
  }

  function RoleStmts(us: seq<User>): seq<Stmt> {
    if us == [] then []
    else
      [CreateRole(us[0].name, Attributes(us[0].password, us[0].superUser, us[0].createDb, us[0].createRole))]
      + RoleStmts(us[1..])
  }

  function DatabaseStmt(d: Database): Stmt {
    if d.owner == "" then NoOwner else CreateDatabase(d.name, d.owner)
  }

  function DatabaseStmts(ds: seq<Database>): seq<Stmt> {
    if ds == [] then [] else [DatabaseStmt(ds[0])] + DatabaseStmts(ds[1..])
  }

  function PrivilegeStmts(user: string, target: Target, ps: seq<string>): seq<Stmt> {
    if ps == [] then [] else [Grant(ps[0], target, user)] + PrivilegeStmts(user, target, ps[1..])
  }

  function EntryStmts(user: string, es: seq<Entry>): seq<Stmt> {
    if es == [] then [] else PrivilegeStmts(user, es[0].target, es[0].privileges) + EntryStmts(user, es[1..])
  }

  function MemberStmts(user: string, roles: seq<string>): seq<Stmt> {
    if roles == [] then [] else [GrantRole(roles[0], user)] + MemberStmts(user, roles[1..])
  }

  function UserStmts(u: User): seq<Stmt> {
    EntryStmts(u.name, u.databaseGrants) + EntryStmts(u.name, u.tableGrants) + MemberStmts(u.name, u.roles)
  }

  function GrantStmts(us: seq<User>): seq<Stmt> {
    if us == [] then [] else UserStmts(us[0]) + GrantStmts(us[1..])
  }

  /** Everything Provision sends for a valid configuration. */
  function Stmts(cfg: Config): seq<Stmt> {
    RoleStmts(cfg.users) + DatabaseStmts(cfg.databases) + GrantStmts(cfg.users)
  }

  // ---- Names in statements ----

  predicate IsLetter(c: char) {
    'a' <= c <= 'z' || 'A' <= c <= 'Z' || c == '_' || c >= 128 as char
  }

  /** Text that reads as one identifier without quotes. */
  predicate Identifier(s: string) {
    s != "" && IsLetter(s[0]) && forall i :: 0 <= i < |s| ==> IsLetter(s[i]) || '0' <= s[i] <= '9' || s[i] == '$'
  }

  predicate NoUpper(s: string) {
    forall i :: 0 <= i < |s| ==> !('A' <= s[i] <= 'Z')
  }

  /** Text between double quotes that is taken as it stands. */
  predicate Quotable(s: string) {
    s != "" && '"' !in s
  }

  lemma FoldFixes(s: string)
    ensures Fold(s) == s <==> NoUpper(s)
  {
    if !NoUpper(s) {
      var i :| 0 <= i < |s| && 'A' <= s[i] <= 'Z';
      assert Fold(s)[i] != s[i];
    }
  }

  lemma FoldTwice(s: string)
    ensures NoUpper(Fold(s)) && Fold(Fold(s)) == Fold(s)
  {
    FoldFixes(Fold(s));
  }

  lemma FoldIdentifier(s: string)
    requires Identifier(s)
    ensures Identifier(Fold(s))
  {
    assert Fold(s)[0] == LowerChar(s[0]);
  }

  // ---- The server ----

  /** Its keyword tables say which words must be quoted as a grantee, and as a granted role. */
  datatype Server = Server(
    granteeWords: set<string>,
    roleWords: set<string>,
    roles: map<string, Attributes>,
    databases: map<string, string>,
    tables: set<string>,
    grants: set<(string, Target, string)>,
    members: Edges)

  datatype Reply = Done(server: Server) | DuplicateObject | DuplicateDatabase | Failed

  predicate TargetExists(s: Server, t: Target) {
    match t
    case OnDatabase(name) => Quotable(name) && name in s.databases
    case OnTable(name) => Quotable(name) && name in s.tables
  }

  /** Everybody; no role can have this name. */
  const PUBLIC: string := "public"

  predicate ReservedName(name: string) {
    name == PUBLIC || name == "none" || "pg_" <= name
  }

  /** What stands behind TO names one grantee. */
  predicate NamesGrantee(s: Server, to: string) {
    Identifier(to) && Fold(to) !in s.granteeWords
  }

  predicate NamesRole(s: Server, role: string) {
    Identifier(role) && Fold(role) !in s.roleWords
  }

  /** The text of a password or owner, which stands between single quotes. */
  predicate Literal(s: string) {
    '\'' !in s
  }

  function Exec(s: Server, st: Stmt): Reply {
    match st
    case CreateRole(name, attributes) =>
      if !Quotable(name) || !Literal(attributes.password) || ReservedName(name) then Failed
      else if name in s.roles then DuplicateObject
      else Done(s.(roles := s.roles[name := attributes]))
    case CreateDatabase(name, owner) =>
      if !Quotable(name) || !Literal(owner) then Failed
      else if name in s.databases then DuplicateDatabase
      else if owner !in s.roles then Failed
      else Done(s.(databases := s.databases[name := owner]))
    case NoOwner => Failed
    case Grant(privilege, target, to) =>
      if Grantable(s, st) then Done(s.(grants := s.grants + {(Upper(privilege), target, Fold(to))}))
      else Failed
    case GrantRole(role, to) =>
      if Grantable(s, st) && Accepts(s.members, Fold(role), Fold(to)) then
        Done(s.(members := s.members + {(Fold(role), Fold(to))}))
      else Failed
  }

  /** Everything a grant names can be read and exists. */
  predicate Grantable(s: Server, st: Stmt) {
    match st
    case Grant(_, target, to) =>
      TargetExists(s, target) && NamesGrantee(s, to) && (Fold(to) in s.roles || Fold(to) == PUBLIC)
    case GrantRole(role, to) =>
      NamesRole(s, role) && NamesGrantee(s, to) && Fold(role) in s.roles && Fold(to) in s.roles
    case _ => false
  }

  /** Provision goes on after a success or after a duplicate of what it was creating. */
  function Step(s: Server, st: Stmt): Option<Server> {
    match Exec(s, st)
    case Done(t) => Some(t)
    case DuplicateObject => if st.CreateRole? then Some(s) else None
    case DuplicateDatabase => if st.CreateDatabase? then Some(s) else None
    case Failed => None
  }

  // ---- Statements can be sent again ----

  predicate IsGrant(st: Stmt) {
    st.Grant? || st.GrantRole?
  }

  ghost predicate Within(s: Server, t: Server) {
    && (forall k :: k in s.roles ==> k in t.roles && t.roles[k] == s.roles[k])
    && (forall k :: k in s.databases ==> k in t.databases && t.databases[k] == s.databases[k])
    && s.tables == t.tables && s.granteeWords == t.granteeWords && s.roleWords == t.roleWords
    && s.grants <= t.grants
    && s.members <= t.members
  }

  lemma StepGrows(s: Server, st: Stmt)
    requires Acyclic(s.members) && Step(s, st).Some?
    ensures Within(s, Step(s, st).value) && Acyclic(Step(s, st).value.members)
  {
    if st.GrantRole? {
      AcceptedKeepsAcyclic(s.members, Fold(st.role), Fold(st.to));
    }
  }

  lemma {:induction false} RunGrows(s: Server, sts: seq<Stmt>)
    requires Acyclic(s.members) && Run(Step, s, sts).Some?
    ensures Within(s, Run(Step, s, sts).value) && Acyclic(Run(Step, s, sts).value.members)
    decreases |sts|
  {
    if sts != [] {
      RunGrows(s, sts[..|sts| - 1]);
      StepGrows(Run(Step, s, sts[..|sts| - 1]).value, sts[|sts| - 1]);
    }
  }

  lemma WithinTransitive(s: Server, t: Server, u: Server)
    requires Within(s, t) && Within(t, u)
    ensures Within(s, u)
  {
  }

  lemma WithinAntisymmetric(s: Server, t: Server)
    requires Within(s, t) && Within(t, s)
    ensures s == t
  {
    assert s.roles == t.roles && s.databases == t.databases;
  }

  /**
   A statement that goes through on s goes through on every server between s and a later
   state f of s, and leads to a server that is still between the two.
   */
  lemma StepCatchesUp(s: Server, st: Stmt, m: Server, f: Server)
    requires Step(s, st).Some? && Within(Step(s, st).value, f) && Acyclic(f.members)
    requires Within(s, m) && Within(m, f)
    ensures Step(m, st).Some? && Within(Step(s, st).value, Step(m, st).value) && Within(Step(m, st).value, f)
  {
    if IsGrant(st) {
      GrantCatchesUp(s, st, m, f);
    } else if st.CreateRole? {
      RoleCatchesUp(s, st, m, f);
    } else {
      DatabaseCatchesUp(s, st, m, f);
    }
  }

  lemma RoleCatchesUp(s: Server, st: Stmt, m: Server, f: Server)
    requires st.CreateRole? && Step(s, st).Some? && Within(Step(s, st).value, f)
    requires Within(s, m) && Within(m, f)
    ensures Step(m, st).Some? && Within(Step(s, st).value, Step(m, st).value) && Within(Step(m, st).value, f)
  {
  }

  lemma DatabaseCatchesUp(s: Server, st: Stmt, m: Server, f: Server)
    requires st.CreateDatabase? && Step(s, st).Some? && Within(Step(s, st).value, f)
    requires Within(s, m) && Within(m, f)
    ensures Step(m, st).Some? && Within(Step(s, st).value, Step(m, st).value) && Within(Step(m, st).value, f)
  {
  }

  lemma GrantCatchesUp(s: Server, st: Stmt, m: Server, f: Server)
    requires IsGrant(st) && Step(s, st).Some? && Within(Step(s, st).value, f) && Acyclic(f.members)
    requires Within(s, m) && Within(m, f)
    ensures Step(m, st).Some? && Within(Step(s, st).value, Step(m, st).value) && Within(Step(m, st).value, f)
  {
    if st.GrantRole? {
      AcyclicAccepts(m.members, f.members, Fold(st.role), Fold(st.to));
    }
  }

  lemma {:induction false} RunCatchesUp(s: Server, sts: seq<Stmt>, m: Server, f: Server)
    requires Acyclic(s.members) && Run(Step, s, sts).Some? && Within(Run(Step, s, sts).value, f) && Acyclic(f.members)
    requires Within(s, m) && Within(m, f)
    ensures Run(Step, m, sts).Some?
    ensures Within(Run(Step, s, sts).value, Run(Step, m, sts).value) && Within(Run(Step, m, sts).value, f)
    decreases |sts|
  {
    if sts != [] {
      var sts', st := sts[..|sts| - 1], sts[|sts| - 1];
      var s' := Run(Step, s, sts').value;
      RunGrows(s, sts');
      StepGrows(s', st);
      WithinTransitive(s', Step(s', st).value, f);
      RunCatchesUp(s, sts', m, f);
      StepCatchesUp(s', st, Run(Step, m, sts').value, f);
    }
  }

  // ---- The order of the grants does not matter ----

  function GrantSet(sts: seq<Stmt>): set<(string, Target, string)> {
    set st | st in sts && st.Grant? :: (Upper(st.privilege), st.target, Fold(st.to))
  }

  function EdgeSet(sts: seq<Stmt>): Edges {
    set st | st in sts && st.GrantRole? :: (Fold(st.role), Fold(st.to))
  }

  /** The server with all grants of a list added, whether they would be accepted or not. */
  function WithGrants(s: Server, sts: seq<Stmt>): Server {
    s.(grants := s.grants + GrantSet(sts), members := s.members + EdgeSet(sts))
  }

  lemma SetsSnoc(sts: seq<Stmt>, st: Stmt)
    ensures GrantSet(sts + [st])
         == GrantSet(sts) + (if st.Grant? then {(Upper(st.privilege), st.target, Fold(st.to))} else {})
    ensures EdgeSet(sts + [st]) == EdgeSet(sts) + (if st.GrantRole? then {(Fold(st.role), Fold(st.to))} else {})
  {
    var all := sts + [st];
    assert forall x :: x in all <==> x in sts || x == st;
    assert st in all;
    forall g | g in GrantSet(sts) ensures g in GrantSet(all) {
      var x :| x in sts && x.Grant? && g == (Upper(x.privilege), x.target, Fold(x.to));
      assert x in all;
    }
    forall e | e in EdgeSet(sts) ensures e in EdgeSet(all) {
      var x :| x in sts && x.GrantRole? && e == (Fold(x.role), Fold(x.to));
      assert x in all;
    }
  }

  lemma WithGrantsSnoc(s: Server, sts: seq<Stmt>, st: Stmt)
    requires IsGrant(st)
    ensures Step(WithGrants(s, sts), st).Some? <==>
      Grantable(s, st) && (st.GrantRole? ==> Accepts(s.members + EdgeSet(sts), Fold(st.role), Fold(st.to)))
    ensures Step(WithGrants(s, sts), st).Some? ==> Step(WithGrants(s, sts), st) == Some(WithGrants(s, sts + [st]))
  {
    SetsSnoc(sts, st);
    var m, f := WithGrants(s, sts), WithGrants(s, sts + [st]);
    assert st.Grant? ==>
      f.grants == m.grants + {(Upper(st.privilege), st.target, Fold(st.to))} && f.members == m.members;
    assert st.GrantRole? ==> f.members == m.members + {(Fold(st.role), Fold(st.to))} && f.grants == m.grants;
  }

  lemma AcyclicShrinks(m: Edges, n: Edges)
    requires m <= n && Acyclic(n)
    ensures Acyclic(m)
  {
    forall g, x | (g, x) in m ensures !Member(m, g, x) {
      AcyclicAccepts(m, n, g, x);
    }
  }

  /**
   A list of grants goes through exactly when everything it names exists and its memberships
   close no cycle, and then all of them have been added; no order enters into either.
   */
  lemma {:induction false} GrantsSucceedExactly(s: Server, sts: seq<Stmt>)
    requires Acyclic(s.members) && forall st :: st in sts ==> IsGrant(st)
    ensures Run(Step, s, sts).Some? <==>
      (forall st :: st in sts ==> Grantable(s, st)) && Acyclic(s.members + EdgeSet(sts))
    ensures Run(Step, s, sts).Some? ==> Run(Step, s, sts) == Some(WithGrants(s, sts))
    decreases |sts|
  {
    if sts == [] {
      assert s.members + EdgeSet(sts) == s.members;
      assert WithGrants(s, sts) == s;
    } else {
      var sts', st := sts[..|sts| - 1], sts[|sts| - 1];
      assert sts == sts' + [st];
      assert st in sts && forall x :: x in sts <==> x in sts' || x == st;
      GrantsSucceedExactly(s, sts');
      WithGrantsSnoc(s, sts', st);
      SetsSnoc(sts', st);
      var m, f := s.members + EdgeSet(sts'), s.members + EdgeSet(sts);
      assert st.Grant? ==> f == m;
      assert st.GrantRole? ==> f == m + {(Fold(st.role), Fold(st.to))};
      if Acyclic(f) {
        AcyclicShrinks(m, f);
        if st.GrantRole? {
          AcyclicAccepts(m, f, Fold(st.role), Fold(st.to));
        }
      } else if Acyclic(m) && st.GrantRole? && Accepts(m, Fold(st.role), Fold(st.to)) {
        AcceptedKeepsAcyclic(m, Fold(st.role), Fold(st.to));
      }
    }
  }

  /** The same configuration with its grant maps iterated in another order. */
  ghost predicate SameButOrder(u: User, v: User) {
    && u == v.(databaseGrants := u.databaseGrants, tableGrants := u.tableGrants)
    && multiset(u.databaseGrants) == multiset(v.databaseGrants)
    && multiset(u.tableGrants) == multiset(v.tableGrants)
  }

  ghost predicate SameConfigButOrder(c: Config, d: Config) {
    && c.databases == d.databases
    && |c.users| == |d.users|
    && forall i :: 0 <= i < |c.users| ==> SameButOrder(c.users[i], d.users[i])
  }

  lemma {:induction false} EntryStmtsMembers(user: string, es: seq<Entry>, st: Stmt)
    ensures st in EntryStmts(user, es) <==> exists e :: e in es && st in PrivilegeStmts(user, e.target, e.privileges)
  {
    if es != [] {
      EntryStmtsMembers(user, es[1..], st);
      assert forall e :: e in es <==> e == es[0] || e in es[1..];
    }
  }

  lemma {:induction false} OnlyGrants(us: seq<User>)
    ensures forall st :: st in GrantStmts(us) ==> IsGrant(st)
  {
    if us != [] {
      OnlyGrants(us[1..]);
      EntriesOnlyGrants(us[0].name, us[0].databaseGrants);
      EntriesOnlyGrants(us[0].name, us[0].tableGrants);
      MembersOnlyGrants(us[0].name, us[0].roles);
    }
  }

  lemma {:induction false} PrivilegesOnlyGrants(user: string, target: Target, ps: seq<string>)
    ensures forall st :: st in PrivilegeStmts(user, target, ps) ==> IsGrant(st)
  {
    if ps != [] {
      PrivilegesOnlyGrants(user, target, ps[1..]);
    }
  }

  lemma {:induction false} EntriesOnlyGrants(user: string, es: seq<Entry>)
    ensures forall st :: st in EntryStmts(user, es) ==> IsGrant(st)
  {
    if es != [] {
      PrivilegesOnlyGrants(user, es[0].target, es[0].privileges);
      EntriesOnlyGrants(user, es[1..]);
    }
  }

  lemma {:induction false} MembersOnlyGrants(user: string, roles: seq<string>)
    ensures forall st :: st in MemberStmts(user, roles) ==> IsGrant(st)
  {
    if roles != [] {
      MembersOnlyGrants(user, roles[1..]);
    }
  }

  lemma {:induction false} SameStatements(us: seq<User>, vs: seq<User>)
    requires |us| == |vs| && forall i :: 0 <= i < |us| ==> SameButOrder(us[i], vs[i])
    ensures RoleStmts(us) == RoleStmts(vs)
    ensures forall st :: st in GrantStmts(us) <==> st in GrantStmts(vs)
  {
    if us != [] {
      assert SameButOrder(us[0], vs[0]);
      SameStatements(us[1..], vs[1..]);
      SameEntries(us[0].name, us[0].databaseGrants, vs[0].databaseGrants);
      SameEntries(us[0].name, us[0].tableGrants, vs[0].tableGrants);
      forall st ensures st in UserStmts(us[0]) <==> st in UserStmts(vs[0]) {
      }
    }
  }

  lemma SameEntries(user: string, es: seq<Entry>, fs: seq<Entry>)
    requires multiset(es) == multiset(fs)
    ensures forall st :: st in EntryStmts(user, es) <==> st in EntryStmts(user, fs)
  {
    assert forall e :: e in es <==> e in multiset(es);
    assert forall e :: e in fs <==> e in multiset(fs);
    forall st ensures st in EntryStmts(user, es) <==> st in EntryStmts(user, fs) {
      EntryStmtsMembers(user, es, st);
      EntryStmtsMembers(user, fs, st);
    }
  }

  lemma SameGrantsSameRun(m: Server, a: seq<Stmt>, b: seq<Stmt>)
    requires Acyclic(m.members)
    requires forall st :: st in a ==> IsGrant(st)
    requires forall st :: st in a <==> st in b
    ensures Run(Step, m, a) == Run(Step, m, b)
  {
    GrantsSucceedExactly(m, a);
    GrantsSucceedExactly(m, b);
    assert GrantSet(a) == GrantSet(b);
    assert EdgeSet(a) == EdgeSet(b);
  }

  /** Success and the final server do not depend on the order the grant maps are iterated in. */
  lemma MapOrderIrrelevant(c: Config, d: Config, s: Server)
    requires SameConfigButOrder(c, d) && Acyclic(s.members)
    ensures Run(Step, s, Stmts(c)) == Run(Step, s, Stmts(d))
  {
    SameStatements(c.users, d.users);
    var head := RoleStmts(c.users) + DatabaseStmts(c.databases);
    RunConcat(Step, s, head, GrantStmts(c.users));
    RunConcat(Step, s, head, GrantStmts(d.users));
    if Run(Step, s, head).Some? {
      RunGrows(s, head);
      OnlyGrants(c.users);
      SameGrantsSameRun(Run(Step, s, head).value, GrantStmts(c.users), GrantStmts(d.users));
    }
  }

  // ---- The roles and databases of a run ----

  predicate FirstUser(us: seq<User>, i: nat) {
    i < |us| && forall j :: 0 <= j < i ==> us[j].name != us[i].name
  }

  predicate FirstDatabase(ds: seq<Database>, i: nat) {
    i < |ds| && forall j :: 0 <= j < i ==> ds[j].name != ds[i].name
  }

  /** r is the role the configuration describes for u. */
  predicate Describes(u: User, r: Attributes) {
    && r.password == u.password
    && (r.superUser <==> u.superUser) && (r.createDb <==> u.createDb) && (r.createRole <==> u.createRole)
  }

  lemma RunHead(s: Server, st: Stmt, rest: seq<Stmt>)
    ensures Run(Step, s, [st] + rest) == (match Step(s, st) case None => None case Some(m) => Run(Step, m, rest))
  {
    RunConcat(Step, s, [st], rest);
    RunSnoc(Step, s, [], st);
    assert [] + [st] == [st];
  }

  lemma {:induction false} RolesNamed(us: seq<User>, s: Server, t: Server)
    requires Run(Step, s, RoleStmts(us)) == Some(t)
    ensures t == s.(roles := t.roles)
    ensures forall n :: n in t.roles <==> n in s.roles || exists i :: 0 <= i < |us| && us[i].name == n
  {
    if us != [] {
      var rest := us[1..];
      RunHead(s, RoleStmts(us)[0], RoleStmts(rest));
      RolesNamed(rest, Step(s, RoleStmts(us)[0]).value, t);
      forall n ensures n in t.roles <==> n in s.roles || exists i :: 0 <= i < |us| && us[i].name == n {
        if i :| 0 <= i < |us| && us[i].name == n {
          assert i > 0 ==> rest[i - 1].name == n;
        }
        if i :| 0 <= i < |rest| && rest[i].name == n {
          assert us[i + 1].name == n;
        }
      }
    }
  }

  lemma {:induction false} RolesMade(us: seq<User>, s: Server, t: Server)
    requires Run(Step, s, RoleStmts(us)) == Some(t)
    ensures forall n :: n in s.roles ==> n in t.roles && t.roles[n] == s.roles[n]
    ensures forall i: nat :: FirstUser(us, i) && us[i].name !in s.roles ==>
      us[i].name in t.roles && Describes(us[i], t.roles[us[i].name])
  {
    if us != [] {
      var rest := us[1..];
      RunHead(s, RoleStmts(us)[0], RoleStmts(rest));
      RolesMade(rest, Step(s, RoleStmts(us)[0]).value, t);
      forall i: nat | FirstUser(us, i) && us[i].name !in s.roles
        ensures us[i].name in t.roles && Describes(us[i], t.roles[us[i].name])
      {
        if i > 0 {
          assert us[0].name != us[i].name;
          assert FirstUser(rest, i - 1);
        }
      }
    }
  }

  lemma {:induction false} DatabasesNamed(ds: seq<Database>, s: Server, t: Server)
    requires Run(Step, s, DatabaseStmts(ds)) == Some(t)
    ensures t == s.(databases := t.databases)
    ensures forall n :: n in t.databases <==> n in s.databases || exists i :: 0 <= i < |ds| && ds[i].name == n
  {
    if ds != [] {
      var rest := ds[1..];
      RunHead(s, DatabaseStmt(ds[0]), DatabaseStmts(rest));
      DatabasesNamed(rest, Step(s, DatabaseStmt(ds[0])).value, t);
      forall n ensures n in t.databases <==> n in s.databases || exists i :: 0 <= i < |ds| && ds[i].name == n {
        if i :| 0 <= i < |ds| && ds[i].name == n {
          assert i > 0 ==> rest[i - 1].name == n;
        }
        if i :| 0 <= i < |rest| && rest[i].name == n {
          assert ds[i + 1].name == n;
        }
      }
    }
  }

  lemma {:induction false} DatabasesMade(ds: seq<Database>, s: Server, t: Server)
    requires Run(Step, s, DatabaseStmts(ds)) == Some(t)
    ensures forall n :: n in s.databases ==> n in t.databases && t.databases[n] == s.databases[n]
    ensures forall i: nat :: FirstDatabase(ds, i) && ds[i].name !in s.databases ==>
      ds[i].name in t.databases && t.databases[ds[i].name] == ds[i].owner
  {
    if ds != [] {
      var rest := ds[1..];
      RunHead(s, DatabaseStmt(ds[0]), DatabaseStmts(rest));
      DatabasesMade(rest, Step(s, DatabaseStmt(ds[0])).value, t);
      forall i: nat | FirstDatabase(ds, i) && ds[i].name !in s.databases
        ensures ds[i].name in t.databases && t.databases[ds[i].name] == ds[i].owner
      {
        if i > 0 {
          assert ds[0].name != ds[i].name;
          assert FirstDatabase(rest, i - 1);
        }
      }
    }
  }

  /**
   After a successful run there are the roles and databases of before, as they were, and one
   for every user and database of the configuration, as the first of its name describes it.
   */
  lemma RunMakes(cfg: Config, s: Server, f: Server)
    requires Acyclic(s.members) && Run(Step, s, Stmts(cfg)) == Some(f)
    ensures forall n :: n in f.roles <==> n in s.roles || exists i :: 0 <= i < |cfg.users| && cfg.users[i].name == n
    ensures forall n :: n in s.roles ==> f.roles[n] == s.roles[n]
    ensures forall i: nat :: FirstUser(cfg.users, i) && cfg.users[i].name !in s.roles ==>
      Describes(cfg.users[i], f.roles[cfg.users[i].name])
    ensures forall n :: n in f.databases <==>
      n in s.databases || exists i :: 0 <= i < |cfg.databases| && cfg.databases[i].name == n
    ensures forall n :: n in s.databases ==> f.databases[n] == s.databases[n]
    ensures forall i: nat :: FirstDatabase(cfg.databases, i) && cfg.databases[i].name !in s.databases ==>
      f.databases[cfg.databases[i].name] == cfg.databases[i].owner
    ensures f.tables == s.tables
  {
    var a, b, c := RoleStmts(cfg.users), DatabaseStmts(cfg.databases), GrantStmts(cfg.users);
    RunConcat(Step, s, a + b, c);
    RunConcat(Step, s, a, b);
    var m := Run(Step, s, a).value;
    var h := Run(Step, m, b).value;
    RolesNamed(cfg.users, s, m);
    RolesMade(cfg.users, s, m);
    DatabasesNamed(cfg.databases, m, h);
    DatabasesMade(cfg.databases, m, h);
    OnlyGrants(cfg.users);
    GrantsSucceedExactly(h, c);
  }

  // ---- Whose grants they are ----

  /** A name that reads the same with and without quotes. */
  predicate PlainName(s: Server, name: string) {
    Identifier(name) && NoUpper(name) && name !in s.granteeWords
  }

  predicate PlainRole(s: Server, name: string) {
    Identifier(name) && NoUpper(name) && name !in s.roleWords
  }

  lemma NamesItself(s: Server, name: string)
    ensures NamesGrantee(s, name) && Fold(name) == name <==> PlainName(s, name)
    ensures NamesRole(s, name) && Fold(name) == name <==> PlainRole(s, name)
  {
    FoldFixes(name);
  }

  /** Whatever is written, only plain names come out of it. */
  lemma OnlyPlainNames(s: Server, text: string)
    ensures NamesGrantee(s, text) ==> PlainName(s, Fold(text))
    ensures NamesRole(s, text) ==> PlainRole(s, Fold(text))
  {
    FoldTwice(text);
    if Identifier(text) {
      FoldIdentifier(text);
    }
  }

  lemma RolesAndDatabasesGrantNothing(us: seq<User>, ds: seq<Database>)
    ensures forall st :: st in RoleStmts(us) + DatabaseStmts(ds) ==> !IsGrant(st)
  {
    RolesGrantNothing(us);
    DatabasesGrantNothing(ds);
  }

  lemma {:induction false} RolesGrantNothing(us: seq<User>)
    ensures forall st :: st in RoleStmts(us) ==> !IsGrant(st)
  {
    if us != [] {
      RolesGrantNothing(us[1..]);
    }
  }

  lemma {:induction false} DatabasesGrantNothing(ds: seq<Database>)
    ensures forall st :: st in DatabaseStmts(ds) ==> !IsGrant(st)
  {
    if ds != [] {
      DatabasesGrantNothing(ds[1..]);
    }
  }

  lemma {:induction false} GrantsUntouched(s: Server, sts: seq<Stmt>)
    requires Run(Step, s, sts).Some? && forall st :: st in sts ==> !IsGrant(st)
    ensures var t := Run(Step, s, sts).value;
      t.grants == s.grants && t.members == s.members && t.granteeWords == s.granteeWords && t.roleWords == s.roleWords
    decreases |sts|
  {
    if sts != [] {
      GrantsUntouched(s, sts[..|sts| - 1]);
      assert sts[|sts| - 1] in sts;
    }
  }

  /** A successful run adds exactly the grants and memberships its statements name. */
  lemma RunGrants(cfg: Config, s: Server, f: Server)
    requires Acyclic(s.members) && Run(Step, s, Stmts(cfg)) == Some(f)
    ensures f.grants == s.grants + GrantSet(GrantStmts(cfg.users))
    ensures f.members == s.members + EdgeSet(GrantStmts(cfg.users))
    ensures forall st :: st in GrantStmts(cfg.users) && st.Grant? ==> NamesGrantee(s, st.to)
    ensures forall st :: st in GrantStmts(cfg.users) && st.GrantRole? ==>
      NamesGrantee(s, st.to) && NamesRole(s, st.role)
  {
    var head, tail := RoleStmts(cfg.users) + DatabaseStmts(cfg.databases), GrantStmts(cfg.users);
    RunConcat(Step, s, head, tail);
    var h := Run(Step, s, head).value;
    RolesAndDatabasesGrantNothing(cfg.users, cfg.databases);
    GrantsUntouched(s, head);
    OnlyGrants(cfg.users);
    GrantsSucceedExactly(h, tail);
    assert forall st :: st in tail ==> Grantable(h, st);
  }

  lemma {:induction false} PrivilegeSent(user: string, target: Target, ps: seq<string>, p: string)
    requires p in ps
    ensures Grant(p, target, user) in PrivilegeStmts(user, target, ps)
  {
    if p != ps[0] {
      PrivilegeSent(user, target, ps[1..], p);
    }
  }

  lemma {:induction false} MembershipSent(user: string, roles: seq<string>, role: string)
    requires role in roles
    ensures GrantRole(role, user) in MemberStmts(user, roles)
  {
    if role != roles[0] {
      MembershipSent(user, roles[1..], role);
    }
  }

  lemma {:induction false} UserSent(us: seq<User>, u: User, st: Stmt)
    requires u in us && st in UserStmts(u)
    ensures st in GrantStmts(us)
  {
    if u != us[0] {
      UserSent(us[1..], u, st);
    }
  }

  lemma {:induction false} PrivilegesFrom(user: string, target: Target, ps: seq<string>, st: Stmt)
    requires st in PrivilegeStmts(user, target, ps)
    ensures st.Grant? && st.privilege in ps && st == Grant(st.privilege, target, user)
  {
    if st != Grant(ps[0], target, user) {
      PrivilegesFrom(user, target, ps[1..], st);
    }
  }

  lemma {:induction false} MembershipsFrom(user: string, roles: seq<string>, st: Stmt)
    requires st in MemberStmts(user, roles)
    ensures st.GrantRole? && st.role in roles && st == GrantRole(st.role, user)
  {
    if st != GrantRole(roles[0], user) {
      MembershipsFrom(user, roles[1..], st);
    }
  }

  lemma {:induction false} GrantsFrom(us: seq<User>, st: Stmt) returns (u: User)
    requires st in GrantStmts(us)
    ensures u in us && st in UserStmts(u)
  {
    if st in UserStmts(us[0]) {
      u := us[0];
    } else {
      u := GrantsFrom(us[1..], st);
    }
  }

  /** The configuration lists privilege p on a target for user u. */
  ghost predicate Lists(u: User, target: Target, p: string) {
    exists e :: (e in u.databaseGrants || e in u.tableGrants) && e.target == target && p in e.privileges
  }

  lemma ListedIsSent(cfg: Config, u: User, target: Target, p: string)
    ensures u in cfg.users && Lists(u, target, p) ==> Grant(p, target, u.name) in GrantStmts(cfg.users)
  {
    if u in cfg.users && Lists(u, target, p) {
      var e :| (e in u.databaseGrants || e in u.tableGrants) && e.target == target && p in e.privileges;
      PrivilegeSent(u.name, target, e.privileges, p);
      EntryStmtsMembers(u.name, u.databaseGrants, Grant(p, target, u.name));
      EntryStmtsMembers(u.name, u.tableGrants, Grant(p, target, u.name));
      UserSent(cfg.users, u, Grant(p, target, u.name));
    }
  }

  lemma SentIsListed(cfg: Config, st: Stmt) returns (u: User)
    requires st in GrantStmts(cfg.users)
    ensures u in cfg.users
    ensures st.Grant? ==> st.to == u.name && Lists(u, st.target, st.privilege)
    ensures st.GrantRole? ==> st.to == u.name && st.role in u.roles
  {
    u := GrantsFrom(cfg.users, st);
    if st in MemberStmts(u.name, u.roles) {
      MembershipsFrom(u.name, u.roles, st);
    } else {
      EntryStmtsMembers(u.name, u.databaseGrants, st);
      EntryStmtsMembers(u.name, u.tableGrants, st);
      var e :| (e in u.databaseGrants || e in u.tableGrants) && st in PrivilegeStmts(u.name, e.target, e.privileges);
      PrivilegesFrom(u.name, e.target, e.privileges, st);
    }
  }

  /** The grants after a successful run: those of before, and every privilege listed, and no more. */
  lemma RunGrantsListed(cfg: Config, s: Server, f: Server, g: (string, Target, string))
    requires Acyclic(s.members) && Run(Step, s, Stmts(cfg)) == Some(f)
    ensures g in f.grants <==>
      || g in s.grants
      || exists u, p :: u in cfg.users && Lists(u, g.1, p) && g.0 == Upper(p) && g.2 == Fold(u.name)
  {
    RunGrants(cfg, s, f);
    if g in f.grants && g !in s.grants {
      var st :| st in GrantStmts(cfg.users) && st.Grant? && g == (Upper(st.privilege), st.target, Fold(st.to));
      var u := SentIsListed(cfg, st);
    }
    if u, p :| u in cfg.users && Lists(u, g.1, p) && g.0 == Upper(p) && g.2 == Fold(u.name) {
      ListedIsSent(cfg, u, g.1, p);
      assert Grant(p, g.1, u.name) in GrantStmts(cfg.users);
    }
  }

  /** Likewise the memberships. */
  lemma RunMembersListed(cfg: Config, s: Server, f: Server, e: (string, string))
    requires Acyclic(s.members) && Run(Step, s, Stmts(cfg)) == Some(f)
    ensures e in f.members <==>
      e in s.members || exists u, r :: u in cfg.users && r in u.roles && e == (Fold(r), Fold(u.name))
  {
    RunGrants(cfg, s, f);
    if e in f.members && e !in s.members {
      var st :| st in GrantStmts(cfg.users) && st.GrantRole? && e == (Fold(st.role), Fold(st.to));
      var u := SentIsListed(cfg, st);
    }
    if u, r :| u in cfg.users && r in u.roles && e == (Fold(r), Fold(u.name)) {
      MembershipSent(u.name, u.roles, r);
      UserSent(cfg.users, u, GrantRole(r, u.name));
    }
  }

  /** Fold and Upper undo each other up to case, and leave their own case as it is. */
  lemma CaseOnly(s: string)
    ensures Upper(Fold(s)) == Upper(s) && Fold(Upper(s)) == Fold(s)
    ensures Fold(s) == s <==> NoUpper(s)
    ensures Upper(s) == s <==> forall i :: 0 <= i < |s| ==> !('a' <= s[i] <= 'z')
  {
    FoldFixes(s);
    if Upper(s) == s {
      forall i | 0 <= i < |s| ensures !('a' <= s[i] <= 'z') {
        assert Upper(s)[i] == s[i];
      }
    }
  }

  /**
   A privilege listed for a user ends up with the role that CREATE ROLE made for the user
   exactly when the name is a plain lower-case identifier and no word that must be quoted.
   */
  lemma OwnGrantsExactly(cfg: Config, s: Server, f: Server, u: User, e: Entry, p: string)
    requires Acyclic(s.members) && Run(Step, s, Stmts(cfg)) == Some(f)
    requires u in cfg.users && (e in u.databaseGrants || e in u.tableGrants) && p in e.privileges
    requires (Upper(p), e.target, u.name) !in s.grants
    ensures (Upper(p), e.target, u.name) in f.grants <==> PlainName(s, u.name)
  {
    var st := Grant(p, e.target, u.name);
    RunGrants(cfg, s, f);
    NamesItself(s, u.name);
    if (Upper(p), e.target, u.name) in f.grants {
      var x :| x in GrantStmts(cfg.users) && x.Grant?
        && (Upper(p), e.target, u.name) == (Upper(x.privilege), x.target, Fold(x.to));
      OnlyPlainNames(s, x.to);
    }
    if PlainName(s, u.name) {
      PrivilegeSent(u.name, e.target, e.privileges, p);
      EntryStmtsMembers(u.name, u.databaseGrants, st);
      EntryStmtsMembers(u.name, u.tableGrants, st);
      UserSent(cfg.users, u, st);
    }
  }

  /** The same for the roles a user is put into. */
  lemma OwnMembershipsExactly(cfg: Config, s: Server, f: Server, u: User, role: string)
    requires Acyclic(s.members) && Run(Step, s, Stmts(cfg)) == Some(f)
    requires u in cfg.users && role in u.roles && (role, u.name) !in s.members
    ensures (role, u.name) in f.members <==> PlainName(s, u.name) && PlainRole(s, role)
  {
    var st := GrantRole(role, u.name);
    RunGrants(cfg, s, f);
    NamesItself(s, u.name);
    NamesItself(s, role);
    if (role, u.name) in f.members {
      var x :| x in GrantStmts(cfg.users) && x.GrantRole? && (role, u.name) == (Fold(x.role), Fold(x.to));
      OnlyPlainNames(s, x.to);
      OnlyPlainNames(s, x.role);
    }
    if PlainName(s, u.name) && PlainRole(s, role) {
      MembershipSent(u.name, u.roles, role);
      UserSent(cfg.users, u, st);
    }
  }

  /** A user "Bob" is created, but a grant to Bob fails on a server without a role "bob". */
  lemma BobIsNotGranted(s: Server, attributes: Attributes, privilege: string, target: Target)
    requires Literal(attributes.password) && "Bob" !in s.roles && "bob" !in s.roles
    ensures var t := Step(s, CreateRole("Bob", attributes));
      t.Some? && "Bob" in t.value.roles && Step(t.value, Grant(privilege, target, "Bob")) == None
  {
    assert Fold("Bob") == "bob";
    assert "Bob"[0] == 'B' && "bob"[0] == 'b';
    assert "bob" != PUBLIC;
  }

  /** On a server with a role "bob", that role gets the grant in place of "Bob". */
  lemma BobsGrantGoesToBob(s: Server, privilege: string, target: Target)
    requires "bob" in s.roles && "bob" !in s.granteeWords && TargetExists(s, target)
    ensures var t := Step(s, Grant(privilege, target, "Bob"));
      t.Some? && t.value.grants == s.grants + {(Upper(privilege), target, "bob")}
  {
    assert Fold("Bob") == "bob";
  }

  /** A user "my-app" is created as well, but no server can read a grant to my-app. */
  lemma HyphenIsNotGranted(s: Server, attributes: Attributes, privilege: string, target: Target, role: string)
    requires Literal(attributes.password)
    ensures Step(s, CreateRole("my-app", attributes)).Some?
    ensures Fold("my-app") == "my-app" && Step(s, Grant(privilege, target, "my-app")) == None
    ensures Step(s, GrantRole(role, "my-app")) == None
  {
    var name := "my-app";
    assert name[2] == '-';
    FoldFixes(name);
    assert name != PUBLIC && name != "none" && name[0] != 'p';
  }

  // ---- Interrupted runs ----

  /** A run that is cut off after so many statements; its maps may be iterated in their own order. */
  datatype Attempt = Attempt(cfg: Config, sent: nat)

  function Try(s: Server, a: Attempt): Option<Server> {
    var all := Stmts(a.cfg);
    Run(Step, s, if a.sent <= |all| then all[..a.sent] else all)
  }

  lemma PrefixWithin(s: Server, sts: seq<Stmt>, k: nat, f: Server)
    requires Acyclic(s.members) && Run(Step, s, sts) == Some(f) && k <= |sts|
    ensures Run(Step, s, sts[..k]).Some? && Within(Run(Step, s, sts[..k]).value, f)
  {
    assert sts == sts[..k] + sts[k..];
    RunConcat(Step, s, sts[..k], sts[k..]);
    RunGrows(s, sts[..k]);
    RunGrows(Run(Step, s, sts[..k]).value, sts[k..]);
  }

  lemma TryStaysBetween(c: Config, s: Server, f: Server, m: Server, a: Attempt)
    requires Acyclic(s.members) && Run(Step, s, Stmts(c)) == Some(f) && SameConfigButOrder(c, a.cfg)
    requires Within(s, m) && Within(m, f)
    ensures Try(m, a).Some? && Within(s, Try(m, a).value) && Within(Try(m, a).value, f)
  {
    var all := Stmts(a.cfg);
    var k := if a.sent <= |all| then a.sent else |all|;
    MapOrderIrrelevant(c, a.cfg, s);
    PrefixWithin(s, all, k, f);
    RunGrows(s, Stmts(c));
    RunCatchesUp(s, all[..k], m, f);
    RunGrows(s, all[..k]);
    WithinTransitive(s, Run(Step, s, all[..k]).value, Run(Step, m, all[..k]).value);
    assert all[..|all|] == all;
  }

  lemma {:induction false} AttemptsStayBetween(c: Config, s: Server, f: Server, tries: seq<Attempt>)
    requires Acyclic(s.members) && Run(Step, s, Stmts(c)) == Some(f)
    requires forall i :: 0 <= i < |tries| ==> SameConfigButOrder(c, tries[i].cfg)
    ensures Run(Try, s, tries).Some? && Within(s, Run(Try, s, tries).value) && Within(Run(Try, s, tries).value, f)
    decreases |tries|
  {
    if tries == [] {
      RunGrows(s, Stmts(c));
    } else {
      AttemptsStayBetween(c, s, f, tries[..|tries| - 1]);
      TryStaysBetween(c, s, f, Run(Try, s, tries[..|tries| - 1]).value, tries[|tries| - 1]);
    }
  }

  /**
   However often provisioning is cut off, and whatever order each run iterates its maps in,
   one complete run ends where a single uninterrupted run ends; one more changes nothing.
   */
  lemma RerunAfterCrashes(c: Config, s: Server, f: Server, tries: seq<Attempt>, d: Config)
    requires Acyclic(s.members) && Run(Step, s, Stmts(c)) == Some(f)
    requires SameConfigButOrder(c, d) && forall i :: 0 <= i < |tries| ==> SameConfigButOrder(c, tries[i].cfg)
    ensures Run(Try, s, tries).Some?
    ensures Run(Step, Run(Try, s, tries).value, Stmts(d)) == Some(f)
    ensures Run(Step, f, Stmts(d)) == Some(f)
  {
    AttemptsStayBetween(c, s, f, tries);
    var m := Run(Try, s, tries).value;
    MapOrderIrrelevant(c, d, s);
    RunGrows(s, Stmts(d));
    RunCatchesUp(s, Stmts(d), m, f);
    WithinAntisymmetric(Run(Step, m, Stmts(d)).value, f);
    RunCatchesUp(s, Stmts(d), f, f);
    WithinAntisymmetric(Run(Step, f, Stmts(d)).value, f);
  }
}
