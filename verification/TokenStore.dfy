/**
 The in-memory refresh token store (pkg/auth/token_store.go): a map, one timer goroutine
 for every Set, a tidy goroutine, and a Get that looks at the clock after letting go of the
 lock.  Each critical section, clock read and channel hand-over is one step.
 */
module TokenStore {
  import opened Wrappers
  import opened Machine

  datatype Entry = Entry(expires: int, token: string)

  /** What a goroutine working on behalf of `id` is about to do. */
  datatype Op =
    | Arming(id: int)                 // Set wrote the map and has not made its timer yet
    | Armed(id: int, due: int)        // waiting for its timer
    | Removing(id: int)               // past its timer or clock check: a Del will follow
    | Reading(id: int, entry: Entry)  // Get read the map and has not looked at the clock

  datatype State = State(timeout: int, clock: int, tokens: map<int, Entry>, ops: map<nat, Op>)

  datatype Label =
    | Tick(d: nat)
    | SetWrite(o: nat, id: int, token: string)
    | Arm(o: nat)
    | Fire(o: nat)
    | Remove(o: nat)
    | GetMiss(id: int)
    | GetRead(o: nat, id: int)
    | GetReturn(o: nat)
    | GetExpire(o: nat)
    | DelCall(id: int)

  function Step(s: State, l: Label): Option<State> {
    match l
    case Tick(d) => Some(s.(clock := s.clock + d))
    case SetWrite(o, id, token) =>
      if o !in s.ops then
        Some(s.(tokens := s.tokens[id := Entry(s.clock + s.timeout, token)], ops := s.ops[o := Arming(id)]))
      else None
    case Arm(o) =>
      if o in s.ops && s.ops[o].Arming? then
        Some(s.(ops := s.ops[o := Armed(s.ops[o].id, s.clock + s.timeout)]))
      else None
    case Fire(o) =>
      if o in s.ops && s.ops[o].Armed? && s.ops[o].due <= s.clock then
        Some(s.(ops := s.ops[o := Removing(s.ops[o].id)]))
      else None
    case Remove(o) =>
      if o in s.ops && s.ops[o].Removing? then
        Some(s.(tokens := s.tokens - {s.ops[o].id}, ops := s.ops - {o}))
      else None
    case GetMiss(id) => if id !in s.tokens then Some(s) else None
    case GetRead(o, id) =>
      if o !in s.ops && id in s.tokens then Some(s.(ops := s.ops[o := Reading(id, s.tokens[id])])) else None
    case GetReturn(o) =>
      if o in s.ops && s.ops[o].Reading? && s.clock <= s.ops[o].entry.expires then
        Some(s.(ops := s.ops - {o}))
      else None
    case GetExpire(o) =>
      if o in s.ops && s.ops[o].Reading? && s.clock > s.ops[o].entry.expires then
        Some(s.(ops := s.ops[o := Removing(s.ops[o].id)]))
      else None
    case DelCall(id) => Some(s.(tokens := s.tokens - {id}))
  }

  function Init(timeout: int): State {
    State(timeout, 0, map[], map[])
  }

  // ---- The plain expiring map ----

  function Clock(ls: seq<Label>): nat
    decreases |ls|
  {
    if ls == [] then 0
    else Clock(ls[..|ls| - 1]) + (match ls[|ls| - 1] case Tick(d) => d case _ => 0)
  }

  /** A map that only Set and Del change; entries stay in it when they expire. */
  function Live(timeout: int, ls: seq<Label>): map<int, Entry>
    decreases |ls|
  {
    if ls == [] then map[]
    else
      var live := Live(timeout, ls[..|ls| - 1]);
      match ls[|ls| - 1]
      case SetWrite(_, id, token) => live[id := Entry(Clock(ls) + timeout, token)]
      case DelCall(id) => live - {id}
      case _ => live
  }

  predicate Touches(l: Label, id: int) {
    (l.SetWrite? || l.DelCall?) && l.id == id
  }

  /** The j-th step is the Set that last decided `id`, and it stored e. */
  predicate DecidedBy(timeout: int, ls: seq<Label>, id: int, e: Entry, j: nat) {
    && j < |ls|
    && ls[j].SetWrite? && ls[j].id == id
    && e == Entry(Clock(ls[..j]) + timeout, ls[j].token)
    && forall m :: j < m < |ls| ==> !Touches(ls[m], id)
  }

  /** The map holds exactly what the latest Set stored, unless a Del came after it. */
  lemma {:induction false} LiveIsLatestSet(timeout: int, ls: seq<Label>, id: int, e: Entry)
    ensures id in Live(timeout, ls) && Live(timeout, ls)[id] == e <==> exists j :: DecidedBy(timeout, ls, id, e, j)
    decreases |ls|
  {
    if ls != [] {
      var ls', l := ls[..|ls| - 1], ls[|ls| - 1];
      LiveIsLatestSet(timeout, ls', id, e);
      assert forall j :: 0 <= j <= |ls'| ==> ls[..j] == ls'[..j];
      if Touches(l, id) {
        if l.SetWrite? && e == Entry(Clock(ls') + timeout, l.token) {
          assert DecidedBy(timeout, ls, id, e, |ls'|);
        }
      } else {
        forall j ensures DecidedBy(timeout, ls, id, e, j) <==> DecidedBy(timeout, ls', id, e, j) {
        }
      }
    }
  }

  // ---- One direction: the store never invents a token ----

  lemma {:induction false} StoreWithinMap(timeout: int, ls: seq<Label>, s: State)
    requires Run(Step, Init(timeout), ls) == Some(s)
    ensures s.timeout == timeout && s.clock == Clock(ls)
    ensures forall id :: id in s.tokens ==> id in Live(timeout, ls) && s.tokens[id] == Live(timeout, ls)[id]
    decreases |ls|
  {
    if ls != [] {
      StoreWithinMap(timeout, ls[..|ls| - 1], Run(Step, Init(timeout), ls[..|ls| - 1]).value);
    }
  }

  /** A Get in progress read the map at some step k of the run. */
  lemma {:induction false} ReadHappened(timeout: int, ls: seq<Label>, s: State, o: nat) returns (k: nat)
    requires Run(Step, Init(timeout), ls) == Some(s) && o in s.ops && s.ops[o].Reading?
    ensures k < |ls| && ls[k] == GetRead(o, s.ops[o].id)
    ensures s.ops[o].id in Live(timeout, ls[..k]) && Live(timeout, ls[..k])[s.ops[o].id] == s.ops[o].entry
    decreases |ls|
  {
    var ls' := ls[..|ls| - 1];
    var m := Run(Step, Init(timeout), ls').value;
    if o in m.ops && m.ops[o] == s.ops[o] {
      k := ReadHappened(timeout, ls', m, o);
      assert ls[..k] == ls'[..k];
    } else {
      StoreWithinMap(timeout, ls', m);
      k := |ls'|;
    }
  }

  /**
   A returned token was, when the map was read, the one its latest Set stored with no Del
   since, and the clock was not past its expiry when it was looked at.
   */
  lemma GetReturnsCurrentToken(timeout: int, ls: seq<Label>, s: State, o: nat) returns (k: nat, j: nat)
    requires Run(Step, Init(timeout), ls) == Some(s) && Step(s, GetReturn(o)).Some?
    ensures k < |ls| && ls[k] == GetRead(o, s.ops[o].id)
    ensures DecidedBy(timeout, ls[..k], s.ops[o].id, s.ops[o].entry, j)
    ensures Clock(ls) <= s.ops[o].entry.expires
  {
    k := ReadHappened(timeout, ls, s, o);
    StoreWithinMap(timeout, ls, s);
    LiveIsLatestSet(timeout, ls[..k], s.ops[o].id, s.ops[o].entry);
    j :| DecidedBy(timeout, ls[..k], s.ops[o].id, s.ops[o].entry, j);
  }

  // ---- The other direction: when a token is lost too early ----

  /** Whatever this goroutine does, it leaves `e` alone before e expires. */
  predicate Late(op: Op, e: Entry) {
    match op
    case Arming(_) => true
    case Armed(_, due) => due >= e.expires
    case Removing(_) => false
    case Reading(_, seen) => seen.expires + 1 >= e.expires
  }

  ghost predicate AllLate(s: State, id: int, e: Entry) {
    forall o :: o in s.ops && s.ops[o].id == id ==> Late(s.ops[o], e)
  }

  predicate Holds(s: State, id: int, e: Entry) {
    id in s.tokens && s.tokens[id] == e
  }

  /** e has run out, or it is held and nothing under way threatens it. */
  ghost predicate Protected(s: State, id: int, e: Entry) {
    s.clock >= e.expires || (Holds(s, id, e) && AllLate(s, id, e))
  }

  lemma ProtectedStep(s: State, l: Label, id: int, e: Entry)
    requires Step(s, l).Some? && !Touches(l, id)
    requires Protected(s, id, e) && e.expires <= s.clock + s.timeout
    ensures Protected(Step(s, l).value, id, e) && e.expires <= Step(s, l).value.clock + Step(s, l).value.timeout
  {
  }

  lemma {:induction false} ProtectedRun(s: State, ls: seq<Label>, id: int, e: Entry)
    requires Run(Step, s, ls).Some? && forall i :: 0 <= i < |ls| ==> !Touches(ls[i], id)
    requires Protected(s, id, e) && e.expires <= s.clock + s.timeout
    ensures Protected(Run(Step, s, ls).value, id, e)
    ensures e.expires <= Run(Step, s, ls).value.clock + Run(Step, s, ls).value.timeout
    decreases |ls|
  {
    if ls != [] {
      ProtectedRun(s, ls[..|ls| - 1], id, e);
      ProtectedStep(Run(Step, s, ls[..|ls| - 1]).value, ls[|ls| - 1], id, e);
    }
  }

  /** No continuation without a Set or Del for id loses e while it is still good. */
  ghost predicate NeverLostEarly(s: State, id: int, e: Entry) {
    forall ls: seq<Label> ::
      && (forall i :: 0 <= i < |ls| ==> !Touches(ls[i], id))
      && Run(Step, s, ls).Some? && Run(Step, s, ls).value.clock < e.expires
      ==> Holds(Run(Step, s, ls).value, id, e)
  }

  lemma RunTwo(s: State, a: Label, b: Label)
    requires Step(s, a).Some? && Step(Step(s, a).value, b).Some?
    ensures Run(Step, s, [a, b]) == Step(Step(s, a).value, b)
  {
    RunSnoc(Step, s, [], a);
    RunSnoc(Step, s, [a], b);
    assert [] + [a] == [a];
    assert [a] + [b] == [a, b];
  }

  /** The steps by which a goroutine that is not late removes e while it is still good. */
  function LossSteps(s: State, o: nat): seq<Label>
    requires o in s.ops
  {
    match s.ops[o]
    case Arming(_) => []
    case Armed(_, due) => [Tick(if due > s.clock then due - s.clock else 0), Fire(o)]
    case Removing(_) => []
    case Reading(_, seen) => [Tick(if seen.expires >= s.clock then seen.expires + 1 - s.clock else 0), GetExpire(o)]
  }

  lemma NotLateLoses(s: State, id: int, e: Entry, o: nat) returns (ls: seq<Label>)
    requires s.clock < e.expires && o in s.ops && s.ops[o].id == id && !Late(s.ops[o], e)
    ensures forall i :: 0 <= i < |ls| ==> !Touches(ls[i], id)
    ensures Run(Step, s, ls).Some? && Run(Step, s, ls).value.clock < e.expires && id !in Run(Step, s, ls).value.tokens
  {
    var due := LossSteps(s, o);
    if due != [] {
      RunTwo(s, due[0], due[1]);
    }
    RunSnoc(Step, s, due, Remove(o));
    ls := due + [Remove(o)];
  }

  /**
   Exactly when a held, unexpired token cannot be lost early: no goroutine for its id has a
   timer due before the token's expiry, an entry read that expired before it, or a Del to come.
   */
  lemma NeverLostExactlyWhenLate(s: State, id: int, e: Entry)
    requires Holds(s, id, e) && s.clock < e.expires <= s.clock + s.timeout
    ensures NeverLostEarly(s, id, e) <==> AllLate(s, id, e)
  {
    if AllLate(s, id, e) {
      forall ls: seq<Label> |
        && (forall i :: 0 <= i < |ls| ==> !Touches(ls[i], id))
        && Run(Step, s, ls).Some? && Run(Step, s, ls).value.clock < e.expires
        ensures Holds(Run(Step, s, ls).value, id, e)
      {
        ProtectedRun(s, ls, id, e);
      }
    } else {
      var o :| o in s.ops && s.ops[o].id == id && !Late(s.ops[o], e);
      var ls := NotLateLoses(s, id, e, o);
    }
  }

  /** Every Set of the run comes when nothing under way for its id threatens the new token. */
  ghost predicate Calm(timeout: int, ls: seq<Label>) {
    forall k :: 0 <= k < |ls| && ls[k].SetWrite? && Run(Step, Init(timeout), ls[..k]).Some? ==>
      var s := Run(Step, Init(timeout), ls[..k]).value;
      AllLate(s, ls[k].id, Entry(s.clock + timeout, ls[k].token))
  }

  lemma {:induction false} CalmProtects(timeout: int, ls: seq<Label>, s: State, id: int)
    requires Run(Step, Init(timeout), ls) == Some(s) && Calm(timeout, ls)
    requires id in Live(timeout, ls)
    ensures Protected(s, id, Live(timeout, ls)[id])
    ensures Live(timeout, ls)[id].expires <= s.clock + s.timeout
    decreases |ls|
  {
    var ls', l := ls[..|ls| - 1], ls[|ls| - 1];
    var m := Run(Step, Init(timeout), ls').value;
    StoreWithinMap(timeout, ls', m);
    assert Calm(timeout, ls') by {
      assert forall k :: 0 <= k < |ls'| ==> ls'[..k] == ls[..k];
    }
    if Touches(l, id) {
      assert ls[..|ls'|] == ls';
    } else {
      CalmProtects(timeout, ls', m, id);
      ProtectedStep(m, l, id, Live(timeout, ls)[id]);
    }
  }

  /** In calm runs the store agrees with the plain map on every token that has not expired. */
  lemma CalmRunsRefineBothWays(timeout: int, ls: seq<Label>, s: State, id: int, e: Entry)
    requires Run(Step, Init(timeout), ls) == Some(s) && Calm(timeout, ls) && s.clock < e.expires
    ensures Holds(s, id, e) <==> id in Live(timeout, ls) && Live(timeout, ls)[id] == e
  {
    StoreWithinMap(timeout, ls, s);
    if id in Live(timeout, ls) {
      CalmProtects(timeout, ls, s, id);
    }
  }

  /**
   The promise fails without that condition: with a timeout of 10, a token set at time 5 over
   one set at time 0 is held with an expiry of 15, but the old timer can take it away at 10.
   */
  lemma StaleTimerLosesNewToken(id: int) returns (s: State)
    ensures Run(Step, Init(10), [SetWrite(0, id, "old"), Arm(0), Tick(5), SetWrite(1, id, "new")]) == Some(s)
    ensures s.clock == 5 && Holds(s, id, Entry(15, "new"))
    ensures !NeverLostEarly(s, id, Entry(15, "new"))
  {
    var a, b, c, d := SetWrite(0, id, "old"), Arm(0), Tick(5), SetWrite(1, id, "new");
    RunTwo(Init(10), a, b);
    RunSnoc(Step, Init(10), [a, b], c);
    RunSnoc(Step, Init(10), [a, b, c], d);
    assert [a, b] + [c] == [a, b, c] && [a, b, c] + [d] == [a, b, c, d];
    s := Run(Step, Init(10), [a, b, c, d]).value;
    assert s.ops[0] == Armed(id, 10);
    NeverLostExactlyWhenLate(s, id, Entry(15, "new"));
  }

  // ---- The calls of the store ----

  function Started(s: State, o: nat, id: int, d: nat): State
    requires id in s.tokens
  {
    s.(clock := s.clock + d, ops := s.ops[o := Reading(id, s.tokens[id])])
  }

  lemma GetStarts(s: State, o: nat, id: int, d: nat)
    requires o !in s.ops && id in s.tokens
    ensures Run(Step, s, [GetRead(o, id), Tick(d)]) == Some(Started(s, o, id, d))
  {
    RunTwo(s, GetRead(o, id), Tick(d));
  }

  lemma GetReturns(s: State, o: nat, id: int, d: nat)
    requires o !in s.ops && id in s.tokens && s.clock + d <= s.tokens[id].expires
    ensures Run(Step, s, [GetRead(o, id), Tick(d)] + [GetReturn(o)]) == Some(s.(clock := s.clock + d))
  {
    GetStarts(s, o, id, d);
    RunSnoc(Step, s, [GetRead(o, id), Tick(d)], GetReturn(o));
    assert s.ops[o := Reading(id, s.tokens[id])] - {o} == s.ops;
  }

  lemma GetExpires(s: State, o: nat, id: int, d: nat)
    requires o !in s.ops && id in s.tokens && s.clock + d > s.tokens[id].expires
    ensures Run(Step, s, [GetRead(o, id), Tick(d)] + [GetExpire(o)] + [Remove(o)])
         == Some(s.(clock := s.clock + d, tokens := s.tokens - {id}))
  {
    GetStarts(s, o, id, d);
    RunSnoc(Step, s, [GetRead(o, id), Tick(d)], GetExpire(o));
    RunSnoc(Step, s, [GetRead(o, id), Tick(d)] + [GetExpire(o)], Remove(o));
    assert s.ops[o := Reading(id, s.tokens[id])][o := Removing(id)] - {o} == s.ops;
  }

  class MemoryTokenStore {
    const timeout: int
    var clock: int
    var tokens: map<int, Entry>
    var ops: map<nat, Op>

    constructor (timeout: int)
      ensures St() == Init(timeout)
    {
      this.timeout, clock, tokens, ops := timeout, 0, map[], map[];
    }

    function St(): State
      reads this
    {
      State(timeout, clock, tokens, ops)
    }

    /** Runs as goroutine o, which stays behind to wait for the new token's timer. */
    method Set(o: nat, id: int, token: string)
      requires o !in ops
      modifies this
      ensures tokens == old(tokens)[id := Entry(old(clock) + timeout, token)]
      ensures ops == old(ops)[o := Armed(id, old(clock) + timeout)] && clock == old(clock)
      ensures Run(Step, old(St()), [SetWrite(o, id, token), Arm(o)]) == Some(St())
    {
      tokens := tokens[id := Entry(clock + timeout, token)];
      ops := ops[o := Arming(id)];
      ops := ops[o := Armed(id, clock + timeout)];
      RunTwo(old(St()), SetWrite(o, id, token), Arm(o));
      assert ops == old(ops)[o := Armed(id, clock + timeout)];
    }

    /** A Get of goroutine o; the clock may move by d between the map and the clock read. */
    method Get(o: nat, id: int, d: nat) returns (r: Option<string>, ghost trace: seq<Label>)
      requires o !in ops
      modifies this
      ensures clock == old(clock) + d && ops == old(ops)
      ensures r == if id in old(tokens) && clock <= old(tokens)[id].expires then Some(old(tokens)[id].token) else None
      ensures tokens == if id in old(tokens) && r.None? then old(tokens) - {id} else old(tokens)
      ensures Run(Step, old(St()), trace) == Some(St())
    {
      ghost var s := St();
      if id !in tokens {
        clock := clock + d;
        RunTwo(s, GetMiss(id), Tick(d));
        return None, [GetMiss(id), Tick(d)];
      }
      var entry := tokens[id];
      clock := clock + d;
      if clock > entry.expires {
        GetExpires(s, o, id, d);
        Del(id);
        return None, [GetRead(o, id), Tick(d)] + [GetExpire(o)] + [Remove(o)];
      }
      GetReturns(s, o, id, d);
      return Some(entry.token), [GetRead(o, id), Tick(d)] + [GetReturn(o)];
    }

    method Del(id: int)
      modifies this`tokens
      ensures tokens == old(tokens) - {id}
      ensures Step(old(St()), DelCall(id)) == Some(St())
    {
      tokens := tokens - {id};
    }

    /** The timer of goroutine o has gone off and tidy receives its id. */
    method Tidy(o: nat)
      requires o in ops && ops[o].Armed? && ops[o].due <= clock
      modifies this
      ensures tokens == old(tokens) - {old(ops)[o].id} && ops == old(ops) - {o} && clock == old(clock)
      ensures Run(Step, old(St()), [Fire(o), Remove(o)]) == Some(St())
    {
      var id := ops[o].id;
      RunTwo(St(), Fire(o), Remove(o));
      assert ops[o := Removing(id)] - {o} == ops - {o};
      ops := ops - {o};
      Del(id);
    }
  }
}
