/**
 The short-link store as the steps its concurrent callers take on Redis
 (services/lnsmol/src/link.rs).  Every Redis command is one step; a call that fails or
 crashes simply takes no further step, or one Abandon step when it returns an error.
 */
module LinkProtocol {
  import opened Arithmetic
  import opened Wrappers
  import opened Machine
  import opened Maps
  import opened Tuples
  import opened NanoId

  datatype Link = Link(url: string, accesses: Option<nat>)

  const COUNT_KEY: string := "meta:count"

  function NewKey(prefix: string, id: string): string {
    prefix + ":" + id
  }

  /** Link keys are as different as their ids, and none is the counter's key. */
  lemma LinkKeysSeparate(id: string, other: string)
    ensures NewKey("link", id) != COUNT_KEY
    ensures NewKey("link", id) == NewKey("link", other) ==> id == other
  {
    assert NewKey("link", id)[0] == 'l';
    assert NewKey("link", id)[5..] == id;
    assert NewKey("link", other)[5..] == other;
  }

  // ---- States and steps ----

  type Task = nat

  /** A create between its INCR and its end: the count it read and the attempts it failed. */
  datatype Creating = Creating(n: int, link: Link, misses: nat)

  /** `links` maps the full Redis key of a live link; `deletes` are between DEL and DECR. */
  datatype State = State(
    count: int,
    links: map<string, Link>,
    creates: map<Task, Creating>,
    deletes: set<Task>)

  datatype Label =
    | Incr(t: Task, link: Link)
    | SetStored(t: Task, id: string)   // SET NX answered OK
    | SetTaken(t: Task, id: string)    // SET NX answered nil; try again
    | SetGaveUp(t: Task, id: string)   // SET NX answered nil once too often
    | Abandon(t: Task)                 // the create fails after its INCR
    | Expire(id: string)
    | DelHit(t: Task, id: string)      // DEL answered 1
    | DelMiss(t: Task, id: string)     // DEL answered 0
    | Decr(t: Task)

  const MAX_MISSES: nat := 32

  predicate Idle(s: State, t: Task) {
    t !in s.creates && t !in s.deletes
  }

  predicate Live(s: State, id: string) {
    NewKey("link", id) in s.links
  }

  function Step(s: State, l: Label): Option<State> {
    match l
    case Incr(t, link) =>
      if Idle(s, t) then
        Some(s.(count := s.count + 1, creates := s.creates[t := Creating(s.count + 1, link, 0)]))
      else None
    case SetStored(t, id) =>
      if t in s.creates && !Live(s, id) then
        Some(s.(links := s.links[NewKey("link", id) := s.creates[t].link], creates := s.creates - {t}))
      else None
    case SetTaken(t, id) =>
      if t in s.creates && Live(s, id) && s.creates[t].misses <= MAX_MISSES then
        Some(s.(creates := s.creates[t := s.creates[t].(misses := s.creates[t].misses + 1)]))
      else None
    case SetGaveUp(t, id) =>
      if t in s.creates && Live(s, id) && s.creates[t].misses > MAX_MISSES then
        Some(s.(creates := s.creates - {t}))
      else None
    case Abandon(t) =>
      if t in s.creates then Some(s.(creates := s.creates - {t})) else None
    case Expire(id) =>
      if Live(s, id) then Some(s.(links := s.links - {NewKey("link", id)})) else None
    case DelHit(t, id) =>
      if Idle(s, t) && Live(s, id) then
        Some(s.(links := s.links - {NewKey("link", id)}, deletes := s.deletes + {t}))
      else None
    case DelMiss(t, id) =>
      if Idle(s, t) && !Live(s, id) then Some(s) else None
    case Decr(t) =>
      if t in s.deletes then Some(s.(count := s.count - 1, deletes := s.deletes - {t})) else None
  }

  const EMPTY: State := State(0, map[], map[], {})

  // ---- Conservation of the counter ----

  predicate IsExpire(l: Label) { l.Expire? }

  /** A create that counted itself and then ended without a link. */
  predicate IsLost(l: Label) { l.Abandon? || l.SetGaveUp? }

  /** What the counter holds beyond live links and calls in progress. */
  function Slack(s: State): int {
    s.count - |s.links| - |s.creates| - |s.deletes|
  }

  lemma CreateGoesOn(s: State, l: Label)
    requires Step(s, l).Some? && (l.Incr? || l.SetTaken?)
    ensures Slack(Step(s, l).value) == Slack(s)
  {
    PutCard(s.creates, l.t, Step(s, l).value.creates[l.t]);
  }

  lemma CreateStores(s: State, t: Task, id: string)
    requires Step(s, SetStored(t, id)).Some?
    ensures Slack(Step(s, SetStored(t, id)).value) == Slack(s)
  {
    PutCard(s.links, NewKey("link", id), s.creates[t].link);
    DropCard(s.creates, t);
  }

  lemma CreateIsLost(s: State, l: Label)
    requires Step(s, l).Some? && IsLost(l)
    ensures Slack(Step(s, l).value) == Slack(s) + 1
  {
    DropCard(s.creates, l.t);
  }

  lemma LinkGoes(s: State, l: Label)
    requires Step(s, l).Some? && (l.Expire? || l.DelHit?)
    ensures Slack(Step(s, l).value) == Slack(s) + (if IsExpire(l) then 1 else 0)
  {
    DropCard(s.links, NewKey("link", l.id));
  }

  lemma DeleteEnds(s: State, l: Label)
    requires Step(s, l).Some? && (l.DelMiss? || l.Decr?)
    ensures Slack(Step(s, l).value) == Slack(s)
  {
  }

  lemma StepSlack(s: State, l: Label)
    requires Step(s, l).Some?
    ensures Slack(Step(s, l).value) == Slack(s) + (if IsExpire(l) || IsLost(l) then 1 else 0)
  {
    match l
    case Incr(_, _) => CreateGoesOn(s, l);
    case SetTaken(_, _) => CreateGoesOn(s, l);
    case SetStored(t, id) => CreateStores(s, t, id);
    case SetGaveUp(_, _) => CreateIsLost(s, l);
    case Abandon(_) => CreateIsLost(s, l);
    case Expire(_) => LinkGoes(s, l);
    case DelHit(_, _) => LinkGoes(s, l);
    case DelMiss(_, _) => DeleteEnds(s, l);
    case Decr(_) => DeleteEnds(s, l);
  }

  /**
   Conservation over every interleaving: the counter is the live links, the expired ones,
   the lost creates, the creates in flight and the deletes that still owe a DECR.
   */
  lemma {:induction false} Conservation(s0: State, ls: seq<Label>)
    requires Run(Step, s0, ls).Some?
    ensures Slack(Run(Step, s0, ls).value) == Slack(s0) + Count(IsExpire, ls) + Count(IsLost, ls)
    decreases |ls|
  {
    if ls != [] {
      var ls', l := ls[..|ls| - 1], ls[|ls| - 1];
      Conservation(s0, ls');
      StepSlack(Run(Step, s0, ls').value, l);
    }
  }

  /** So from the empty store the counter bounds the live links, and a create reads at least 1. */
  lemma CounterBoundsLinks(ls: seq<Label>, s: State)
    requires Run(Step, EMPTY, ls) == Some(s)
    ensures |s.links| + |s.creates| + |s.deletes| <= s.count
    ensures forall t, link :: Step(s, Incr(t, link)).Some? ==>
      Step(s, Incr(t, link)).value.creates[t].n >= 1 + |s.links|
  {
    Conservation(EMPTY, ls);
  }

  /** No create ever works with a count below 1, so its n - 1 does not underflow. */
  lemma {:induction false} ReadsAtLeastOne(ls: seq<Label>, s: State, t: Task)
    requires Run(Step, EMPTY, ls) == Some(s) && t in s.creates
    ensures s.creates[t].n >= 1
    decreases |ls|
  {
    var ls', l := ls[..|ls| - 1], ls[|ls| - 1];
    var m := Run(Step, EMPTY, ls').value;
    if t in m.creates {
      ReadsAtLeastOne(ls', m, t);
    } else {
      CounterBoundsLinks(ls', m);
      assert l == Incr(t, s.creates[t].link);
    }
  }

  predicate IsIncr(l: Label) { l.Incr? }

  predicate IsDecr(l: Label) { l.Decr? }

  /** The counter is the INCRs less the DECRs, whatever else happens. */
  lemma {:induction false} CountIsIncrs(ls: seq<Label>, s: State)
    requires Run(Step, EMPTY, ls) == Some(s)
    ensures s.count == Count(IsIncr, ls) - Count(IsDecr, ls)
    decreases |ls|
  {
    if ls != [] {
      CountIsIncrs(ls[..|ls| - 1], Run(Step, EMPTY, ls[..|ls| - 1]).value);
    }
  }

  /** A create in flight works for the link it began with, and with the count right after its INCR. */
  lemma {:induction false} CreatingOrigin(ls: seq<Label>, s: State, t: Task) returns (k: nat)
    requires Run(Step, EMPTY, ls) == Some(s) && t in s.creates
    ensures k < |ls| && ls[k] == Incr(t, s.creates[t].link)
    ensures forall m :: k < m < |ls| ==> !Starts(t, ls[m])
    ensures s.creates[t].n == Count(IsIncr, ls[..k + 1]) - Count(IsDecr, ls[..k + 1])
    decreases |ls|
  {
    var ls', l := ls[..|ls| - 1], ls[|ls| - 1];
    var m := Run(Step, EMPTY, ls').value;
    if Starts(t, l) {
      k := |ls'|;
      assert ls[..k + 1] == ls;
      CountIsIncrs(ls, s);
    } else {
      k := CreatingOrigin(ls', m, t);
      assert ls[..k + 1] == ls'[..k + 1];
    }
  }

  // ---- What a link id stands for ----

  predicate Removes(l: Label, id: string) {
    (l.Expire? && l.id == id) || (l.DelHit? && l.id == id)
  }

  /** A live id keeps its link, whoever runs, until it is deleted or expires. */
  lemma {:induction false} LinkStable(s: State, ls: seq<Label>, id: string)
    requires Run(Step, s, ls).Some? && Live(s, id)
    requires forall i :: 0 <= i < |ls| ==> !Removes(ls[i], id)
    ensures Live(Run(Step, s, ls).value, id)
    ensures Run(Step, s, ls).value.links[NewKey("link", id)] == s.links[NewKey("link", id)]
    decreases |ls|
  {
    if ls != [] {
      var l := ls[|ls| - 1];
      LinkStable(s, ls[..|ls| - 1], id);
      if l.Expire? || l.DelHit? {
        LinkKeysSeparate(id, l.id);
      }
    }
  }

  /** A live id holds the link that the create which stored it last had been asked for. */
  lemma {:induction false} LinkOrigin(ls: seq<Label>, s: State, id: string) returns (j: nat, k: nat)
    requires Run(Step, EMPTY, ls) == Some(s) && Live(s, id)
    ensures j < k < |ls| && ls[k].SetStored? && ls[k].id == id
    ensures ls[j] == Incr(ls[k].t, s.links[NewKey("link", id)])
    ensures forall m :: j < m < k ==> !Starts(ls[k].t, ls[m])
    ensures forall m :: k < m < |ls| ==> !Removes(ls[m], id)
    decreases |ls|
  {
    var ls', l := ls[..|ls| - 1], ls[|ls| - 1];
    var m := Run(Step, EMPTY, ls').value;
    if l.SetStored? || l.Expire? || l.DelHit? {
      LinkKeysSeparate(id, l.id);
    }
    if l.SetStored? && l.id == id {
      k := |ls'|;
      j := CreatingOrigin(ls', m, l.t);
    } else {
      j, k := LinkOrigin(ls', m, id);
    }
  }

  /** How often `id` was handed out less how often it was freed. */
  ghost function Holders(ls: seq<Label>, id: string): int
    decreases |ls|
  {
    if ls == [] then 0
    else
      var l := ls[|ls| - 1];
      Holders(ls[..|ls| - 1], id)
      + (if l.SetStored? && l.id == id then 1 else 0)
      - (if Removes(l, id) then 1 else 0)
  }

  /** At every moment an id has one holder if it is live and none otherwise. */
  lemma {:induction false} OneHolder(ls: seq<Label>, id: string)
    requires Run(Step, EMPTY, ls).Some?
    ensures Holders(ls, id) == if Live(Run(Step, EMPTY, ls).value, id) then 1 else 0
    decreases |ls|
  {
    if ls != [] {
      var l := ls[|ls| - 1];
      OneHolder(ls[..|ls| - 1], id);
      if l.SetStored? || l.Expire? || l.DelHit? {
        LinkKeysSeparate(id, l.id);
      }
    }
  }

  /** Every key the store ever holds is a link key, so the counter's key is never one. */
  lemma {:induction false} OnlyLinkKeys(ls: seq<Label>, key: string)
    requires Run(Step, EMPTY, ls).Some?
    requires key in Run(Step, EMPTY, ls).value.links
    ensures exists id :: key == NewKey("link", id)
    ensures key != COUNT_KEY
    decreases |ls|
  {
    if ls != [] {
      var ls', l := ls[..|ls| - 1], ls[|ls| - 1];
      if key in Run(Step, EMPTY, ls').value.links {
        OnlyLinkKeys(ls', key);
      } else {
        assert l.SetStored? && key == NewKey("link", l.id);
      }
      var id :| key == NewKey("link", id);
      LinkKeysSeparate(id, id);
    }
  }

  // ---- A create ends ----

  predicate Attempts(t: Task, l: Label) {
    (l.SetStored? || l.SetTaken? || l.SetGaveUp?) && l.t == t
  }

  predicate Starts(t: Task, l: Label) {
    l.Incr? && l.t == t
  }

  ghost function AttemptCount(t: Task, ls: seq<Label>): nat
    decreases |ls|
  {
    if ls == [] then 0
    else AttemptCount(t, ls[..|ls| - 1]) + (if Attempts(t, ls[|ls| - 1]) then 1 else 0)
  }

  /** Between its INCR and its end a create has tried once per recorded miss. */
  lemma {:induction false} AttemptsAreMisses(t: Task, s: State, ls: seq<Label>)
    requires Run(Step, s, ls).Some?
    requires t in s.creates && s.creates[t].misses == 0
    requires forall i :: 0 <= i < |ls| ==> !Starts(t, ls[i])
    ensures var s' := Run(Step, s, ls).value;
      if t in s'.creates then
        AttemptCount(t, ls) == s'.creates[t].misses <= MAX_MISSES + 1 && s'.creates[t].n == s.creates[t].n
      else
        AttemptCount(t, ls) <= MAX_MISSES + 2
    decreases |ls|
  {
    if ls != [] {
      AttemptsAreMisses(t, s, ls[..|ls| - 1]);
    }
  }

  /** In every interleaving a create sends at most 34 SET commands. */
  lemma CreateTriesAtMost34(t: Task, link: Link, before: State, ls: seq<Label>)
    requires Step(before, Incr(t, link)).Some?
    requires Run(Step, Step(before, Incr(t, link)).value, ls).Some?
    requires forall i :: 0 <= i < |ls| ==> !Starts(t, ls[i])
    ensures AttemptCount(t, ls) <= 34
  {
    AttemptsAreMisses(t, Step(before, Incr(t, link)).value, ls);
  }

  /** A create that gives up has sent 34 of them, and every one met a live id. */
  lemma GivesUpAfter34(t: Task, link: Link, before: State, ls: seq<Label>, id: string)
    requires Step(before, Incr(t, link)).Some?
    requires forall i :: 0 <= i < |ls| ==> !Starts(t, ls[i])
    requires Run(Step, Step(before, Incr(t, link)).value, ls + [SetGaveUp(t, id)]).Some?
    ensures AttemptCount(t, ls + [SetGaveUp(t, id)]) == 34
    ensures forall i :: 0 <= i < |ls| ==> !(ls[i].SetStored? && ls[i].t == t)
  {
    var s0 := Step(before, Incr(t, link)).value;
    RunSnoc(Step, s0, ls, SetGaveUp(t, id));
    assert (ls + [SetGaveUp(t, id)])[..|ls|] == ls;
    AttemptsAreMisses(t, s0, ls);
    StoredEndsCreate(t, s0, ls);
  }

  lemma {:induction false} StoredEndsCreate(t: Task, s: State, ls: seq<Label>)
    requires Run(Step, s, ls).Some? && t in Run(Step, s, ls).value.creates
    requires forall i :: 0 <= i < |ls| ==> !Starts(t, ls[i])
    ensures forall i :: 0 <= i < |ls| ==> !(ls[i].SetStored? && ls[i].t == t)
    decreases |ls|
  {
    if ls != [] {
      StoredEndsCreate(t, s, ls[..|ls| - 1]);
    }
  }

  // ---- How full the id space is ----

  predicate IsStored(l: Label) { l.SetStored? }

  lemma {:induction false} LinksGrowByStores(s: State, ls: seq<Label>)
    requires Run(Step, s, ls).Some?
    ensures |Run(Step, s, ls).value.links| <= |s.links| + Count(IsStored, ls)
    decreases |ls|
  {
    if ls != [] {
      var ls', l := ls[..|ls| - 1], ls[|ls| - 1];
      LinksGrowByStores(s, ls');
      var m := Run(Step, s, ls').value;
      if l.SetStored? {
        PutCard(m.links, NewKey("link", l.id), m.creates[l.t].link);
      } else if l.Expire? || l.DelHit? {
        DropCard(m.links, NewKey("link", l.id));
      }
    }
  }

  /** A create of `t`: some history, its INCR, and what everybody did since. */
  ghost predicate Create(before: seq<Label>, s0: State, t: Task, link: Link, s1: State, during: seq<Label>, s: State) {
    && Run(Step, EMPTY, before) == Some(s0)
    && Step(s0, Incr(t, link)) == Some(s1)
    && Run(Step, s1, during) == Some(s)
    && (forall i :: 0 <= i < |during| ==> !Starts(t, during[i]))
    && t in s.creates
  }

  /**
   Whatever else runs, a create that read the count n faces at most n - 1 live links plus
   those that other creates stored since its INCR.
   */
  lemma LiveDuringCreate(before: seq<Label>, s0: State, t: Task, link: Link, s1: State, during: seq<Label>, s: State)
    requires Create(before, s0, t, link, s1, during, s)
    ensures |s.links| <= s.creates[t].n - 1 + Count(IsStored, during)
  {
    CounterBoundsLinks(before, s0);
    LinksGrowByStores(s1, during);
    AttemptsAreMisses(t, s1, during);
  }

  predicate ByCreate(l: Label) {
    l.Incr? || l.SetStored? || l.SetTaken? || l.SetGaveUp? || l.Abandon?
  }

  /** No create but t's takes this step, and none starts; creates that crashed stay where they are. */
  predicate OthersRest(t: Task, l: Label) {
    !l.Incr? && (ByCreate(l) ==> l.t == t)
  }

  /** While no other create takes a step, nobody stores a link as long as t's create goes on. */
  lemma {:induction false} AloneStoresNothing(t: Task, s: State, ls: seq<Label>)
    requires Run(Step, s, ls).Some? && t in s.creates
    requires forall i :: 0 <= i < |ls| ==> OthersRest(t, ls[i])
    ensures t in Run(Step, s, ls).value.creates ==> Count(IsStored, ls) == 0
    decreases |ls|
  {
    if ls != [] {
      AloneStoresNothing(t, s, ls[..|ls| - 1]);
      assert OthersRest(t, ls[|ls| - 1]);
    }
  }

  ghost function LiveIds(s: State, size: nat): set<string> {
    set id | id in Ids(size) && Live(s, id)
  }

  /** The chance that one fresh uniform id of a size hits a live link. */
  ghost function HitChance(s: State, size: nat): real {
    PowPositive(64, size);
    Fraction(|LiveIds(s, size)|, Pow(64, size))
  }

  function Fraction(part: nat, whole: nat): real
    requires whole > 0
  {
    part as real / whole as real
  }

  lemma {:induction false} LiveIdsCard(s: State, ids: set<string>)
    requires forall id :: id in ids ==> Live(s, id)
    ensures |ids| <= |s.links|
    decreases ids
  {
    if ids != {} {
      var id :| id in ids;
      var key := NewKey("link", id);
      forall other | other in ids - {id} ensures Live(s.(links := s.links - {key}), other) {
        LinkKeysSeparate(id, other);
      }
      LiveIdsCard(s.(links := s.links - {key}), ids - {id});
      DropCard(s.links, key);
    }
  }

  lemma FractionBound(live: nat, n: nat, risk: real, d: nat)
    requires n >= 1 && d > 0 && live <= n - 1
    requires 2.0 * risk * d as real >= (n * (n - 1)) as real
    ensures n as real * Fraction(live, d) <= 2.0 * risk
  {
    var h, e, top := Fraction(live, d), d as real, (n * (n - 1)) as real;
    assert h * e == live as real;
    ProductMonotone(n, live, n, n - 1);
    CastProduct(n, live);
    assert (n as real * h) * e == n as real * live as real <= top;
    SignOfProduct(n as real * h - 2.0 * risk, e);
    assert (n as real * h - 2.0 * risk) * e == (n as real * h) * e - 2.0 * risk * e;
  }

  lemma LiveIdsFew(s: State, size: nat)
    ensures |LiveIds(s, size)| <= |s.links|
  {
    LiveIdsCard(s, LiveIds(s, size));
  }

  lemma RoomyFraction(live: nat, n: nat, risk: real, size: nat)
    requires n >= 1 && live <= n - 1 && Roomy(n, risk, size)
    ensures Pow(64, size) > 0
    ensures n as real * Fraction(live, Pow(64, size)) <= 2.0 * risk
  {
    PowPositive(64, size);
    FractionBound(live, n, risk, Pow(64, size));
  }

  lemma HitChanceFor(s: State, size: nat, n: nat, risk: real)
    requires n >= 1 && |s.links| <= n - 1 && Roomy(n, risk, size)
    ensures n as real * HitChance(s, size) <= 2.0 * risk
  {
    LiveIdsFew(s, size);
    RoomyFraction(|LiveIds(s, size)|, n, risk, size);
  }

  lemma HitChanceBound(s: State, n: nat, risk: real)
    requires 1 <= n <= LARGEST_EXACT && risk > 0.0 && |s.links| <= n - 1
    ensures n as real * HitChance(s, CalcIdSize(n, risk)) <= 2.0 * risk
  {
    CalcIdSizeRoomy(n, risk);
    HitChanceFor(s, CalcIdSize(n, risk), n, risk);
  }

  /** At most n - 1 live links, and a fresh id of the chosen size hits one rarely. */
  ghost predicate RarelyCollides(s: State, n: int, risk: real)
    requires risk > 0.0
  {
    && 1 <= n
    && |s.links| <= n - 1
    && (n <= LARGEST_EXACT ==> n as real * HitChance(s, CalcIdSize(n, risk)) <= 2.0 * risk)
  }

  lemma SparseRarelyCollides(s: State, n: int, risk: real)
    requires risk > 0.0 && |s.links| <= n - 1
    ensures RarelyCollides(s, n, risk)
  {
    if n <= LARGEST_EXACT {
      HitChanceBound(s, n, risk);
    }
  }

  /**
   When creates do not overlap, each attempt of a create that read n meets at most n - 1
   live links, and hits one with a chance h such that n * h <= 2 * risk.  Creates that
   crashed before, and deletes and expiries at any time, do not matter.
   */
  lemma LoneCreateRarelyCollides(
      before: seq<Label>, s0: State, t: Task, link: Link, s1: State, during: seq<Label>, s: State, risk: real)
    requires Create(before, s0, t, link, s1, during, s) && risk > 0.0
    requires forall i :: 0 <= i < |during| ==> OthersRest(t, during[i])
    ensures RarelyCollides(s, s.creates[t].n, risk)
  {
    LiveDuringCreate(before, s0, t, link, s1, during, s);
    AloneStoresNothing(t, s1, during);
    SparseRarelyCollides(s, s.creates[t].n, risk);
  }
}
