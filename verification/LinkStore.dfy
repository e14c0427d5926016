/**
 The short-link store's own calls (services/lnsmol/src/link.rs), each run without
 interference on a shared Redis. What each call does is a
 function of the store, and that function is shown to be a run of the interleaved protocol.
 */
module LinkStore {
  import opened Wrappers
  import opened Machine
  import opened NanoId
  import opened LinkProtocol

  datatype Error = BadRequest | Conflict | NotFound | Internal

  datatype CreateRequest = CreateRequest(url: string, expires: Option<nat>, accessLimit: Option<nat>)

  /** What the URL parser makes of the requested address. */
  datatype ParsedUrl = Malformed | Domain(name: string) | OtherHost

  const DEFAULT_EXPIRATION: nat := 60 * 60 * 24 * 7
  const MAX_TRIES: nat := 34

  /** The range of a Redis counter; stepping outside it is refused. */
  const MAX_COUNT: int := 0x7fff_ffff_ffff_ffff
  const MIN_COUNT: int := -0x8000_0000_0000_0000

  // ---- Which id a create ends up with ----

  function IdAt(rng: Rng, pos: nat, size: nat, i: nat): string {
    GenStrId(size, rng, pos + i * size)
  }

  predicate Free(links: map<string, Link>, id: string) {
    NewKey("link", id) !in links
  }

  /** The first try, from the i-th on, whose id is free; MAX_TRIES when none is. */
  function FirstFree(links: map<string, Link>, rng: Rng, pos: nat, size: nat, i: nat): (j: nat)
    requires i <= MAX_TRIES
    ensures i <= j <= MAX_TRIES
    ensures forall k :: i <= k < j ==> !Free(links, IdAt(rng, pos, size, k))
    ensures j < MAX_TRIES ==> Free(links, IdAt(rng, pos, size, j))
    decreases MAX_TRIES - i
  {
    if i == MAX_TRIES || Free(links, IdAt(rng, pos, size, i)) then i
    else FirstFree(links, rng, pos, size, i + 1)
  }

  /** The link table and generator position after one create with ids of a given size. */
  function AfterCreate(links: map<string, Link>, rng: Rng, pos: nat, size: nat, link: Link): (map<string, Link>, nat) {
    var j := FirstFree(links, rng, pos, size, 0);
    if j < MAX_TRIES then
      (links[NewKey("link", IdAt(rng, pos, size, j)) := link], pos + (j + 1) * size)
    else
      (links, pos + MAX_TRIES * size)
  }

  function Lifetime(req: CreateRequest): nat {
    match req.expires case Some(e) => e case None => DEFAULT_EXPIRATION
  }

  /** The answer, links and position of a counted create; an expiry Redis refuses fails at the first SET. */
  function Placed(links: map<string, Link>, rng: Rng, pos: nat, size: nat, link: Link, accepted: bool)
    : (Result<string, Error>, map<string, Link>, nat)
  {
    if !accepted then (Err(Internal), links, pos + size)
    else
      var j := FirstFree(links, rng, pos, size, 0);
      var (links', pos') := AfterCreate(links, rng, pos, size, link);
      (if j < MAX_TRIES then Ok(IdAt(rng, pos, size, j)) else Err(Internal), links', pos')
  }

  /** The loop of create after i misses, one try at a time: its result, links and position. */
  function Tries(links: map<string, Link>, rng: Rng, pos: nat, size: nat, link: Link, i: nat)
    : (Result<string, Error>, map<string, Link>, nat)
    requires i <= MAX_MISSES + 1
    decreases MAX_MISSES + 1 - i
  {
    var id := GenStrId(size, rng, pos);
    if Free(links, id) then (Ok(id), links[NewKey("link", id) := link], pos + size)
    else if i > MAX_MISSES then (Err(Internal), links, pos + size)
    else Tries(links, rng, pos + size, size, link, i + 1)
  }

  /** The loop stores under the first free id among 34 draws, or fails and stores nothing. */
  lemma {:induction false} TriesFindFirstFree(
      links: map<string, Link>, rng: Rng, pos: nat, size: nat, link: Link, i: nat)
    requires i <= MAX_MISSES + 1
    ensures var j := FirstFree(links, rng, pos, size, i);
      Tries(links, rng, pos + i * size, size, link, i)
      == if j < MAX_TRIES then
           (Ok(IdAt(rng, pos, size, j)), links[NewKey("link", IdAt(rng, pos, size, j)) := link], pos + (j + 1) * size)
         else
           (Err(Internal), links, pos + MAX_TRIES * size)
    decreases MAX_MISSES + 1 - i
  {
    assert pos + i * size + size == pos + (i + 1) * size;
    if !Free(links, IdAt(rng, pos, size, i)) && i <= MAX_MISSES {
      TriesFindFirstFree(links, rng, pos, size, link, i + 1);
    }
  }

  lemma TriesAreAfterCreate(links: map<string, Link>, rng: Rng, pos: nat, size: nat, link: Link)
    ensures Tries(links, rng, pos, size, link, 0) == Placed(links, rng, pos, size, link, true)
  {
    TriesFindFirstFree(links, rng, pos, size, link, 0);
    assert pos + 0 * size == pos;
  }

  class Redis {
    const maxExpiry: nat
    var count: int
    var links: map<string, Link>
    var expiry: map<string, nat>   // the lifetime in seconds each live key was stored with

    /** SET refuses an expiry of zero, and one beyond the end of its clock. */
    predicate Accepts(exp: nat) {
      0 < exp <= maxExpiry
    }

    /** The protocol state when no other call is in progress. */
    function St(): State
      reads this
    {
      State(count, links, map[], {})
    }

    predicate Valid()
      reads this
    {
      MIN_COUNT <= count <= MAX_COUNT
    }
  }

  class Store {
    const host: string
    const rd: Redis
    const risk: real
    const rng: Rng
    var pos: nat

    constructor (host: string, rd: Redis, risk: real, rng: Rng, pos: nat)
      ensures this.host == host && this.rd == rd && this.risk == risk && this.rng == rng && this.pos == pos
    {
      this.host, this.rd, this.risk, this.rng, this.pos := host, rd, risk, rng, pos;
    }

    /** A worker's copy shares Redis but owns a copy of the generator, position included. */
    method Clone() returns (s: Store)
      ensures fresh(s) && s.host == host && s.rd == rd && s.risk == risk && s.rng == rng && s.pos == pos
    {
      s := new Store(host, rd, risk, rng, pos);
    }

    /** A counter below zero does not read as a usize, so the create fails after counting itself. */
    method Create(req: CreateRequest, parsed: ParsedUrl, connects: bool) returns (r: Result<string, Error>)
      requires rd.Valid() && risk > 0.0
      modifies this, rd
      ensures rd.Valid()
      ensures var counts := !parsed.Malformed? && parsed != Domain(host) && connects && old(rd.count) < MAX_COUNT;
        && rd.count == (if counts then old(rd.count) + 1 else old(rd.count))
        && (counts && rd.count >= 0 ==>
              (r, rd.links, pos)
              == Placed(old(rd.links), rng, old(pos), CalcIdSize(rd.count, risk), Link(req.url, req.accessLimit),
                        rd.Accepts(Lifetime(req))))
        && (!counts || rd.count < 0 ==> r.Err? && rd.links == old(rd.links) && pos == old(pos))
      ensures r == Err(BadRequest) <==> parsed.Malformed?
      ensures r == Err(Conflict) <==> parsed == Domain(host)
      ensures r.Ok? ==>
        var key := NewKey("link", r.value);
        && key !in old(rd.links)
        && rd.links == old(rd.links)[key := Link(req.url, req.accessLimit)]
        && rd.expiry == old(rd.expiry)[key := match req.expires case Some(e) => e case None => 604_800]
      ensures r.Err? && r != Err(BadRequest) && r != Err(Conflict) ==> r == Err(Internal)
      ensures r.Err? ==> rd.links == old(rd.links) && rd.expiry == old(rd.expiry)
    {
      if parsed.Malformed? {
        return Err(BadRequest);
      }
      if parsed == Domain(host) {
        return Err(Conflict);
      }
      if !connects {
        return Err(Internal);
      }
      if rd.count == MAX_COUNT {
        return Err(Internal);
      }
      rd.count := rd.count + 1;
      if rd.count < 0 {
        return Err(Internal);
      }
      var size := CalcIdSize(rd.count, risk);
      var link := Link(req.url, req.accessLimit);
      var exp := Lifetime(req);
      r := Place(size, link, exp);
    }

    method Place(size: nat, link: Link, exp: nat) returns (r: Result<string, Error>)
      modifies this, rd`links, rd`expiry
      ensures r.Ok? ==>
        && Free(old(rd.links), r.value)
        && rd.links == old(rd.links)[NewKey("link", r.value) := link]
        && rd.expiry == old(rd.expiry)[NewKey("link", r.value) := exp]
      ensures r.Err? ==> r.error == Internal && rd.links == old(rd.links) && rd.expiry == old(rd.expiry)
      ensures (r, rd.links, pos) == Placed(old(rd.links), rng, old(pos), size, link, rd.Accepts(exp))
    {
      TriesAreAfterCreate(rd.links, rng, pos, size, link);
      r := FindId(size, link, exp);
    }

    /** The loop of create: draw, SET NX EX, give up after too many collisions. */
    method FindId(size: nat, link: Link, exp: nat) returns (r: Result<string, Error>)
      modifies this, rd`links, rd`expiry
      ensures r.Ok? ==>
        && Free(old(rd.links), r.value)
        && rd.links == old(rd.links)[NewKey("link", r.value) := link]
        && rd.expiry == old(rd.expiry)[NewKey("link", r.value) := exp]
      ensures r.Err? ==> r.error == Internal && rd.links == old(rd.links) && rd.expiry == old(rd.expiry)
      ensures !rd.Accepts(exp) ==> r == Err(Internal) && rd.links == old(rd.links) && pos == old(pos) + size
      ensures rd.Accepts(exp) ==> (r, rd.links, pos) == Tries(old(rd.links), rng, old(pos), size, link, 0)
    {
      var i := 0;
      while true
        invariant 0 <= i <= MAX_MISSES + 1
        invariant rd.links == old(rd.links) && rd.expiry == old(rd.expiry)
        invariant !rd.Accepts(exp) ==> pos == old(pos)
        invariant Tries(rd.links, rng, pos, size, link, i) == Tries(rd.links, rng, old(pos), size, link, 0)
        decreases MAX_MISSES + 1 - i
      {
        var id := GenStrId(size, rng, pos);
        pos := pos + size;
        if !rd.Accepts(exp) {
          return Err(Internal);
        }
        if NewKey("link", id) !in rd.links {
          rd.links := rd.links[NewKey("link", id) := link];
          rd.expiry := rd.expiry[NewKey("link", id) := exp];
          return Ok(id);
        }
        if i > MAX_MISSES {
          return Err(Internal);
        }
        i := i + 1;
      }
    }

    method Get(id: string) returns (r: Result<Link, Error>)
      ensures r == if Free(rd.links, id) then Err(NotFound) else Ok(rd.links[NewKey("link", id)])
    {
      var key := NewKey("link", id);
      if key in rd.links {
        return Ok(rd.links[key]);
      }
      return Err(NotFound);
    }

    /** The link is gone even when the counter cannot be lowered or read back. */
    method Del(id: string) returns (r: Result<(), Error>)
      requires rd.Valid()
      modifies rd
      ensures rd.Valid()
      ensures rd.links == old(rd.links) - {NewKey("link", id)}
      ensures rd.expiry == if Free(old(rd.links), id) then old(rd.expiry) else old(rd.expiry) - {NewKey("link", id)}
      ensures Free(old(rd.links), id) ==> r == Err(NotFound) && rd.count == old(rd.count)
      ensures !Free(old(rd.links), id) ==>
        && rd.count == (if old(rd.count) > MIN_COUNT then old(rd.count) - 1 else old(rd.count))
        && r == if old(rd.count) > 0 then Ok(()) else Err(Internal)
    {
      var key := NewKey("link", id);
      if key !in rd.links {
        return Err(NotFound);
      }
      rd.links := rd.links - {key};
      rd.expiry := rd.expiry - {key};
      if rd.count == MIN_COUNT {
        return Err(Internal);
      }
      rd.count := rd.count - 1;
      if rd.count < 0 {
        return Err(Internal);
      }
      return Ok(());
    }
  }

  /**
   A counted create with an acceptable expiry fails exactly when the next 34 ids the generator
   gives are all taken; otherwise it stores its link under the first of them that is free.
   */
  lemma CreateFailsExactly(links: map<string, Link>, rng: Rng, pos: nat, size: nat, link: Link)
    ensures var (r, links', _) := Placed(links, rng, pos, size, link, true);
      var row := Drawn(size, rng, pos, 34);
      && (r == Err(Internal) <==> forall k :: 0 <= k < 34 ==> !Free(links, row[k]))
      && (r.Err? ==> r == Err(Internal) && links' == links)
      && (r.Ok? ==> links' == links[NewKey("link", r.value) := link] && FirstFreeOf(links, row, r.value))
  {
    var j, row := FirstFree(links, rng, pos, size, 0), Drawn(size, rng, pos, 34);
    assert forall k :: 0 <= k < 34 ==> row[k] == IdAt(rng, pos, size, k);
    if j < MAX_TRIES {
      assert row[j] == IdAt(rng, pos, size, j) && Free(links, row[j]);
    }
  }

  ghost predicate FirstFreeOf(links: map<string, Link>, row: seq<string>, id: string) {
    exists j :: 0 <= j < |row| && row[j] == id && Free(links, id) && forall k :: 0 <= k < j ==> !Free(links, row[k])
  }

  // ---- The calls as runs of the protocol ----

  /** The SET commands of one create: a miss for each taken id, then the outcome. */
  function Sets(rng: Rng, pos: nat, size: nat, misses: nat): seq<Label> {
    seq(misses, (k: nat) requires k < misses => SetTaken(0, IdAt(rng, pos, size, k)))
  }

  function CreateTrace(links: map<string, Link>, rng: Rng, pos: nat, size: nat, link: Link, accepted: bool)
    : seq<Label>
  {
    var j := FirstFree(links, rng, pos, size, 0);
    if !accepted then
      [Incr(0, link)] + Sets(rng, pos, size, 0) + [Abandon(0)]
    else if j < MAX_TRIES then
      [Incr(0, link)] + Sets(rng, pos, size, j) + [SetStored(0, IdAt(rng, pos, size, j))]
    else
      [Incr(0, link)] + Sets(rng, pos, size, MAX_TRIES - 1) + [SetGaveUp(0, IdAt(rng, pos, size, MAX_TRIES - 1))]
  }

  lemma {:induction false} MissesRun(
      count: int, links: map<string, Link>, rng: Rng, pos: nat, size: nat, link: Link, misses: nat)
    requires misses <= MAX_MISSES + 1
    requires forall k :: 0 <= k < misses ==> !Free(links, IdAt(rng, pos, size, k))
    ensures Run(Step, State(count, links, map[], {}), [Incr(0, link)] + Sets(rng, pos, size, misses))
         == Some(State(count + 1, links, map[0 := Creating(count + 1, link, misses)], {}))
  {
    var s0 := State(count, links, map[], {});
    if misses == 0 {
      RunSnoc(Step, s0, [], Incr(0, link));
      assert [Incr(0, link)] + Sets(rng, pos, size, 0) == [] + [Incr(0, link)];
    } else {
      MissesRun(count, links, rng, pos, size, link, misses - 1);
      var id := IdAt(rng, pos, size, misses - 1);
      RunSnoc(Step, s0, [Incr(0, link)] + Sets(rng, pos, size, misses - 1), SetTaken(0, id));
      var c := Creating(count + 1, link, misses - 1);
      assert map[0 := c][0 := c.(misses := misses)] == map[0 := c.(misses := misses)];
      assert [Incr(0, link)] + Sets(rng, pos, size, misses)
          == [Incr(0, link)] + Sets(rng, pos, size, misses - 1) + [SetTaken(0, id)];
    }
  }

  /** The three ways the one create in progress can end. */
  lemma CreateEnds(count: int, links: map<string, Link>, c: Creating, id: string)
    ensures var s, t := State(count, links, map[0 := c], {}), State(count, links, map[], {});
      && Step(s, Abandon(0)) == Some(t)
      && (Free(links, id) ==> Step(s, SetStored(0, id)) == Some(t.(links := links[NewKey("link", id) := c.link])))
      && (!Free(links, id) && c.misses > MAX_MISSES ==> Step(s, SetGaveUp(0, id)) == Some(t))
  {
    assert map[0 := c] - {0} == map[];
  }

  /** An undisturbed create, even with a refused expiry, is a run of the protocol that counts once. */
  lemma CreateIsRun(count: int, links: map<string, Link>, rng: Rng, pos: nat, size: nat, link: Link, accepted: bool)
    ensures Run(Step, State(count, links, map[], {}), CreateTrace(links, rng, pos, size, link, accepted))
         == Some(State(count + 1, Placed(links, rng, pos, size, link, accepted).1, map[], {}))
  {
    var s0, j := State(count, links, map[], {}), FirstFree(links, rng, pos, size, 0);
    var misses := if !accepted then 0 else if j < MAX_TRIES then j else MAX_TRIES - 1;
    MissesRun(count, links, rng, pos, size, link, misses);
    var id := IdAt(rng, pos, size, misses);
    CreateEnds(count + 1, links, Creating(count + 1, link, misses), id);
    var last := if !accepted then Abandon(0) else if j < MAX_TRIES then SetStored(0, id) else SetGaveUp(0, id);
    RunSnoc(Step, s0, [Incr(0, link)] + Sets(rng, pos, size, misses), last);
  }

  /** So is an undisturbed delete. */
  lemma DelIsRun(count: int, links: map<string, Link>, id: string)
    ensures Run(Step, State(count, links, map[], {}),
              if Free(links, id) then [DelMiss(0, id)] else [DelHit(0, id), Decr(0)])
         == Some(State(if Free(links, id) then count else count - 1, links - {NewKey("link", id)}, map[], {}))
  {
    var s0 := State(count, links, map[], {});
    if Free(links, id) {
      RunSnoc(Step, s0, [], DelMiss(0, id));
      assert links - {NewKey("link", id)} == links;
    } else {
      RunSnoc(Step, s0, [], DelHit(0, id));
      RunSnoc(Step, s0, [DelHit(0, id)], Decr(0));
      assert {} + {0} - {0} == {};
    }
  }

  // ---- Workers with copies of one generator ----

  /** A row of creates by one worker, while the counter keeps asking for the same size. */
  function AfterCreates(links: map<string, Link>, rng: Rng, pos: nat, size: nat, todo: seq<Link>)
    : (map<string, Link>, nat)
    decreases |todo|
  {
    if todo == [] then (links, pos)
    else
      var (links', pos') := AfterCreates(links, rng, pos, size, todo[..|todo| - 1]);
      AfterCreate(links', rng, pos', size, todo[|todo| - 1])
  }

  /** Whatever a worker drew is taken afterwards, and it drew at least one id per create. */
  lemma {:induction false} DrawnIdsAreTaken(links: map<string, Link>, rng: Rng, pos: nat, size: nat, todo: seq<Link>)
    returns (m: nat)
    ensures m >= |todo|
    ensures AfterCreates(links, rng, pos, size, todo).1 == pos + m * size
    ensures forall k: nat :: k < m ==> !Free(AfterCreates(links, rng, pos, size, todo).0, IdAt(rng, pos, size, k))
    decreases |todo|
  {
    m := 0;
    if todo != [] {
      var front, link := todo[..|todo| - 1], todo[|todo| - 1];
      var m' := DrawnIdsAreTaken(links, rng, pos, size, front);
      var before := AfterCreates(links, rng, pos, size, front);
      assert AfterCreates(links, rng, pos, size, todo) == AfterCreate(before.0, rng, before.1, size, link);
      m := DrawnByCreate(before.0, rng, pos, m', size, link);
    }
  }

  /** A create draws at least once; its draws are taken afterwards, and no id comes free. */
  lemma CreateTakes(links: map<string, Link>, rng: Rng, pos: nat, size: nat, link: Link) returns (used: nat)
    ensures used > 0 && AfterCreate(links, rng, pos, size, link).1 == pos + used * size
    ensures forall k: nat :: k < used ==> !Free(AfterCreate(links, rng, pos, size, link).0, IdAt(rng, pos, size, k))
    ensures forall id :: !Free(links, id) ==> !Free(AfterCreate(links, rng, pos, size, link).0, id)
  {
    var j := FirstFree(links, rng, pos, size, 0);
    used := if j < MAX_TRIES then j + 1 else MAX_TRIES;
  }

  /** One more create after m draws: its own draws are taken too. */
  lemma DrawnByCreate(links: map<string, Link>, rng: Rng, pos: nat, m: nat, size: nat, link: Link) returns (m': nat)
    requires forall k: nat :: k < m ==> !Free(links, IdAt(rng, pos, size, k))
    ensures m' > m
    ensures AfterCreate(links, rng, pos + m * size, size, link).1 == pos + m' * size
    ensures forall k: nat :: k < m' ==>
      !Free(AfterCreate(links, rng, pos + m * size, size, link).0, IdAt(rng, pos, size, k))
  {
    var at := pos + m * size;
    var used := CreateTakes(links, rng, at, size, link);
    m' := m + used;
    Shift(rng, pos, m, size, used);
    TakenTogether(links, AfterCreate(links, rng, at, size, link).0, rng, pos, at, m, size, used);
  }

  lemma TakenTogether(
      links: map<string, Link>, links': map<string, Link>, rng: Rng, pos: nat, at: nat, m: nat, size: nat, used: nat)
    requires at == pos + m * size
    requires forall k: nat :: k < m ==> !Free(links, IdAt(rng, pos, size, k))
    requires forall id :: !Free(links, id) ==> !Free(links', id)
    requires forall k: nat :: k < used ==> !Free(links', IdAt(rng, at, size, k))
    ensures forall k: nat :: k < m + used ==> !Free(links', IdAt(rng, pos, size, k))
  {
    forall k: nat | k < m + used ensures !Free(links', IdAt(rng, pos, size, k)) {
      if k >= m {
        Shift(rng, pos, m, size, k - m);
        assert !Free(links', IdAt(rng, at, size, k - m));
      }
    }
  }

  lemma Shift(rng: Rng, pos: nat, m: nat, size: nat, k: nat)
    ensures pos + m * size + k * size == pos + (m + k) * size
    ensures IdAt(rng, pos + m * size, size, k) == IdAt(rng, pos, size, m + k)
  {
    assert m * size + k * size == (m + k) * size;
  }

  /**
   A second worker still at the position its copy was made at draws the first worker's ids
   again: it fails once for each of them, and after 34 creates its own create must fail.
   */
  lemma CopiedGeneratorRepeats(links: map<string, Link>, rng: Rng, pos: nat, size: nat, todo: seq<Link>)
    ensures var links' := AfterCreates(links, rng, pos, size, todo).0;
      && FirstFree(links', rng, pos, size, 0) >= (if |todo| < MAX_TRIES then |todo| else MAX_TRIES)
      && (|todo| >= MAX_TRIES ==> forall link :: AfterCreate(links', rng, pos, size, link).0 == links')
  {
    var m := DrawnIdsAreTaken(links, rng, pos, size, todo);
    var links' := AfterCreates(links, rng, pos, size, todo).0;
    var j := FirstFree(links', rng, pos, size, 0);
    assert j < MAX_TRIES ==> j >= m;
  }
}
