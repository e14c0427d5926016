/**
 Chat rooms: every connection saves what it receives from its socket, then publishes it, and
 hears the room's channel through a subscription that leaves out its own user's messages
 (pkg/app/chat/chat.go, pkg/app/chat/comms.go).  The database hands out increasing ids and
 the broker delivers in order and loses nothing; both are the assumptions of this model.
 */
module Chat {
  import opened Wrappers
  import opened Machine
  import opened Channels

  datatype Message = Message(id: nat, room: int, user: int, body: string)

  datatype Published = Published(channel: string, conn: nat, msg: Message)

  /**
   One websocket: a saved message on its way to the broker, the position in the publish log
   where its subscription began, what the broker buffered for it, what its filter goroutine
   holds, and what writeLoop took from it to send.
   */
  datatype Conn = Conn(
    room: int,
    user: int,
    pending: Option<Message>,
    since: Option<nat>,
    inbox: seq<Message>,
    held: Option<Message>,
    delivered: seq<Message>)

  datatype State = State(nextId: nat, saved: seq<Message>, log: seq<Published>, conns: map<nat, Conn>)

  datatype Label =
    | Open(c: nat, room: int, user: int)
    | Subscribe(c: nat)
    | Save(c: nat, raw: Message, skip: nat)  // Recv, then SaveMessage; ids may skip
    | Publish(c: nat)
    | PublishFails(c: nat)
    | Take(c: nat)   // the filter goroutine takes the next buffered message
    | Send(c: nat)   // writeLoop takes what the goroutine held and sends it

  /** SaveMessage stores the message as the client filled it in and sets its id. */
  function Stored(raw: Message, id: nat): Message {
    raw.(id := id)
  }

  /** Pub overwrites room and user with those of the connection. */
  function Stamped(m: Message, c: Conn): Message {
    m.(room := c.room, user := c.user)
  }

  /** The broker appends to the buffer of every subscription whose pattern matches. */
  function Heard(c: Conn, p: Published): Conn {
    if c.since.Some? && Glob(Pattern(c.room), p.channel) then c.(inbox := c.inbox + [p.msg]) else c
  }

  function Step(s: State, l: Label): Option<State> {
    match l
    case Open(c, room, user) =>
      if c !in s.conns then Some(s.(conns := s.conns[c := Conn(room, user, None, None, [], None, [])])) else None
    case Subscribe(c) =>
      if c in s.conns && s.conns[c].since.None? then
        Some(s.(conns := s.conns[c := s.conns[c].(since := Some(|s.log|))]))
      else None
    case Save(c, raw, skip) =>
      if c in s.conns && s.conns[c].pending.None? && |raw.body| > 0 then
        var m := Stored(raw, s.nextId + skip);
        Some(s.(nextId := m.id + 1, saved := s.saved + [m], conns := s.conns[c := s.conns[c].(pending := Some(m))]))
      else None
    case Publish(c) =>
      if c in s.conns && s.conns[c].pending.Some? then
        var conn := s.conns[c].(pending := None);
        var p := Published(Channel(conn.room, conn.user), c, Stamped(s.conns[c].pending.value, conn));
        var conns := s.conns[c := conn];
        Some(s.(log := s.log + [p], conns := map k | k in conns :: Heard(conns[k], p)))
      else None
    case PublishFails(c) =>
      if c in s.conns && s.conns[c].pending.Some? then
        Some(s.(conns := s.conns[c := s.conns[c].(pending := None)]))
      else None
    case Take(c) =>
      if c in s.conns && s.conns[c].inbox != [] && s.conns[c].held.None? then
        var conn := s.conns[c].(inbox := s.conns[c].inbox[1..]);
        var m := s.conns[c].inbox[0];
        Some(s.(conns := s.conns[c := if m.user == conn.user then conn else conn.(held := Some(m))]))
      else None
    case Send(c) =>
      if c in s.conns && s.conns[c].held.Some? then
        var conn := s.conns[c];
        Some(s.(conns := s.conns[c := conn.(held := None, delivered := conn.delivered + [conn.held.value])]))
      else None
  }

  const EMPTY: State := State(0, [], [], map[])

  // ---- Delivery ----

  /** The messages of a list that some other user wrote. */
  function Others(ms: seq<Message>, user: int): seq<Message>
    decreases |ms|
  {
    if ms == [] then []
    else Others(ms[..|ms| - 1], user) + (if ms[|ms| - 1].user == user then [] else [ms[|ms| - 1]])
  }

  lemma {:induction false} OthersHead(ms: seq<Message>, user: int)
    requires ms != []
    ensures Others(ms, user) == (if ms[0].user == user then [] else [ms[0]]) + Others(ms[1..], user)
    decreases |ms|
  {
    if |ms| > 1 {
      OthersHead(ms[..|ms| - 1], user);
      assert ms[..|ms| - 1][1..] == ms[1..][..|ms| - 2];
    }
  }

  /** What other users published in a room from a position of the log on. */
  function Expected(log: seq<Published>, since: nat, room: int, user: int): seq<Message>
    requires since <= |log|
    decreases |log|
  {
    if |log| == since then []
    else
      var m := log[|log| - 1].msg;
      Expected(log[..|log| - 1], since, room, user) + (if m.room == room && m.user != user then [m] else [])
  }

  /** Taken to send, then held, then still buffered. */
  function Received(c: Conn): seq<Message> {
    c.delivered + (if c.held.Some? then [c.held.value] else []) + Others(c.inbox, c.user)
  }

  predicate ConnSound(s: State, c: nat)
    requires c in s.conns
  {
    match s.conns[c].since
    case None => s.conns[c].inbox == [] && s.conns[c].held == None && s.conns[c].delivered == []
    case Some(k) => k <= |s.log| && Received(s.conns[c]) == Expected(s.log, k, s.conns[c].room, s.conns[c].user)
  }

  predicate PublishedSound(s: State, i: nat)
    requires i < |s.log|
  {
    var p := s.log[i];
    && p.conn in s.conns
    && p.msg.room == s.conns[p.conn].room && p.msg.user == s.conns[p.conn].user
    && p.channel == Channel(p.msg.room, p.msg.user)
    && (exists k :: 0 <= k < |s.saved| && s.saved[k].id == p.msg.id && s.saved[k].body == p.msg.body)
  }

  ghost predicate Sound(s: State) {
    && (forall c :: c in s.conns ==> ConnSound(s, c))
    && (forall i :: 0 <= i < |s.log| ==> PublishedSound(s, i))
    && (forall c :: c in s.conns && s.conns[c].pending.Some? ==> s.conns[c].pending.value in s.saved)
  }

  lemma HeardSound(s: State, c: nat, p: Published)
    requires c in s.conns && ConnSound(s, c) && p.channel == Channel(p.msg.room, p.msg.user)
    ensures ConnSound(s.(log := s.log + [p], conns := s.conns[c := Heard(s.conns[c], p)]), c)
  {
    var conn := s.conns[c];
    PatternHearsOnlyItsRoom(conn.room, p.msg.room, p.msg.user);
    assert (s.log + [p])[..|s.log|] == s.log;
    assert (conn.inbox + [p.msg])[..|conn.inbox|] == conn.inbox;
  }

  /** Steps of one connection leave the log and the other connections as they are. */
  lemma OtherConnsSound(s: State, c: nat, conn: Conn, saved: seq<Message>, nextId: nat)
    requires Sound(s) && c in s.conns && s.saved <= saved
    requires conn.room == s.conns[c].room && conn.user == s.conns[c].user
    requires conn.pending.Some? ==> conn.pending.value in saved
    requires ConnSound(s.(conns := s.conns[c := conn]), c)
    ensures Sound(State(nextId, saved, s.log, s.conns[c := conn]))
  {
    var t := State(nextId, saved, s.log, s.conns[c := conn]);
    forall k | k in t.conns ensures ConnSound(t, k) {
      if k != c {
        assert ConnSound(s, k);
      }
    }
    forall i | 0 <= i < |t.log| ensures PublishedSound(t, i) {
      assert PublishedSound(s, i);
      var k :| 0 <= k < |s.saved| && s.saved[k].id == s.log[i].msg.id && s.saved[k].body == s.log[i].msg.body;
      assert t.saved[k] == s.saved[k];
    }
  }

  lemma PublishSound(s: State, c: nat)
    requires Sound(s) && Step(s, Publish(c)).Some?
    ensures Sound(Step(s, Publish(c)).value)
  {
    var t := Step(s, Publish(c)).value;
    var n := |s.log|;
    var p := t.log[n];
    forall k | k in t.conns ensures ConnSound(t, k) {
      var conn := if k == c then s.conns[c].(pending := None) else s.conns[k];
      var s' := s.(conns := s.conns[k := conn]);
      assert ConnSound(s, k);
      assert ConnSound(s', k);
      HeardSound(s', k, p);
    }
    forall i | 0 <= i < |t.log| ensures PublishedSound(t, i) {
      if i < n {
        assert PublishedSound(s, i);
      }
    }
  }

  lemma OpenSound(s: State, l: Label)
    requires Sound(s) && l.Open? && Step(s, l).Some?
    ensures Sound(Step(s, l).value)
  {
    var t := Step(s, l).value;
    forall k | k in t.conns ensures ConnSound(t, k) {
      if k != l.c {
        assert ConnSound(s, k);
      }
    }
    forall i | 0 <= i < |t.log| ensures PublishedSound(t, i) {
      assert PublishedSound(s, i);
    }
  }

  lemma SoundStep(s: State, l: Label)
    requires Sound(s) && Step(s, l).Some?
    ensures Sound(Step(s, l).value)
  {
    if l.Open? {
      OpenSound(s, l);
    } else if l.Publish? {
      PublishSound(s, l.c);
    } else {
      var t := Step(s, l).value;
      assert ConnSound(s, l.c);
      if l.Take? {
        OthersHead(s.conns[l.c].inbox, s.conns[l.c].user);
      }
      OtherConnsSound(s, l.c, t.conns[l.c], t.saved, t.nextId);
    }
  }

  lemma {:induction false} AlwaysSound(ls: seq<Label>, s: State)
    requires Run(Step, EMPTY, ls) == Some(s)
    ensures Sound(s)
    decreases |ls|
  {
    if ls != [] {
      var m := Run(Step, EMPTY, ls[..|ls| - 1]).value;
      AlwaysSound(ls[..|ls| - 1], m);
      SoundStep(m, ls[|ls| - 1]);
    }
  }

  /**
   In every interleaving, what a connection sent, holds and has buffered is exactly what
   other users published in its room since it subscribed, in that order.
   */
  lemma DeliveryIsExact(ls: seq<Label>, s: State, c: nat)
    requires Run(Step, EMPTY, ls) == Some(s) && c in s.conns && s.conns[c].since.Some?
    ensures s.conns[c].since.value <= |s.log|
    ensures Received(s.conns[c]) == Expected(s.log, s.conns[c].since.value, s.conns[c].room, s.conns[c].user)
  {
    AlwaysSound(ls, s);
    assert ConnSound(s, c);
  }

  lemma {:induction false} ExpectedFromLog(log: seq<Published>, since: nat, room: int, user: int, m: Message)
    returns (i: nat)
    requires since <= |log| && m in Expected(log, since, room, user)
    ensures since <= i < |log| && log[i].msg == m && m.room == room && m.user != user
    decreases |log|
  {
    var n := |log| - 1;
    if m in Expected(log[..n], since, room, user) {
      i := ExpectedFromLog(log[..n], since, room, user, m);
    } else {
      i := n;
    }
  }

  /** A received message was saved under its id, then published in that room by somebody else. */
  lemma ReceivedWasSavedThenPublished(ls: seq<Label>, s: State, c: nat, m: Message) returns (i: nat)
    requires Run(Step, EMPTY, ls) == Some(s) && c in s.conns && m in Received(s.conns[c])
    ensures i < |s.log| && s.log[i].msg == m && s.log[i].conn in s.conns
    ensures m.room == s.conns[c].room == s.conns[s.log[i].conn].room
    ensures m.user == s.conns[s.log[i].conn].user != s.conns[c].user
    ensures exists k :: 0 <= k < |s.saved| && s.saved[k].id == m.id && s.saved[k].body == m.body
  {
    AlwaysSound(ls, s);
    assert ConnSound(s, c);
    i := ExpectedFromLog(s.log, s.conns[c].since.value, s.conns[c].room, s.conns[c].user, m);
    assert PublishedSound(s, i);
  }

  // ---- Order ----

  ghost predicate Ordered(s: State) {
    && (forall i, j :: 0 <= i < j < |s.log| && s.log[i].conn == s.log[j].conn ==> s.log[i].msg.id < s.log[j].msg.id)
    && (forall i :: 0 <= i < |s.log| ==> s.log[i].conn in s.conns && s.log[i].msg.id < s.nextId)
    && (forall i :: 0 <= i < |s.log| && s.log[i].conn in s.conns && s.conns[s.log[i].conn].pending.Some? ==>
          s.log[i].msg.id < s.conns[s.log[i].conn].pending.value.id)
    && (forall c :: c in s.conns && s.conns[c].pending.Some? ==> s.conns[c].pending.value.id < s.nextId)
  }

  lemma OrderedPublish(s: State, c: nat)
    requires Ordered(s) && Step(s, Publish(c)).Some?
    ensures Ordered(Step(s, Publish(c)).value)
  {
    var t := Step(s, Publish(c)).value;
    assert forall k :: k in t.conns ==>
      k in s.conns && t.conns[k].pending == if k == c then None else s.conns[k].pending;
  }

  lemma OrderedStep(s: State, l: Label)
    requires Ordered(s) && Step(s, l).Some?
    ensures Ordered(Step(s, l).value)
  {
    if l.Publish? {
      OrderedPublish(s, l.c);
    } else {
      var t := Step(s, l).value;
      assert t.log == s.log && s.nextId <= t.nextId;
      assert forall k :: k in s.conns && k != l.c ==> t.conns[k] == s.conns[k];
    }
  }

  /** Each connection publishes with increasing ids, whatever the others do. */
  lemma {:induction false} PublishedIdsIncrease(ls: seq<Label>, s: State)
    requires Run(Step, EMPTY, ls) == Some(s)
    ensures Ordered(s)
    decreases |ls|
  {
    if ls != [] {
      var m := Run(Step, EMPTY, ls[..|ls| - 1]).value;
      PublishedIdsIncrease(ls[..|ls| - 1], m);
      OrderedStep(m, ls[|ls| - 1]);
    }
  }

  // ---- The loops of a connection ----

  /** A message as the loops pass it around: by reference. */
  class MessageRef {
    var m: Message

    constructor (m: Message)
      ensures this.m == m
    {
      this.m := m;
    }
  }

  /** The database, the broker and the connections on them. */
  class Hub {
    var nextId: nat
    var saved: seq<Message>
    var log: seq<Published>
    var conns: map<nat, Conn>

    constructor ()
      ensures St() == EMPTY
    {
      nextId, saved, log, conns := 0, [], [], map[];
    }

    function St(): State
      reads this
    {
      State(nextId, saved, log, conns)
    }

    /** Fills in the id the database chose; the rest of the message is stored as it came. */
    method SaveMessage(c: nat, msg: MessageRef, skip: nat)
      requires c in conns && conns[c].pending.None? && |msg.m.body| > 0
      modifies this, msg
      ensures Some(St()) == Step(old(St()), Save(c, old(msg.m), skip))
      ensures Some(msg.m) == conns[c].pending
    {
      var id := nextId + skip;
      msg.m := msg.m.(id := id);
      nextId := id + 1;
      saved := saved + [msg.m];
      conns := conns[c := conns[c].(pending := Some(msg.m))];
    }

    /** Overwrites room and user, then publishes on the connection's own channel. */
    method Pub(c: nat, msg: MessageRef)
      requires c in conns && conns[c].pending == Some(msg.m)
      modifies this, msg
      ensures Some(St()) == Step(old(St()), Label.Publish(c))
      ensures msg.m == old(msg.m).(room := conns[c].room, user := conns[c].user)
    {
      var key := Channel(conns[c].room, conns[c].user);
      msg.m := msg.m.(room := conns[c].room);
      msg.m := msg.m.(user := conns[c].user);
      conns := conns[c := conns[c].(pending := None)];
      var p := Published(key, c, msg.m);
      log := log + [p];
      conns := map k | k in conns :: Heard(conns[k], p);
    }

    /**
     One turn of readLoop on a decoded frame.  An empty body ends the loop, a failed save
     drops the message, and only a saved message is published.
     */
    method ReadTurn(c: nat, raw: Message, skip: nat, saves: bool, publishes: bool) returns (goOn: bool)
      requires c in conns && conns[c].pending.None?
      modifies this
      ensures goOn == (|raw.body| > 0)
      ensures !goOn || !saves ==> St() == old(St())
      ensures goOn && saves ==>
        Some(St()) == Run(Step, old(St()), [Save(c, raw, skip), if publishes then Publish(c) else PublishFails(c)])
      ensures goOn && saves && publishes ==>
        && |log| == |old(log)| + 1 && |saved| > 0
        && log[|old(log)|].msg == Message(saved[|saved| - 1].id, conns[c].room, conns[c].user, raw.body)
    {
      if |raw.body| == 0 {
        return false;
      }
      var msg := new MessageRef(raw);
      if !saves {
        return true;
      }
      var first, second := Save(c, raw, skip), if publishes then Publish(c) else PublishFails(c);
      RunSnoc(Step, St(), [], first);
      RunSnoc(Step, St(), [first], second);
      assert [] + [first] == [first] && [first] + [second] == [first, second];
      SaveMessage(c, msg, skip);
      if publishes {
        Pub(c, msg);
      } else {
        conns := conns[c := conns[c].(pending := None)];
      }
      return true;
    }

    /** The filter goroutine goes through what is buffered until it holds something to send. */
    method NextMessage(c: nat) returns (ghost steps: seq<Label>)
      requires c in conns && conns[c].held.None?
      modifies this`conns
      ensures Run(Step, old(St()), steps) == Some(St()) && forall i :: 0 <= i < |steps| ==> steps[i] == Take(c)
      ensures c in conns && (conns[c].held.Some? || conns[c].inbox == [])
      ensures conns[c].held.Some? ==> conns[c].held.value.user != conns[c].user
    {
      steps := [];
      while conns[c].inbox != [] && conns[c].held.None?
        invariant c in conns
        invariant Run(Step, old(St()), steps) == Some(St())
        invariant forall i :: 0 <= i < |steps| ==> steps[i] == Take(c)
        invariant conns[c].held.Some? ==> conns[c].held.value.user != conns[c].user
        decreases |conns[c].inbox|
      {
        RunSnoc(Step, old(St()), steps, Take(c));
        steps := steps + [Take(c)];
        var m := conns[c].inbox[0];
        var conn := conns[c].(inbox := conns[c].inbox[1..]);
        if m.user == conn.user {
          conns := conns[c := conn];
        } else {
          conns := conns[c := conn.(held := Some(m))];
        }
      }
    }
  }
}
