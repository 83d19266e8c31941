/** The broadcast hub of pkg/telemetry/hub.go: registration, and a fan-out that drops a message
    for a subscriber whose buffered channel is full. */
module TelemetryHub {
  import opened Prelude

  type Msg = string

  /** A non-blocking send on a buffered channel. */
  function Offer(buf: seq<Msg>, capacity: nat, msg: Msg): seq<Msg> {
    if |buf| < capacity then buf + [msg] else buf
  }

  class Conn {
    const capacity: nat
    var buf: seq<Msg>

    constructor (buffer: nat)
      ensures capacity == buffer && buf == []
    {
      capacity := buffer;
      buf := [];
    }
  }

  class Hub {
    var conns: set<Conn>

    constructor ()
      ensures conns == {}
    {
      conns := {};
    }

    method Register(c: Conn)
      modifies this
      ensures conns == old(conns) + {c}
    {
      conns := conns + {c};
    }

    method Unregister(c: Conn)
      modifies this
      ensures conns == old(conns) - {c}
    {
      conns := conns - {c};
    }

    method Count() returns (n: nat)
      ensures n == |conns|
    {
      return |conns|;
    }

    /** The map is visited in any order; each subscriber is offered the message once. */
    method Broadcast(msg: Msg)
      modifies conns
      ensures forall c :: c in conns ==> c.buf == if |old(c.buf)| < c.capacity then old(c.buf) + [msg] else old(c.buf)
      ensures forall c :: c in conns ==> c.buf == Offer(old(c.buf), c.capacity, msg)
    {
      var todo := conns;
      while todo != {}
        invariant todo <= conns
        invariant forall c :: c in conns - todo ==> c.buf == Offer(old(c.buf), c.capacity, msg)
        invariant forall c :: c in todo ==> c.buf == old(c.buf)
        decreases |todo|
      {
        var c :| c in todo;
        todo := todo - {c};
        if |c.buf| < c.capacity {
          c.buf := c.buf + [msg];
        }
      }
    }
  }

  // ----- Runs -----

  /** A subscriber: its channel and the messages it has received. */
  datatype Sub = Sub(capacity: nat, buf: seq<Msg>, got: seq<Msg>)

  /** sending holds the message of the broadcast in progress and the subscribers it has still to
      visit. Register and Unregister wait for it; receivers do not. */
  datatype Sys = Sys(subs: map<nat, Sub>, conns: set<nat>, sending: Option<(Msg, set<nat>)>)

  datatype Event =
    | New(c: nat, capacity: nat)
    | Register(c: nat)
    | Unregister(c: nat)
    | Start(msg: Msg)
    | Visit(c: nat)
    | End
    | Receive(c: nat)

  const INIT: Sys := Sys(map[], {}, None)

  predicate Enabled(s: Sys, e: Event) {
    match e
    case New(c, _) => c !in s.subs
    case Register(c) => c in s.subs && s.sending.None?
    case Unregister(c) => s.sending.None?
    case Start(_) => s.sending.None?
    case Visit(c) => c in s.subs && s.sending.Some? && c in s.sending.value.1
    case End => s.sending.Some? && s.sending.value.1 == {}
    case Receive(c) => c in s.subs && s.subs[c].buf != []
  }

  function Step(s: Sys, e: Event): Sys
    requires Enabled(s, e)
  {
    match e
    case New(c, capacity) => s.(subs := s.subs[c := Sub(capacity, [], [])])
    case Register(c) => s.(conns := s.conns + {c})
    case Unregister(c) => s.(conns := s.conns - {c})
    case Start(msg) => s.(sending := Some((msg, s.conns)))
    case Visit(c) =>
      var (msg, left) := s.sending.value;
      var sub := s.subs[c];
      s.(sending := Some((msg, left - {c})), subs := s.subs[c := sub.(buf := Offer(sub.buf, sub.capacity, msg))])
    case End => s.(sending := None)
    case Receive(c) =>
      var sub := s.subs[c];
      s.(subs := s.subs[c := sub.(buf := sub.buf[1..], got := sub.got + [sub.buf[0]])])
  }

  ghost predicate Legal(s: Sys, evs: seq<Event>)
    decreases |evs|
  {
    evs == [] || (Enabled(s, evs[0]) && Legal(Step(s, evs[0]), evs[1..]))
  }

  function Run(s: Sys, evs: seq<Event>): Sys
    requires Legal(s, evs)
    decreases |evs|
  {
    if evs == [] then s else Run(Step(s, evs[0]), evs[1..])
  }

  // ----- The specification, in terms of the calls alone -----

  /** One subscriber's part of a history: its capacity, whether it is registered, the message of the last
      broadcast begun and whether that still has to visit it; the messages broadcast while it was
      registered; those that were offered to it; those kept, which are the ones that found fewer than
      capacity kept messages not received yet; and how many it received. */
  datatype Past = Past(capacity: nat, registered: bool, msg: Msg, awaits: bool,
                       due: seq<Msg>, offered: seq<Msg>, kept: seq<Msg>, received: nat)

  const NO_PAST := Past(0, false, "", false, [], [], [], 0)

  function Note(h: Past, e: Event, c: nat): Past {
    match e
    case New(d, capacity) => if d == c then h.(capacity := capacity) else h
    case Register(d) => if d == c then h.(registered := true) else h
    case Unregister(d) => if d == c then h.(registered := false) else h
    case Start(msg) => h.(msg := msg, awaits := h.registered, due := if h.registered then h.due + [msg] else h.due)
    case Visit(d) =>
      if d != c then h
      else h.(awaits := false, offered := h.offered + [h.msg],
              kept := if |h.kept| - h.received < h.capacity then h.kept + [h.msg] else h.kept)
    case End => h
    case Receive(d) => if d == c then h.(received := h.received + 1) else h
  }

  function History(h: Past, evs: seq<Event>, c: nat): Past
    decreases |evs|
  {
    if evs == [] then h else History(Note(h, evs[0], c), evs[1..], c)
  }

  /** The state agrees with the history of a subscriber. */
  ghost predicate Reflects(s: Sys, h: Past, c: nat) {
    && (c in s.conns <==> h.registered)
    && (s.sending.Some? ==> h.msg == s.sending.value.0)
    && (h.awaits <==> s.sending.Some? && c in s.sending.value.1)
    && h.due == h.offered + (if h.awaits then [h.msg] else [])
    && if c in s.subs then
         && s.subs[c].capacity == h.capacity && |s.subs[c].got| == h.received
         && s.subs[c].got + s.subs[c].buf == h.kept && |s.subs[c].buf| <= h.capacity
       else !h.registered && h.received == 0 && h.kept == [] && !h.awaits
  }

  lemma ReceiveReflects(s: Sys, h: Past, c: nat)
    requires Reflects(s, h, c) && Enabled(s, Receive(c))
    ensures Reflects(Step(s, Receive(c)), Note(h, Receive(c), c), c)
  {
    var sub := s.subs[c];
    assert sub.got + sub.buf == sub.got + [sub.buf[0]] + sub.buf[1..];
  }

  lemma StepReflects(s: Sys, h: Past, e: Event, c: nat)
    requires Reflects(s, h, c) && Enabled(s, e)
    ensures Reflects(Step(s, e), Note(h, e, c), c)
  {
    if e == Receive(c) {
      ReceiveReflects(s, h, c);
    }
  }

  lemma {:induction false} RunReflects(s: Sys, h: Past, evs: seq<Event>, c: nat)
    requires Reflects(s, h, c) && Legal(s, evs)
    ensures Reflects(Run(s, evs), History(h, evs, c), c)
    decreases |evs|
  {
    hide Reflects, Step, Enabled, Note;
    if evs == [] {
    } else {
      StepReflects(s, h, evs[0], c);
      RunReflects(Step(s, evs[0]), Note(h, evs[0], c), evs[1..], c);
    }
  }

  /** In every run, what a subscriber has received followed by what is in its buffer is exactly the
      messages that, when offered, found its buffer with room; its buffer never exceeds its capacity; and
      it was offered each message broadcast while it was registered exactly once, in order, except that the
      broadcast in progress may not have reached it yet. */
  lemma FanOut(evs: seq<Event>, c: nat)
    requires Legal(INIT, evs) && c in Run(INIT, evs).subs
    ensures var sub := Run(INIT, evs).subs[c];
      var h := History(NO_PAST, evs, c);
      && sub.got + sub.buf == h.kept && |sub.got| == h.received && |sub.buf| <= sub.capacity == h.capacity
      && h.due == h.offered + (if h.awaits then [h.msg] else [])
  {
    RunReflects(INIT, NO_PAST, evs, c);
  }

  /** A message is lost exactly when it is offered to a subscriber whose buffer is full. */
  lemma LostOnlyWhenFull(evs: seq<Event>, c: nat)
    requires Legal(INIT, evs) && Enabled(Run(INIT, evs), Visit(c))
    ensures var s := Run(INIT, evs);
      var (h, t) := (History(NO_PAST, evs, c), Step(s, Visit(c)));
      && Note(h, Visit(c), c).kept == h.kept + (if |s.subs[c].buf| < s.subs[c].capacity then [h.msg] else [])
      && t.subs[c].got + t.subs[c].buf == Note(h, Visit(c), c).kept
  {
    RunReflects(INIT, NO_PAST, evs, c);
    StepReflects(Run(INIT, evs), History(NO_PAST, evs, c), Visit(c), c);
  }

  // ----- Independence -----

  function WithoutReceives(evs: seq<Event>, slow: nat): seq<Event> {
    if evs == [] then []
    else (if evs[0] == Receive(slow) then [] else [evs[0]]) + WithoutReceives(evs[1..], slow)
  }

  /** Two states that differ at most in the channel of one subscriber. */
  ghost predicate SameBut(s: Sys, t: Sys, slow: nat) {
    && s.conns == t.conns && s.sending == t.sending && s.subs.Keys == t.subs.Keys
    && (forall c :: c in s.subs && c != slow ==> s.subs[c] == t.subs[c])
  }

  lemma {:induction false} SlowChangesNobody(s: Sys, t: Sys, evs: seq<Event>, slow: nat)
    requires SameBut(s, t, slow) && Legal(s, evs)
    ensures Legal(t, WithoutReceives(evs, slow))
    ensures SameBut(Run(s, evs), Run(t, WithoutReceives(evs, slow)), slow)
    decreases |evs|
  {
    if evs == [] {
    } else {
      if evs[0] == Receive(slow) {
        assert WithoutReceives(evs, slow) == WithoutReceives(evs[1..], slow);
        SlowChangesNobody(Step(s, evs[0]), t, evs[1..], slow);
      } else {
        assert WithoutReceives(evs, slow)[1..] == WithoutReceives(evs[1..], slow);
        SlowChangesNobody(Step(s, evs[0]), Step(t, evs[0]), evs[1..], slow);
      }
    }
  }

  /** A subscriber that stops receiving changes nothing for anybody else: without its receives the
      run is still possible, and every other subscriber ends up the same. */
  lemma SlowSubscriberIsHarmless(evs: seq<Event>, slow: nat, c: nat)
    requires Legal(INIT, evs) && c in Run(INIT, evs).subs && c != slow
    ensures Legal(INIT, WithoutReceives(evs, slow))
    ensures c in Run(INIT, WithoutReceives(evs, slow)).subs
    ensures Run(INIT, WithoutReceives(evs, slow)).subs[c] == Run(INIT, evs).subs[c]
  {
    SlowChangesNobody(INIT, INIT, evs, slow);
  }
}
