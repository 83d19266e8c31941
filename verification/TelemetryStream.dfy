/** The telemetry stream of pkg/telemetry/stream.go: accepting connections up to a bound, a reader
    and a writer goroutine per connection that both call remove, and shutdown. */
module TelemetryStream {
  import opened Prelude
  import TelemetryHub
  import WsFrame
  import WsConn

  // ----- The step system -----

  datatype Side = Reader | Writer

  /** A loop is running, or has left and is about to call or inside remove, or has returned after
      wg.Done. */
  datatype Loop = Looping | Leaving | Returned

  /** The once guard of remove: not entered; entered by one loop; that loop has deleted the connection;
      has unregistered it from the hub; the guarded function has returned. */
  datatype Once = Untouched | Entered(side: Side) | Deleted(side: Side) | Unregistered(side: Side) | Finished

  /** A connection between the first section of Accept and the start of its loops, or served. */
  datatype ConnState = Accepting(registered: bool) | Serving(reader: Loop, writer: Loop, once: Once)

  /** Shutdown: not called; has closed the stream to newcomers; has closed stopCh; its wait has seen
      the counter at zero; has returned nil. */
  datatype Phase = Open | Marked | Stopping | SawZero | Down

  /** wg is the counter of the wait group. deletes and unregisters count, per connection, the deletions
      from conns and the calls of hub.Unregister. hub holds the stream's own subscribers. */
  datatype Sys = Sys(phase: Phase, conns: set<nat>, hub: set<nat>, all: map<nat, ConnState>, wg: int,
                     deletes: multiset<nat>, unregisters: multiset<nat>)

  datatype Event =
    | Accept(c: nat)
    | Register(c: nat)
    | Serve(c: nat)
    | Leave(c: nat, side: Side)
    | EnterRemove(c: nat, side: Side)
    | Delete(c: nat)
    | Unregister(c: nat)
    | WriteClose(c: nat)
    | Done(c: nat, side: Side)
    | Mark
    | Stop
    | SeeZero
    | ReturnNil

  const INIT: Sys := Sys(Open, {}, {}, map[], 0, multiset{}, multiset{})

  function LoopOf(st: ConnState, side: Side): Loop
    requires st.Serving?
  {
    if side == Reader then st.reader else st.writer
  }

  function WithLoop(st: ConnState, side: Side, l: Loop): ConnState
    requires st.Serving?
  {
    if side == Reader then st.(reader := l) else st.(writer := l)
  }

  predicate Serves(s: Sys, c: nat) {
    c in s.all && s.all[c].Serving?
  }

  /** A loop leaves at any time: on an error, on a timeout, or because stopCh is closed. The loop that
      finds the guard entered waits until the guarded function has returned. */
  predicate Enabled(s: Sys, e: Event) {
    match e
    case Accept(c) => c !in s.all
    case Register(c) => c in s.all && s.all[c] == Accepting(false)
    case Serve(c) => c in s.all && s.all[c] == Accepting(true)
    case Leave(c, side) => Serves(s, c) && LoopOf(s.all[c], side) == Looping
    case EnterRemove(c, side) => Serves(s, c) && LoopOf(s.all[c], side) == Leaving && s.all[c].once == Untouched
    case Delete(c) => Serves(s, c) && s.all[c].once.Entered?
    case Unregister(c) => Serves(s, c) && s.all[c].once.Deleted?
    case WriteClose(c) => Serves(s, c) && s.all[c].once.Unregistered?
    case Done(c, side) => Serves(s, c) && LoopOf(s.all[c], side) == Leaving && s.all[c].once == Finished
    case Mark => s.phase == Open
    case Stop => s.phase == Marked
    case SeeZero => s.phase == Stopping && s.wg == 0
    case ReturnNil => s.phase == SawZero
  }

  /** The check at the head of Accept. */
  predicate Admits(closed: bool, present: nat, maxConns: int) {
    !closed && present < maxConns
  }

  function Set(s: Sys, c: nat, st: ConnState): Sys {
    s.(all := s.all[c := st])
  }

  function Step(s: Sys, e: Event, maxConns: int): Sys
    requires Enabled(s, e)
  {
    match e
    case Accept(c) =>
      if Admits(s.phase != Open, |s.conns|, maxConns) then Set(s, c, Accepting(false)).(conns := s.conns + {c})
      else s
    case Register(c) => Set(s, c, Accepting(true)).(hub := s.hub + {c})
    case Serve(c) => Set(s, c, Serving(Looping, Looping, Untouched)).(wg := s.wg + 2)
    case Leave(c, side) => Set(s, c, WithLoop(s.all[c], side, Leaving))
    case EnterRemove(c, side) => Set(s, c, s.all[c].(once := Entered(side)))
    case Delete(c) =>
      if c in s.conns then
        var st := s.all[c].(once := Deleted(s.all[c].once.side));
        Set(s, c, st).(conns := s.conns - {c}, deletes := s.deletes + multiset{c})
      else Set(s, c, s.all[c].(once := Finished))
    case Unregister(c) =>
      var st := s.all[c].(once := Unregistered(s.all[c].once.side));
      Set(s, c, st).(hub := s.hub - {c}, unregisters := s.unregisters + multiset{c})
    case WriteClose(c) => Set(s, c, s.all[c].(once := Finished))
    case Done(c, side) => Set(s, c, WithLoop(s.all[c], side, Returned)).(wg := s.wg - 1)
    case Mark => s.(phase := Marked)
    case Stop => s.(phase := Stopping)
    case SeeZero => s.(phase := SawZero)
    case ReturnNil => s.(phase := Down)
  }

  ghost predicate Legal(s: Sys, evs: seq<Event>, maxConns: int)
    decreases |evs|
  {
    evs == [] || (Enabled(s, evs[0]) && Legal(Step(s, evs[0], maxConns), evs[1..], maxConns))
  }

  function Run(s: Sys, evs: seq<Event>, maxConns: int): Sys
    requires Legal(s, evs, maxConns)
    decreases |evs|
  {
    if evs == [] then s else Run(Step(s, evs[0], maxConns), evs[1..], maxConns)
  }

  // ----- The invariant -----

  /** The loops the wait group counts. */
  function LiveLoops(all: map<nat, ConnState>): set<(nat, Side)> {
    set c, side | c in all && side in {Reader, Writer} && all[c].Serving? && LoopOf(all[c], side) != Returned ::
        (c, side)
  }

  /** Where a connection stands determines membership and counts. */
  predicate ConnInv(s: Sys, c: nat)
    requires c in s.all
  {
    match s.all[c]
    case Accepting(registered) =>
      c in s.conns && (c in s.hub <==> registered) && s.deletes[c] == 0 && s.unregisters[c] == 0
    case Serving(r, w, once) =>
      && (once != Finished ==> r != Returned && w != Returned)
      && match once
         case Untouched => c in s.conns && c in s.hub && s.deletes[c] == 0 && s.unregisters[c] == 0
         case Entered(_) => c in s.conns && c in s.hub && s.deletes[c] == 0 && s.unregisters[c] == 0
         case Deleted(_) => c !in s.conns && c in s.hub && s.deletes[c] == 1 && s.unregisters[c] == 0
         case _ => c !in s.conns && c !in s.hub && s.deletes[c] == 1 && s.unregisters[c] == 1
  }

  ghost predicate Inv(s: Sys, maxConns: int) {
    && (forall c :: c in s.all ==> ConnInv(s, c))
    && s.conns <= s.all.Keys && s.hub <= s.all.Keys
    && (forall c :: c !in s.all ==> s.deletes[c] == 0 && s.unregisters[c] == 0)
    && |s.conns| <= Max(0, maxConns)
    && s.wg == |LiveLoops(s.all)|
  }

  predicate Touches(e: Event, c: nat) {
    match e
    case Mark => false
    case Stop => false
    case SeeZero => false
    case ReturnNil => false
    case _ => e.c == c
  }

  lemma OwnConn(s: Sys, e: Event, c: nat, maxConns: int)
    requires Enabled(s, e) && Touches(e, c) && s.conns <= s.all.Keys && s.hub <= s.all.Keys
    requires if c in s.all then ConnInv(s, c) else s.deletes[c] == 0 && s.unregisters[c] == 0
    ensures c in Step(s, e, maxConns).all ==> ConnInv(Step(s, e, maxConns), c)
  {
  }

  lemma OtherConn(s: Sys, e: Event, c: nat, maxConns: int)
    requires Enabled(s, e) && !Touches(e, c) && c in s.all && ConnInv(s, c)
    ensures c in Step(s, e, maxConns).all && ConnInv(Step(s, e, maxConns), c)
  {
  }

  lemma StepSets(s: Sys, e: Event, maxConns: int)
    requires Inv(s, maxConns) && Enabled(s, e)
    ensures var t := Step(s, e, maxConns);
      && t.conns <= t.all.Keys && t.hub <= t.all.Keys
      && (forall c :: c !in t.all ==> c !in s.all && t.deletes[c] == 0 && t.unregisters[c] == 0)
      && (forall c :: c in t.all && c !in s.all ==> Touches(e, c))
      && |t.conns| <= Max(0, maxConns)
  {
    hide ConnInv, LiveLoops;
  }

  lemma StepConns(s: Sys, e: Event, maxConns: int)
    requires Inv(s, maxConns) && Enabled(s, e)
    ensures forall c :: c in Step(s, e, maxConns).all ==> ConnInv(Step(s, e, maxConns), c)
  {
    hide Step, Enabled, ConnInv, LiveLoops, Touches;
    StepSets(s, e, maxConns);
    forall c | c in Step(s, e, maxConns).all ensures ConnInv(Step(s, e, maxConns), c) {
      if Touches(e, c) {
        OwnConn(s, e, c, maxConns);
      } else {
        OtherConn(s, e, c, maxConns);
      }
    }
  }

  predicate Live(st: ConnState, side: Side) {
    st.Serving? && LoopOf(st, side) != Returned
  }

  /** A change of one connection that stops and starts no loop. */
  lemma SameLoops(all: map<nat, ConnState>, c: nat, st: ConnState)
    requires forall side :: Live(st, side) <==> c in all && Live(all[c], side)
    ensures LiveLoops(all[c := st]) == LiveLoops(all)
  {
    forall d, side ensures (d, side) in LiveLoops(all[c := st]) <==> (d, side) in LiveLoops(all) {
      assert d == c ==> (Live(st, side) <==> c in all && Live(all[c], side));
    }
  }

  lemma TwoMoreLoops(all: map<nat, ConnState>, c: nat)
    requires c in all ==> !all[c].Serving?
    ensures |LiveLoops(all[c := Serving(Looping, Looping, Untouched)])| == |LiveLoops(all)| + 2
  {
    var st := Serving(Looping, Looping, Untouched);
    var reader, writer := (c, Reader), (c, Writer);
    var before, after := LiveLoops(all), LiveLoops(all[c := st]);
    assert reader !in before && writer !in before && reader != writer;
    forall d, side ensures (d, side) in after <==> (d, side) in before || (d, side) == reader || (d, side) == writer {
      assert d != c ==> ((d, side) in after <==> (d, side) in before);
      assert side == Reader || side == Writer;
    }
    var one := before + {reader};
    assert |one| == |before| + 1;
    assert after == one + {writer};
  }

  lemma OneLoopLess(all: map<nat, ConnState>, c: nat, side: Side)
    requires c in all && Live(all[c], side)
    ensures |LiveLoops(all[c := WithLoop(all[c], side, Returned)])| == |LiveLoops(all)| - 1
  {
    assert LiveLoops(all[c := WithLoop(all[c], side, Returned)]) == LiveLoops(all) - {(c, side)};
  }

  lemma StepCounter(s: Sys, e: Event, maxConns: int)
    requires s.wg == |LiveLoops(s.all)| && Enabled(s, e)
    ensures Step(s, e, maxConns).wg == |LiveLoops(Step(s, e, maxConns).all)|
  {
    hide LiveLoops;
    var t := Step(s, e, maxConns);
    if e.Serve? {
      TwoMoreLoops(s.all, e.c);
    } else if e.Done? {
      OneLoopLess(s.all, e.c, e.side);
    } else if t.all != s.all {
      SameLoops(s.all, e.c, t.all[e.c]);
    }
  }

  lemma StepInv(s: Sys, e: Event, maxConns: int)
    requires Inv(s, maxConns) && Enabled(s, e)
    ensures Inv(Step(s, e, maxConns), maxConns)
  {
    hide Step, Enabled, ConnInv, LiveLoops;
    StepSets(s, e, maxConns);
    StepConns(s, e, maxConns);
    StepCounter(s, e, maxConns);
  }

  lemma {:induction false} RunInv(s: Sys, evs: seq<Event>, maxConns: int)
    requires Inv(s, maxConns) && Legal(s, evs, maxConns)
    ensures Inv(Run(s, evs, maxConns), maxConns)
    decreases |evs|
  {
    hide Inv, Step, Enabled;
    if evs == [] {
    } else {
      StepInv(s, evs[0], maxConns);
      RunInv(Step(s, evs[0], maxConns), evs[1..], maxConns);
    }
  }

  lemma ReachableInv(evs: seq<Event>, maxConns: int)
    requires Legal(INIT, evs, maxConns)
    ensures Inv(Run(INIT, evs, maxConns), maxConns)
  {
    assert LiveLoops(INIT.all) == {};
    RunInv(INIT, evs, maxConns);
  }

  // ----- The lifecycle -----

  /** In every interleaving: never more connections than MaxConns; a connection is deleted and
      unregistered at most once although both its loops call remove, and exactly once by the time
      either loop has returned. */
  lemma Lifecycle(evs: seq<Event>, maxConns: int)
    requires Legal(INIT, evs, maxConns)
    ensures var s := Run(INIT, evs, maxConns);
      && |s.conns| <= Max(0, maxConns)
      && (forall c :: s.deletes[c] <= 1 && s.unregisters[c] <= s.deletes[c])
      && (forall c :: Serves(s, c) && s.all[c].once.Untouched? ==> c in s.conns && c in s.hub)
      && (forall c :: Serves(s, c) && (s.all[c].reader == Returned || s.all[c].writer == Returned) ==>
            c !in s.conns && c !in s.hub && s.deletes[c] == 1 && s.unregisters[c] == 1)
  {
    ReachableInv(evs, maxConns);
    var s := Run(INIT, evs, maxConns);
    forall c ensures s.deletes[c] <= 1 && s.unregisters[c] <= s.deletes[c] {
      if c in s.all {
        assert ConnInv(s, c);
      }
    }
  }

  /** A connection is turned away exactly when the stream is closed or full. Otherwise it is in conns, not yet
      among the hub's subscribers, and no loop of its has started. */
  lemma AcceptExactly(evs: seq<Event>, maxConns: int, c: nat)
    requires Legal(INIT, evs, maxConns) && Enabled(Run(INIT, evs, maxConns), Accept(c))
    ensures var s := Run(INIT, evs, maxConns);
      var t := Step(s, Accept(c), maxConns);
      && (t == s <==> s.phase != Open || |s.conns| >= maxConns)
      && (t != s ==> t == s.(conns := s.conns + {c}, all := s.all[c := Accepting(false)]) && c !in s.conns)
  {
    ReachableInv(evs, maxConns);
    assert c !in Run(INIT, evs, maxConns).conns;
  }

  /** The guarded function of remove always finds its connection: the other branch is never taken. */
  lemma RemoveFindsItsConnection(evs: seq<Event>, maxConns: int, c: nat)
    requires Legal(INIT, evs, maxConns) && Enabled(Run(INIT, evs, maxConns), Delete(c))
    ensures c in Run(INIT, evs, maxConns).conns
  {
    ReachableInv(evs, maxConns);
    assert ConnInv(Run(INIT, evs, maxConns), c);
  }

  /** Connections that Accept has let in but whose loops it has not started yet. */
  function InFlight(s: Sys): set<nat> {
    set c | c in s.all && s.all[c].Accepting?
  }

  lemma CounterZero(s: Sys, maxConns: int)
    requires Inv(s, maxConns) && s.wg == 0
    ensures s.conns == InFlight(s) && s.hub <= InFlight(s)
  {
    forall c | c in s.all && s.all[c].Serving? ensures c !in s.conns && c !in s.hub {
      assert ConnInv(s, c);
      assert LiveLoops(s.all) == {};
      assert (c, Reader) !in LiveLoops(s.all);
    }
    forall c | c in InFlight(s) ensures c in s.conns {
      assert ConnInv(s, c);
    }
  }

  /** Once the stream is closed to newcomers, the set of Accepts in flight only shrinks. */
  lemma {:induction false} NoNewcomers(s: Sys, evs: seq<Event>, maxConns: int)
    requires s.phase != Open && Legal(s, evs, maxConns)
    ensures Run(s, evs, maxConns).phase != Open && InFlight(Run(s, evs, maxConns)) <= InFlight(s)
    ensures Run(s, evs, maxConns).conns <= s.conns && Run(s, evs, maxConns).hub <= s.hub + InFlight(s)
    decreases |evs|
  {
    if evs == [] {
    } else {
      NoNewcomers(Step(s, evs[0], maxConns), evs[1..], maxConns);
    }
  }

  /** When Shutdown's wait sees the counter at zero, the connections left are exactly those of Accepts
      in flight. If there are none, then whatever happens afterwards, and in particular when Shutdown has
      returned nil, no connection of the stream remains in conns or in the hub. */
  lemma ShutdownLeavesNothing(before: seq<Event>, after: seq<Event>, maxConns: int)
    requires Legal(INIT, before, maxConns) && Enabled(Run(INIT, before, maxConns), SeeZero)
    requires Legal(Step(Run(INIT, before, maxConns), SeeZero, maxConns), after, maxConns)
    ensures var s := Run(INIT, before, maxConns);
      var t := Run(Step(s, SeeZero, maxConns), after, maxConns);
      && s.conns == InFlight(s)
      && (InFlight(s) == {} ==> t.conns == {} && t.hub == {})
  {
    ReachableInv(before, maxConns);
    var s := Run(INIT, before, maxConns);
    CounterZero(s, maxConns);
    NoNewcomers(Step(s, SeeZero, maxConns), after, maxConns);
    assert InFlight(Step(s, SeeZero, maxConns)) == InFlight(s);
  }

  lemma {:induction false} Extend(s: Sys, evs: seq<Event>, e: Event, maxConns: int)
    requires Legal(s, evs, maxConns) && Enabled(Run(s, evs, maxConns), e)
    ensures Legal(s, evs + [e], maxConns) && Run(s, evs + [e], maxConns) == Step(Run(s, evs, maxConns), e, maxConns)
    decreases |evs|
  {
    hide Step, Enabled;
    if evs == [] {
      assert [e][1..] == [] && evs + [e] == [e];
    } else {
      assert (evs + [e])[1..] == evs[1..] + [e];
      Extend(Step(s, evs[0], maxConns), evs[1..], e, maxConns);
    }
  }

  /** An Accept in flight can outlive a Shutdown that returns nil. */
  lemma AcceptInFlightSurvives() returns (evs: seq<Event>)
    ensures Legal(INIT, evs, 10) && Run(INIT, evs, 10).phase == Down && Run(INIT, evs, 10).conns == {0}
  {
    evs := [];
    Extend(INIT, evs, Accept(0), 10);
    evs := evs + [Accept(0)];
    Extend(INIT, evs, Mark, 10);
    evs := evs + [Mark];
    Extend(INIT, evs, Stop, 10);
    evs := evs + [Stop];
    Extend(INIT, evs, SeeZero, 10);
    evs := evs + [SeeZero];
    Extend(INIT, evs, ReturnNil, 10);
    evs := evs + [ReturnNil];
  }

  // ----- The client timeout -----

  /** lastPong after readLoop has been handed the given messages at the given times. */
  function LastPong(accepted: int, messages: seq<(WsFrame.byte, WsFrame.Bytes)>, at: seq<int>): int
    requires |at| == |messages|
  {
    if messages == [] then accepted
    else
      var n := |messages| - 1;
      if messages[n].0 == WsFrame.OP_PONG then at[n] else LastPong(accepted, messages[..n], at[..n])
  }

  lemma {:induction false} NoPongHeard(accepted: int, messages: seq<(WsFrame.byte, WsFrame.Bytes)>, at: seq<int>)
    requires |at| == |messages| && forall m :: m in messages ==> m.0 != WsFrame.OP_PONG
    ensures LastPong(accepted, messages, at) == accepted
  {
    if messages == [] {
    } else {
      var n := |messages| - 1;
      assert messages[n] in messages;
      NoPongHeard(accepted, messages[..n], at[..n]);
    }
  }

  /** The check writeLoop makes on each tick. */
  predicate TimedOut(now: int, lastPong: int, timeout: int) {
    now - lastPong > timeout
  }

  /** Pongs do not keep a connection alive: ReadMessage swallows them, so whatever bytes a client sends,
      with a pong for every ping or none at all, it is given up exactly when its time since Accept
      exceeds the timeout. */
  lemma PongsDoNotCount(s: WsFrame.Bytes, room: nat, accepted: int, at: seq<int>, now: int, timeout: int)
    requires |at| == |WsConn.ReadAll(WsConn.Parse(s), room).messages|
    ensures TimedOut(now, LastPong(accepted, WsConn.ReadAll(WsConn.Parse(s), room).messages, at), timeout) <==>
      now - accepted > timeout
  {
    WsConn.MessagesAreData(WsConn.Parse(s), room);
    NoPongHeard(accepted, WsConn.ReadAll(WsConn.Parse(s), room).messages, at);
  }

  // ----- The methods of stream.go -----

  class StreamConn {
    const tele: TelemetryHub.Conn
    var removed: bool
    var socketClosed: bool

    constructor (buffer: nat)
      ensures fresh(tele) && tele.capacity == buffer && !removed && !socketClosed
    {
      tele := new TelemetryHub.Conn(buffer);
      removed, socketClosed := false, false;
    }
  }

  class Stream {
    const hub: TelemetryHub.Hub
    const maxConns: int
    const sendBuffer: nat
    var conns: set<StreamConn>
    var closed: bool

    constructor (hub: TelemetryHub.Hub, maxConns: int, sendBuffer: nat)
      ensures this.hub == hub && this.maxConns == maxConns && this.sendBuffer == sendBuffer && conns == {} && !closed
    {
      this.hub, this.maxConns, this.sendBuffer := hub, maxConns, sendBuffer;
      conns, closed := {}, false;
    }

    /** Accept up to the start of the loops; null means refused. */
    method Accept() returns (sc: StreamConn?)
      modifies this, hub
      ensures sc == null <==> old(closed) || |old(conns)| >= maxConns
      ensures sc == null ==> conns == old(conns) && hub.conns == old(hub.conns)
      ensures sc != null ==> fresh(sc) && conns == old(conns) + {sc} && |conns| <= maxConns
      ensures sc != null ==> hub.conns == old(hub.conns) + {sc.tele}
      ensures closed == old(closed)
    {
      if closed || |conns| >= maxConns {
        return null;
      }
      sc := new StreamConn(sendBuffer);
      conns := conns + {sc};
      hub.Register(sc.tele);
    }

    /** remove: guarded by the connection's once, so a second call does nothing. */
    method Remove(sc: StreamConn)
      modifies this, hub, sc
      ensures sc.removed && closed == old(closed)
      ensures conns == if old(sc.removed) then old(conns) else old(conns) - {sc}
      ensures hub.conns == if !old(sc.removed) && sc in old(conns) then old(hub.conns) - {sc.tele} else old(hub.conns)
      ensures sc.socketClosed == (old(sc.socketClosed) || (!old(sc.removed) && sc in old(conns)))
    {
      if sc.removed {
        return;
      }
      sc.removed := true;
      if sc in conns {
        conns := conns - {sc};
        hub.Unregister(sc.tele);
        sc.socketClosed := true;
      }
    }

    /** The first part of Shutdown: no newcomers, and the sockets of all present connections closed. */
    method BeginShutdown() returns (toClose: set<StreamConn>)
      modifies this`closed, conns
      ensures closed && toClose == conns && conns == old(conns)
      ensures forall sc :: sc in conns ==> sc.socketClosed && sc.removed == old(sc.removed)
    {
      closed := true;
      toClose := conns;
      var todo := toClose;
      while todo != {}
        invariant todo <= conns && conns == old(conns) && closed
        invariant forall sc :: sc in conns - todo ==> sc.socketClosed
        invariant forall sc :: sc in conns ==> sc.removed == old(sc.removed)
        decreases |todo|
      {
        var sc :| sc in todo;
        sc.socketClosed := true;
        todo := todo - {sc};
      }
    }
  }
}
