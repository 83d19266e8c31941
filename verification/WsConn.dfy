/** The connection of pkg/ws/conn.go and pkg/ws/ping.go: writers of any number of
    goroutines sharing one lock, and the read loop. */
module WsConn {
  import opened Prelude
  import opened WsFrame

  // ----- Writers -----

  datatype Call =
    | Message(op: byte, data: Bytes)
    | Pong(data: Bytes)
    | Ping
    | CloseFrame(code: nat, reason: Bytes)
    | Close

  predicate Closing(c: Call) {
    c.CloseFrame? || c.Close?
  }

  /** The frame a call sends while the connection is open. */
  function FrameFor(c: Call): Option<Frame> {
    match c
    case Message(op, data) => Some(Frame(true, op, false, NO_KEY, data))
    case Pong(data) => Some(Frame(true, OP_PONG, false, NO_KEY, data))
    case Ping => Some(Frame(true, OP_PING, false, NO_KEY, []))
    case CloseFrame(code, reason) => Some(Frame(true, OP_CLOSE, false, NO_KEY, [code / 256 % 256, code % 256] + reason))
    case Close => None
  }

  function EncodeOpt(f: Option<Frame>): Bytes {
    if f.Some? then Encode(f.value) else []
  }

  /** What the lock protects and what the peer sees. socketCloses counts calls of the socket's
      Close; toClose counts callers of Close that have set the flag and released the lock but not
      closed the socket yet. */
  datatype Sys = Sys(closed: bool, wire: Bytes, toClose: nat, socketCloses: nat)

  datatype Event = Locked(call: Call) | CloseSocket

  const INIT: Sys := Sys(false, [], 0, 0)

  predicate Enabled(s: Sys, e: Event) {
    e.CloseSocket? ==> s.toClose > 0
  }

  /** One locked section with successful writes, or the unlocked end of Close. */
  function Step(s: Sys, e: Event): Sys
    requires Enabled(s, e)
  {
    match e
    case CloseSocket => s.(toClose := s.toClose - 1, socketCloses := s.socketCloses + 1)
    case Locked(call) =>
      if s.closed then s
      else
        var wire := s.wire + EncodeOpt(FrameFor(call));
        match call
        case Close => Sys(true, wire, s.toClose + 1, s.socketCloses)
        case CloseFrame(_, _) => Sys(true, wire, s.toClose, s.socketCloses + 1)
        case _ => s.(wire := wire)
  }

  ghost predicate Legal(s: Sys, evs: seq<Event>)
    decreases |evs|
  {
    evs == [] || (Enabled(s, evs[0]) && Legal(Step(s, evs[0]), evs[1..]))
  }

  function Run(s: Sys, evs: seq<Event>): Sys
    requires Legal(s, evs)
    decreases |evs|
  {
    if evs == [] then s else Run(Step(s, evs[0]), evs[1..])
  }

  /** The calls of a run in the order they took the lock. */
  function Calls(evs: seq<Event>): seq<Call> {
    if evs == [] then []
    else (if evs[0].Locked? then [evs[0].call] else []) + Calls(evs[1..])
  }

  /** The frames the peer should see: one per call before the first closing call, and that call's
      own close frame if it sends one. */
  function Expected(calls: seq<Call>): seq<Frame> {
    if calls == [] then []
    else OptSeq(FrameFor(calls[0])) + if Closing(calls[0]) then [] else Expected(calls[1..])
  }

  /** Data opcodes for messages, and payloads within the frame limit. */
  predicate Proper(c: Call) {
    && (c.Message? ==> c.op == OP_TEXT || c.op == OP_BINARY)
    && (FrameFor(c).Some? ==> |FrameFor(c).value.payload| <= MAX_FRAME_SIZE)
  }

  lemma EncodeExpected(calls: seq<Call>)
    requires calls != []
    ensures EncodeAll(Expected(calls)) ==
      EncodeOpt(FrameFor(calls[0])) + if Closing(calls[0]) then [] else EncodeAll(Expected(calls[1..]))
  {
    var f, later := FrameFor(calls[0]), if Closing(calls[0]) then [] else Expected(calls[1..]);
    if f.Some? {
      assert ([f.value] + later)[1..] == later;
    } else {
      assert [] + later == later;
    }
  }

  lemma NothingExpected()
    ensures EncodeAll(Expected([])) == []
  {
  }

  lemma {:induction false} RunWire(s: Sys, evs: seq<Event>)
    requires Legal(s, evs)
    ensures Run(s, evs).wire == s.wire + if s.closed then [] else EncodeAll(Expected(Calls(evs)))
    decreases |evs|
  {
    hide EncodeAll, Encode, Expected, FrameFor;
    if evs == [] {
      NothingExpected();
    } else {
      var t, calls := Step(s, evs[0]), Calls(evs[1..]);
      RunWire(t, evs[1..]);
      if evs[0].CloseSocket? {
        assert Calls(evs) == calls;
      } else {
        assert Calls(evs) == [evs[0].call] + calls;
        EncodeExpected(Calls(evs));
      }
    }
  }

  lemma {:induction false} ExpectedShape(calls: seq<Call>)
    requires forall c :: c in calls ==> Proper(c)
    ensures forall f :: f in Expected(calls) ==> Plain(f)
    ensures forall i :: 0 <= i < |Expected(calls)| && Expected(calls)[i].opcode == OP_CLOSE ==>
        i == |Expected(calls)| - 1
  {
    if calls == [] {
    } else {
      assert calls[0] in calls;
      ExpectedShape(calls[1..]);
    }
  }

  /** The calls that send: those before the first closing one, and that one if it sends a close frame. */
  function Sending(calls: seq<Call>): seq<Call> {
    if calls == [] then []
    else
      match calls[0]
      case Close => []
      case CloseFrame(_, _) => [calls[0]]
      case _ => [calls[0]] + Sending(calls[1..])
  }

  /** The frame is what the peer should get for the call (sections 5.5 and 5.6 of RFC 6455). */
  predicate Carries(f: Frame, c: Call) {
    && f.fin && !f.mask && f.key == [0, 0, 0, 0]
    && match c
       case Message(op, data) => f.opcode == op && f.payload == data
       case Ping => f.opcode == 0x9 && f.payload == []
       case Pong(data) => f.opcode == 0xA && f.payload == data
       case CloseFrame(code, reason) =>
         && f.opcode == 0x8 && |f.payload| == 2 + |reason| && f.payload[2..] == reason
         && 0x100 * f.payload[0] as nat + f.payload[1] as nat == code % 0x1_0000
       case Close => false
  }

  lemma FrameCarries(c: Call)
    ensures FrameFor(c).Some? <==> !c.Close?
    ensures FrameFor(c).Some? ==> Carries(FrameFor(c).value, c)
  {
  }

  lemma {:induction false} ExpectedCarries(calls: seq<Call>)
    ensures |Expected(calls)| == |Sending(calls)|
    ensures forall i :: 0 <= i < |Sending(calls)| ==> Carries(Expected(calls)[i], Sending(calls)[i])
  {
    hide FrameFor, Carries;
    if calls == [] {
    } else {
      ExpectedCarries(calls[1..]);
      FrameCarries(calls[0]);
      assert !Closing(calls[0]) ==> Expected(calls) == [FrameFor(calls[0]).value] + Expected(calls[1..]);
    }
  }

  /** Any interleaving of writers gives a wire stream that decodes to exactly one frame per call, in lock
      order, up to the first closing call, each with the opcode and the payload of its call; a close frame
      can only be the last (section 5.5.1 of RFC 6455). */
  lemma WireDecodesToFrames(evs: seq<Event>)
    requires Legal(INIT, evs) && forall c :: c in Calls(evs) ==> Proper(c)
    ensures var (fs, sent) := (DecodeAll(Run(INIT, evs).wire), Sending(Calls(evs)));
      && |fs| == |sent| && (forall i :: 0 <= i < |fs| ==> Carries(fs[i], sent[i]))
      && (forall i :: 0 <= i < |fs| && fs[i].opcode == OP_CLOSE ==> i == |fs| - 1)
  {
    RunWire(INIT, evs);
    ExpectedShape(Calls(evs));
    ExpectedCarries(Calls(evs));
    assert [] + EncodeAll(Expected(Calls(evs))) == EncodeAll(Expected(Calls(evs)));
    DecodeAllEncodeAll(Expected(Calls(evs)));
  }

  predicate AnyClosing(calls: seq<Call>) {
    exists i :: 0 <= i < |calls| && Closing(calls[i])
  }

  lemma AnyClosingCons(c: Call, calls: seq<Call>)
    ensures AnyClosing([c] + calls) <==> Closing(c) || AnyClosing(calls)
  {
    if Closing(c) {
      assert Closing(([c] + calls)[0]);
    }
    if AnyClosing(calls) {
      var i :| 0 <= i < |calls| && Closing(calls[i]);
      assert Closing(([c] + calls)[i + 1]);
    }
  }

  /** The socket is closed at most once, and exactly once when some closing call was made and
      every Close has come to its end. */
  lemma {:induction false} SocketClosedOnce(s: Sys, evs: seq<Event>)
    requires Legal(s, evs) && s.toClose + s.socketCloses == (if s.closed then 1 else 0)
    ensures var t := Run(s, evs);
      && t.toClose + t.socketCloses == (if t.closed then 1 else 0)
      && (t.closed <==> s.closed || AnyClosing(Calls(evs)))
    decreases |evs|
  {
    if evs == [] {
    } else {
      SocketClosedOnce(Step(s, evs[0]), evs[1..]);
      if evs[0].Locked? {
        AnyClosingCons(evs[0].call, Calls(evs[1..]));
      } else {
        assert Calls(evs) == Calls(evs[1..]);
      }
    }
  }

  // ----- The read loop -----

  /** The input as the reader will find it: frame after frame, then the reason why no more follow. */
  datatype Input = End(error: FrameError) | More(frame: Frame, size: nat, later: Input)

  function Parse(s: Bytes): Input
    decreases |s|
  {
    match Decode(s)
    case Err(e) => End(e)
    case Ok(d) => More(d.frame, d.size, Parse(s[d.size..]))
  }

  function Frames(i: Input): seq<Frame> {
    if i.End? then [] else [i.frame] + Frames(i.later)
  }

  function Total(i: Input): nat {
    if i.End? then 0 else i.size + Total(i.later)
  }

  lemma {:induction false} ParseIsDecodeAll(s: Bytes)
    ensures Frames(Parse(s)) == DecodeAll(s) && Total(Parse(s)) <= |s|
    decreases |s|
  {
    if Decode(s).Err? {
    } else {
      ParseIsDecodeAll(s[Decode(s).value.size..]);
    }
  }

  datatype Outcome =
    | Data(op: byte, payload: Bytes)
    | PeerClosed(payload: Bytes)
    | ReadFailed(error: FrameError)
    | PongFailed(payload: Bytes)

  /** What one ReadMessage returns, the payloads of the pongs it sent, the input left, and the bytes
      of the frames it took. */
  datatype Scan = Scan(outcome: Outcome, pongs: seq<Bytes>, left: Input, used: nat)

  function PongFrame(data: Bytes): Frame {
    FrameFor(Pong(data)).value
  }

  function PongSize(data: Bytes): nat {
    |Encode(PongFrame(data))|
  }

  predicate IsData(op: byte) {
    op == OP_TEXT || op == OP_BINARY
  }

  /** ReadMessage; writing a pong fails when the connection is closed or the peer takes no more than
      room bytes. */
  function ScanMessage(i: Input, open: bool, room: nat): Scan {
    if i.End? then Scan(ReadFailed(i.error), [], i, 0)
    else if i.frame.opcode == OP_CLOSE then Scan(PeerClosed(i.frame.payload), [], i.later, i.size)
    else if i.frame.opcode == OP_PING then
      var size := PongSize(i.frame.payload);
      if !open || size > room then Scan(PongFailed(i.frame.payload), [], i.later, i.size)
      else
        var r := ScanMessage(i.later, open, room - size);
        r.(pongs := [i.frame.payload] + r.pongs, used := i.size + r.used)
    else if IsData(i.frame.opcode) then Scan(Data(i.frame.opcode, i.frame.payload), [], i.later, i.size)
    else
      var r := ScanMessage(i.later, open, room);
      r.(used := i.size + r.used)
  }

  function PongsSize(pongs: seq<Bytes>): nat {
    if pongs == [] then 0 else PongSize(pongs[0]) + PongsSize(pongs[1..])
  }

  function PongFrames(pongs: seq<Bytes>): seq<Frame> {
    if pongs == [] then [] else [PongFrame(pongs[0])] + PongFrames(pongs[1..])
  }

  /** ReadMessage called again and again until it returns something other than a message. */
  datatype Session = Session(messages: seq<(byte, Bytes)>, pongs: seq<Bytes>, end: Outcome)

  lemma {:induction false} ScanShrinks(i: Input, open: bool, room: nat)
    ensures ScanMessage(i, open, room).outcome.Data? ==> ScanMessage(i, open, room).left < i
    decreases i
  {
    if i.End? {
    } else if i.frame.opcode == OP_PING && open && PongSize(i.frame.payload) <= room {
      ScanShrinks(i.later, open, room - PongSize(i.frame.payload));
    } else if i.frame.opcode != OP_PING && i.frame.opcode != OP_CLOSE && !IsData(i.frame.opcode) {
      ScanShrinks(i.later, open, room);
    }
  }

  function ReadAll(i: Input, room: nat): Session
    decreases i
  {
    ScanShrinks(i, true, room);
    var r := ScanMessage(i, true, room);
    if !r.outcome.Data? then Session([], r.pongs, r.outcome)
    else
      var left := room - PongsSize(r.pongs);
      var later := ReadAll(r.left, if left < 0 then 0 else left);
      Session([(r.outcome.op, r.outcome.payload)] + later.messages, r.pongs + later.pongs, later.end)
  }

  function UpToClose(fs: seq<Frame>): seq<Frame> {
    if fs == [] || fs[0].opcode == OP_CLOSE then [] else [fs[0]] + UpToClose(fs[1..])
  }

  function DataIn(fs: seq<Frame>): seq<(byte, Bytes)> {
    if fs == [] then []
    else (if IsData(fs[0].opcode) then [(fs[0].opcode, fs[0].payload)] else []) + DataIn(fs[1..])
  }

  function PingsIn(fs: seq<Frame>): seq<Bytes> {
    if fs == [] then [] else (if fs[0].opcode == OP_PING then [fs[0].payload] else []) + PingsIn(fs[1..])
  }

  /** The frames before the first close frame. */
  function Heard(i: Input): seq<Frame> {
    UpToClose(Frames(i))
  }

  /** Why reading stops: the first close frame, or the first undecodable input. */
  function Ending(i: Input): Outcome {
    if i.End? then ReadFailed(i.error)
    else if i.frame.opcode == OP_CLOSE then PeerClosed(i.frame.payload)
    else Ending(i.later)
  }

  /** Every pong is no longer on the wire than the ping it answers. */
  predicate PongsFit(i: Input) {
    i.End? || (PongSize(i.frame.payload) <= i.size && PongsFit(i.later))
  }

  lemma {:induction false} ParsePongsFit(s: Bytes)
    ensures PongsFit(Parse(s))
    decreases |s|
  {
    if Decode(s).Err? {
    } else {
      ReencodeIsCanonical(s);
      ParsePongsFit(s[Decode(s).value.size..]);
    }
  }

  lemma HeardStep(i: Input)
    requires i.More? && i.frame.opcode != OP_CLOSE
    ensures var (f, hs) := (i.frame, Heard(i.later));
      && DataIn(Heard(i)) == (if IsData(f.opcode) then [(f.opcode, f.payload)] else []) + DataIn(hs)
      && PingsIn(Heard(i)) == (if f.opcode == OP_PING then [f.payload] else []) + PingsIn(hs)
  {
    assert Frames(i)[1..] == Frames(i.later);
    assert Heard(i)[1..] == Heard(i.later);
  }

  /** One ReadMessage takes the frames up to the first data frame off what there is to hear, or all
      of it when there is none. */
  predicate Takes(i: Input, r: Scan) {
    && PongsFit(r.left) && PongsSize(r.pongs) + Total(r.left) <= Total(i)
    && if r.outcome.Data? then
         && DataIn(Heard(i)) == [(r.outcome.op, r.outcome.payload)] + DataIn(Heard(r.left))
         && PingsIn(Heard(i)) == r.pongs + PingsIn(Heard(r.left))
         && Ending(i) == Ending(r.left)
       else DataIn(Heard(i)) == [] && PingsIn(Heard(i)) == r.pongs && r.outcome == Ending(i)
  }

  lemma PingTakes(i: Input, r: Scan, used: nat)
    requires i.More? && i.frame.opcode == OP_PING && PongSize(i.frame.payload) <= i.size && Takes(i.later, r)
    ensures Takes(i, r.(pongs := [i.frame.payload] + r.pongs, used := used))
  {
    HeardStep(i);
    PongsSizeCons(i.frame.payload, r.pongs);
    Regroup(i.frame.payload, r.pongs, if r.outcome.Data? then PingsIn(Heard(r.left)) else []);
  }

  lemma PongsSizeCons(data: Bytes, pongs: seq<Bytes>)
    ensures PongsSize([data] + pongs) == PongSize(data) + PongsSize(pongs)
  {
    assert ([data] + pongs)[1..] == pongs;
  }

  lemma Regroup(a: Bytes, b: seq<Bytes>, c: seq<Bytes>)
    ensures [a] + (b + c) == ([a] + b) + c
  {
  }

  lemma OtherTakes(i: Input, r: Scan, used: nat)
    requires i.More? && i.frame.opcode !in {OP_PING, OP_CLOSE} && !IsData(i.frame.opcode) && Takes(i.later, r)
    ensures Takes(i, r.(used := used))
  {
    HeardStep(i);
  }

  lemma LastTakes(i: Input)
    requires PongsFit(i) && (i.More? ==> i.frame.opcode == OP_CLOSE || IsData(i.frame.opcode))
    ensures Takes(i, ScanMessage(i, true, 0))
  {
    if i.More? && i.frame.opcode != OP_CLOSE {
      HeardStep(i);
    }
  }

  lemma {:induction false} ScanHears(i: Input, room: nat)
    requires PongsFit(i) && room >= Total(i)
    ensures Takes(i, ScanMessage(i, true, room))
  {
    hide Takes, PongSize;
    if i.End? || i.frame.opcode == OP_CLOSE || IsData(i.frame.opcode) {
      LastTakes(i);
    } else if i.frame.opcode == OP_PING {
      var size := PongSize(i.frame.payload);
      ScanHears(i.later, room - size);
      var r := ScanMessage(i.later, true, room - size);
      PingTakes(i, r, i.size + r.used);
    } else {
      ScanHears(i.later, room);
      var r := ScanMessage(i.later, true, room);
      OtherTakes(i, r, i.size + r.used);
    }
  }

  /** When a pong cannot be sent, ReadMessage stops right there: on a closed connection at the first ping, and on
      an open one at the first ping whose pong the peer does not take any more. Otherwise it goes as with a
      peer that takes every pong. */
  lemma {:induction false} ScanStops(i: Input, open: bool, room: nat, ample: nat)
    requires PongsFit(i) && ample >= Total(i)
    ensures var (r, full) := (ScanMessage(i, open, room), ScanMessage(i, true, ample));
      if r.outcome.PongFailed? then
        && r.pongs + [r.outcome.payload] <= PingsIn(Heard(i))
        && if open then PongsSize(r.pongs) <= room < PongsSize(r.pongs) + PongSize(r.outcome.payload)
           else r.pongs == []
      else
        && r.outcome == full.outcome && r.pongs == full.pongs && r.left == full.left
        && (open ==> PongsSize(r.pongs) <= room) && (!open ==> r.pongs == [])
  {
    hide Heard, PingsIn, DataIn, PongSize, PongsSize;
    NoPongs();
    if i.End? || i.frame.opcode == OP_CLOSE || IsData(i.frame.opcode) {
    } else {
      HeardStep(i);
      var p, size := i.frame.payload, PongSize(i.frame.payload);
      if i.frame.opcode != OP_PING {
        ScanStops(i.later, open, room, ample);
      } else if !open || size > room {
        assert [] + [p] <= [p] + PingsIn(Heard(i.later));
      } else {
        ScanStops(i.later, open, room - size, ample - size);
        var r := ScanMessage(i.later, open, room - size);
        PongsSizeCons(p, r.pongs);
        if r.outcome.PongFailed? {
          assert [p] + r.pongs + [r.outcome.payload] == [p] + (r.pongs + [r.outcome.payload]);
        }
      }
    }
  }

  lemma NoPongs()
    ensures PongsSize([]) == 0
  {
  }

  lemma {:induction false} ReadAllHears(i: Input, room: nat)
    requires PongsFit(i) && room >= Total(i)
    ensures ReadAll(i, room) == Session(DataIn(Heard(i)), PingsIn(Heard(i)), Ending(i))
    decreases i
  {
    ScanHears(i, room);
    ScanShrinks(i, true, room);
    var r := ScanMessage(i, true, room);
    if r.outcome.Data? {
      ReadAllHears(r.left, room - PongsSize(r.pongs));
    }
  }

  /** Over any finite input, with a peer that takes the pongs, the read loop returns exactly the
      text and binary payloads in order up to the first close frame or undecodable input, and sends
      exactly one pong per ping among them, with the same payload, in order (section 5.5.3 of
      RFC 6455). */
  lemma ReadLoopIsComplete(s: Bytes, room: nat)
    requires room >= |s|
    ensures var heard := UpToClose(DecodeAll(s));
      ReadAll(Parse(s), room) == Session(DataIn(heard), PingsIn(heard), Ending(Parse(s)))
  {
    ParseIsDecodeAll(s);
    ParsePongsFit(s);
    ReadAllHears(Parse(s), room);
  }

  // ----- The pongs on the wire -----

  /** The stream holds exactly one final, unmasked pong per payload, in order. */
  ghost predicate ArePongs(wire: Bytes, pings: seq<Bytes>) {
    var fs := DecodeAll(wire);
    |fs| == |pings| && forall i :: 0 <= i < |fs| ==> fs[i] == Frame(true, 0xA, false, [0, 0, 0, 0], pings[i])
  }

  lemma {:induction false} PongFramesAt(pings: seq<Bytes>)
    ensures |PongFrames(pings)| == |pings|
    ensures forall i :: 0 <= i < |pings| ==> PongFrames(pings)[i] == Frame(true, 0xA, false, [0, 0, 0, 0], pings[i])
  {
    if pings == [] {
    } else {
      PongFramesAt(pings[1..]);
    }
  }

  lemma PongsOnWire(pings: seq<Bytes>)
    requires forall p :: p in pings ==> |p| <= MAX_FRAME_SIZE
    ensures ArePongs(EncodeAll(PongFrames(pings)), pings)
  {
    PongFramesAt(pings);
    forall f | f in PongFrames(pings) ensures Plain(f) {
      var i :| 0 <= i < |PongFrames(pings)| && PongFrames(pings)[i] == f;
      assert pings[i] in pings;
    }
    DecodeAllEncodeAll(PongFrames(pings));
  }

  /** Decoded payloads are within the limit, and so are the pings among them. */
  lemma {:induction false} HeardFits(s: Bytes)
    ensures forall p :: p in PingsIn(UpToClose(DecodeAll(s))) ==> |p| <= MAX_FRAME_SIZE
    decreases |s|
  {
    if Decode(s).Err? {
    } else {
      var d := Decode(s).value;
      HeardFits(s[d.size..]);
      assert DecodeAll(s)[1..] == DecodeAll(s[d.size..]);
      assert d.frame.opcode != OP_CLOSE ==>
        UpToClose(DecodeAll(s)) == [d.frame] + UpToClose(DecodeAll(s[d.size..]));
    }
  }

  // ----- Fragmented messages -----

  /** What RFC 6455 does not let a receiver pass over: a reserved opcode, or a control frame that is
      fragmented or longer than 125 bytes (sections 5.2 and 5.5). */
  predicate Violates(f: Frame) {
    || 3 <= f.opcode < 8 || f.opcode > OP_PONG
    || (IsControl(f.opcode) && (!f.fin || |f.payload| > 125))
  }

  predicate IsControl(op: byte) {
    op == OP_CLOSE || op == OP_PING || op == OP_PONG
  }

  /** The messages of section 5.4 of RFC 6455: a data frame and the continuation frames after it, up to
      the first with the final flag, control frames in between aside. A receiver that meets a violation, a
      stray continuation frame or a data frame inside a message fails the connection. part is the
      message begun so far. */
  function Reassembled(fs: seq<Frame>, part: Option<(byte, Bytes)>): seq<(byte, Bytes)> {
    if fs == [] then []
    else
      var f, rest := fs[0], fs[1..];
      if Violates(f) then []
      else if IsControl(f.opcode) then Reassembled(rest, part)
      else if IsData(f.opcode) == part.Some? then []
      else
        var sofar := if part.Some? then (part.value.0, part.value.1 + f.payload) else (f.opcode, f.payload);
        if f.fin then [sofar] + Reassembled(rest, None) else Reassembled(rest, Some(sofar))
  }

  /** The frames hold no fragmented message, other than one whose continuation frames are all empty, and
      no message begun is left open; nothing that fails the connection comes before a data frame. */
  predicate Whole(fs: seq<Frame>, begun: bool) {
    if fs == [] then !begun
    else
      var f, rest := fs[0], fs[1..];
      if Violates(f) then !begun && !IsData(f.opcode) && DataIn(rest) == []
      else if IsControl(f.opcode) then Whole(rest, begun)
      else if IsData(f.opcode) then !begun && Whole(rest, !f.fin)
      else if begun then f.payload == [] && Whole(rest, !f.fin)
      else DataIn(rest) == []
  }

  /** A message that has begun can only grow. */
  lemma {:induction false} PartGrows(fs: seq<Frame>, op: byte, sofar: Bytes)
    ensures var r := Reassembled(fs, Some((op, sofar)));
      r != [] ==> |r[0].1| >= |sofar|
  {
    if fs == [] {
    } else if !Violates(fs[0]) && IsControl(fs[0].opcode) {
      PartGrows(fs[1..], op, sofar);
    } else if !Violates(fs[0]) && !IsData(fs[0].opcode) && !fs[0].fin {
      PartGrows(fs[1..], op, sofar + fs[0].payload);
    }
  }

  lemma {:induction false} WholeExactly(fs: seq<Frame>)
    ensures DataIn(fs) == Reassembled(fs, None) <==> Whole(fs, false)
  {
    if fs == [] {
    } else if Violates(fs[0]) {
    } else if IsControl(fs[0].opcode) {
      WholeExactly(fs[1..]);
    } else if IsData(fs[0].opcode) {
      var m := (fs[0].opcode, fs[0].payload);
      assert DataIn(fs) == [m] + DataIn(fs[1..]);
      if fs[0].fin {
        WholeExactly(fs[1..]);
        SameHead(m, DataIn(fs[1..]), Reassembled(fs[1..], None));
      } else {
        BegunExactly(fs[1..], fs[0].opcode, fs[0].payload);
      }
    }
  }

  lemma SameHead(m: (byte, Bytes), a: seq<(byte, Bytes)>, b: seq<(byte, Bytes)>)
    ensures [m] + a == [m] + b <==> a == b
  {
    assert ([m] + a)[1..] == a && ([m] + b)[1..] == b;
  }

  lemma BegunStep(fs: seq<Frame>, op: byte, sofar: Bytes)
    ensures var r := Reassembled(fs, Some((op, sofar)));
      if fs == [] || Violates(fs[0]) || IsData(fs[0].opcode) then r == [] && !Whole(fs, true)
      else
        var grown := (op, sofar + fs[0].payload);
        && DataIn(fs) == DataIn(fs[1..])
        && if IsControl(fs[0].opcode) then
             r == Reassembled(fs[1..], Some((op, sofar))) && (Whole(fs, true) <==> Whole(fs[1..], true))
           else
             && r == (if fs[0].fin then [grown] + Reassembled(fs[1..], None) else Reassembled(fs[1..], Some(grown)))
             && (Whole(fs, true) <==> fs[0].payload == [] && Whole(fs[1..], !fs[0].fin))
  {
  }

  lemma LongerHead(m: (byte, Bytes), a: seq<(byte, Bytes)>, r: seq<(byte, Bytes)>)
    requires r == [] || |r[0].1| > |m.1|
    ensures [m] + a != r
  {
    assert ([m] + a)[0] == m;
  }

  lemma {:induction false} BegunExactly(fs: seq<Frame>, op: byte, sofar: Bytes)
    ensures [(op, sofar)] + DataIn(fs) == Reassembled(fs, Some((op, sofar))) <==> Whole(fs, true)
  {
    hide DataIn, Reassembled, Whole, Violates;
    BegunStep(fs, op, sofar);
    if fs == [] || Violates(fs[0]) || IsData(fs[0].opcode) {
      assert ([(op, sofar)] + DataIn(fs)) != [];
    } else if IsControl(fs[0].opcode) {
      BegunExactly(fs[1..], op, sofar);
    } else if fs[0].payload != [] {
      PartGrows(fs[1..], op, sofar + fs[0].payload);
      LongerHead((op, sofar), DataIn(fs), Reassembled(fs, Some((op, sofar))));
    } else {
      assert sofar + fs[0].payload == sofar;
      if fs[0].fin {
        WholeExactly(fs[1..]);
        SameHead((op, sofar), DataIn(fs[1..]), Reassembled(fs[1..], None));
      } else {
        BegunExactly(fs[1..], op, sofar);
      }
    }
  }

  /** The read loop returns every frame with a data opcode as a message of its own. So the messages it
      returns are those of RFC 6455 exactly when the frames up to the first close frame are Whole. */
  lemma MessagesAreWholeExactly(s: Bytes, room: nat)
    requires room >= |s|
    ensures var heard := UpToClose(DecodeAll(s));
      ReadAll(Parse(s), room).messages == Reassembled(heard, None) <==> Whole(heard, false)
  {
    ReadLoopIsComplete(s, room);
    WholeExactly(UpToClose(DecodeAll(s)));
  }

  /** Unfragmented input is Whole. */
  lemma {:induction false} UnfragmentedIsWhole(fs: seq<Frame>)
    requires forall f :: f in fs ==> f.fin && !Violates(f) && (IsData(f.opcode) || IsControl(f.opcode))
    ensures Whole(fs, false)
  {
    if fs == [] {
    } else {
      assert fs[0] in fs;
      UnfragmentedIsWhole(fs[1..]);
    }
  }

  /** A text message in two fragments is returned as its first fragment. */
  lemma FirstFragmentReturned(a: Bytes, b: Bytes, room: nat)
    requires |a| <= MAX_FRAME_SIZE && 0 < |b| <= MAX_FRAME_SIZE
    requires room >= |EncodeAll(Fragments(a, b))|
    ensures ReadAll(Parse(EncodeAll(Fragments(a, b))), room).messages == [(OP_TEXT, a)]
    ensures Reassembled(Fragments(a, b), None) == [(OP_TEXT, a + b)]
  {
    hide Decode, Encode, EncodeAll, Parse, ReadAll;
    DecodeAllEncodeAll(Fragments(a, b));
    ReadLoopIsComplete(EncodeAll(Fragments(a, b)), room);
    FragmentsHeard(a, b);
  }

  lemma FragmentsHeard(a: Bytes, b: Bytes)
    ensures UpToClose(Fragments(a, b)) == Fragments(a, b) && DataIn(Fragments(a, b)) == [(OP_TEXT, a)]
    ensures Reassembled(Fragments(a, b), None) == [(OP_TEXT, a + b)]
  {
    var fs := Fragments(a, b);
    assert fs[1..] == [fs[1]] && fs[1..][1..] == [];
    assert UpToClose(fs[1..]) == [fs[1]] + UpToClose([]);
    assert DataIn(fs[1..]) == DataIn([]);
    assert Reassembled(fs[1..], Some((OP_TEXT, a))) == [(OP_TEXT, a + b)] + Reassembled([], None);
  }

  function Fragments(a: Bytes, b: Bytes): seq<Frame> {
    [Frame(false, OP_TEXT, false, NO_KEY, a), Frame(true, OP_CONTINUATION, false, NO_KEY, b)]
  }

  // ----- Pongs -----

  lemma {:induction false} ScanIsData(i: Input, open: bool, room: nat)
    ensures var r := ScanMessage(i, open, room).outcome; r.Data? ==> IsData(r.op)
  {
    if i.End? {
    } else if i.frame.opcode == OP_PING && open && PongSize(i.frame.payload) <= room {
      ScanIsData(i.later, open, room - PongSize(i.frame.payload));
    } else {
      ScanIsData(i.later, open, room);
    }
  }

  /** ReadMessage never reports a pong, or anything else but text and binary. */
  lemma {:induction false} MessagesAreData(i: Input, room: nat)
    ensures forall m :: m in ReadAll(i, room).messages ==> m.0 == 0x1 || m.0 == 0x2
    decreases i
  {
    ScanIsData(i, true, room);
    ScanShrinks(i, true, room);
    var r := ScanMessage(i, true, room);
    if r.outcome.Data? {
      MessagesAreData(r.left, Max(0, room - PongsSize(r.pongs)));
    }
  }

  // ----- The methods of conn.go and ping.go -----

  class Conn {
    const reader: Reader
    const writer: Writer
    var closed: bool
    var socketCloses: nat

    constructor (reader: Reader, writer: Writer)
      ensures this.reader == reader && this.writer == writer && !closed && socketCloses == 0
    {
      this.reader, this.writer := reader, writer;
      closed, socketCloses := false, 0;
    }

    /** The connection as the step system sees it between calls. */
    ghost function View(): Sys
      reads this, writer
    {
      Sys(closed, writer.sent, 0, socketCloses)
    }

    /** The peer takes every byte the call writes. */
    ghost predicate Fits(call: Call)
      reads writer
    {
      |EncodeOpt(FrameFor(call))| <= writer.room
    }

    /** After a write that failed the peer has the first part of the frame. */
    ghost function CutShort(call: Call): Sys
      requires !Fits(call)
      reads this, writer
    {
      View().(wire := writer.sent + EncodeOpt(FrameFor(call))[..writer.room])
    }

    method WriteMessage(op: byte, data: Bytes) returns (ok: bool)
      modifies writer
      ensures ok == (!closed && |Encode(Frame(true, op, false, NO_KEY, data))| <= old(writer.room))
      ensures ok ==> writer.sent == old(writer.sent) + Encode(Frame(true, op, false, NO_KEY, data))
      ensures old(closed) ==> View() == old(View()) && writer.room == old(writer.room)
      ensures ok ==> View() == Step(old(View()), Locked(Message(op, data)))
      ensures !ok && !closed ==> View() == old(CutShort(Message(op, data)))
    {
      if closed {
        return false;
      }
      ok := WriteFrame(writer, Frame(true, op, false, NO_KEY, data));
    }

    method WritePong(data: Bytes) returns (ok: bool)
      modifies writer
      ensures ok == (!closed && |Encode(Frame(true, 0xA, false, NO_KEY, data))| <= old(writer.room))
      ensures ok ==> writer.sent == old(writer.sent) + Encode(Frame(true, 0xA, false, NO_KEY, data))
      ensures old(closed) ==> View() == old(View())
      ensures ok ==> View() == Step(old(View()), Locked(Pong(data))) && writer.room == old(writer.room) - PongSize(data)
      ensures !ok && !closed ==> View() == old(CutShort(Pong(data)))
    {
      if closed {
        return false;
      }
      ok := WriteFrame(writer, Frame(true, OP_PONG, false, NO_KEY, data));
    }

    /** On a closed connection WritePing reports success without sending. */
    method WritePing() returns (ok: bool)
      modifies writer
      ensures ok == (closed || |Encode(Frame(true, 0x9, false, NO_KEY, []))| <= old(writer.room))
      ensures ok ==>
        writer.sent == old(writer.sent) + if closed then [] else Encode(Frame(true, 0x9, false, NO_KEY, []))
      ensures ok ==> View() == Step(old(View()), Locked(Ping))
      ensures !ok ==> View() == old(CutShort(Ping))
    {
      if closed {
        return true;
      }
      ok := WriteFrame(writer, Frame(true, OP_PING, false, NO_KEY, []));
    }

    /** The close frame's own write error is ignored, and the socket is closed all the same. */
    method WriteClose(code: nat, reason: Bytes)
      requires code < 65536
      modifies this, writer
      ensures closed && socketCloses == old(socketCloses) + (if old(closed) then 0 else 1)
      ensures old(closed) ==> writer.sent == old(writer.sent)
      ensures !old(closed) ==>
        var frame := Encode(Frame(true, 0x8, false, NO_KEY, [code / 256, code % 256] + reason));
        writer.sent == old(writer.sent) + if |frame| <= old(writer.room) then frame else frame[..old(writer.room)]
      ensures View() ==
        if old(closed) || old(Fits(CloseFrame(code, reason))) then Step(old(View()), Locked(CloseFrame(code, reason)))
        else old(CutShort(CloseFrame(code, reason))).(closed := true, socketCloses := old(socketCloses) + 1)
    {
      if closed {
        return;
      }
      closed := true;
      var payload: Bytes := [code / 256, code % 256] + reason;
      assert code / 256 % 256 == code / 256;
      var ok := WriteFrame(writer, Frame(true, OP_CLOSE, false, NO_KEY, payload));
      socketCloses := socketCloses + 1;
    }

    method Close()
      modifies this
      ensures closed && socketCloses == old(socketCloses) + (if old(closed) then 0 else 1)
      ensures View() == (if old(closed) then old(View()) else Step(Step(old(View()), Locked(Call.Close)), CloseSocket))
    {
      if closed {
        return;
      }
      closed := true;
      socketCloses := socketCloses + 1;
    }

    /** ReadFrame on the connection's reader, told in terms of the parsed input. */
    method NextFrame() returns (f: Result<Frame, FrameError>)
      modifies reader
      ensures var i := Parse(old(reader.rest));
        if f.Err? then i == End(f.error)
        else i.More? && i.frame == f.value && i.later == Parse(reader.rest) && |reader.rest| < |old(reader.rest)|
    {
      f := ReadFrame(reader);
    }

    /** One round of the loop of ReadMessage: read a frame, and either return or go on, perhaps after
        a pong. */
    method ReadRound() returns (done: Option<Outcome>, ghost pongs: seq<Bytes>)
      requires reader as object != writer
      modifies reader, writer
      ensures var goal := ScanMessage(Parse(old(reader.rest)), !closed, old(writer.room));
        match done
        case Some(outcome) =>
          && pongs == [] && Resumes(goal, [], Scan(outcome, [], goal.left, goal.used))
          && (!outcome.PongFailed? ==> writer.sent == old(writer.sent) && writer.room == old(writer.room))
          && (outcome.PongFailed? ==>
                writer.sent == old(writer.sent) + PartOfPong(outcome.payload, !closed, old(writer.room)))
          && (!outcome.ReadFailed? ==> Parse(reader.rest) == goal.left)
        case None =>
          && Resumes(goal, pongs, ScanMessage(Parse(reader.rest), !closed, writer.room))
          && |pongs| <= 1 && writer.room == old(writer.room) - PongsSize(pongs)
          && writer.sent == old(writer.sent) + (if pongs == [] then [] else Encode(PongFrame(pongs[0])))
          && |reader.rest| < |old(reader.rest)|
    {
      hide Decode, Encode;
      pongs := [];
      var f := NextFrame();
      if f.Err? {
        return Some(ReadFailed(f.error)), [];
      }
      if f.value.opcode == OP_CLOSE {
        return Some(PeerClosed(f.value.payload)), [];
      } else if f.value.opcode == OP_PING {
        var ok := WritePong(f.value.payload);
        if !ok {
          return Some(PongFailed(f.value.payload)), [];
        }
        pongs := [f.value.payload];
      } else if f.value.opcode == OP_TEXT || f.value.opcode == OP_BINARY {
        return Some(Data(f.value.opcode, f.value.payload)), [];
      }
      return None, pongs;
    }

    /** ReadMessage returns what ScanMessage says, sends the pongs it says, and takes the frames it
        says off the input. */
    method ReadMessage() returns (outcome: Outcome)
      requires reader as object != writer
      modifies reader, writer
      ensures var r := ScanMessage(Parse(old(reader.rest)), !closed, old(writer.room));
        && outcome == r.outcome
        && (!outcome.PongFailed? ==>
              && writer.sent == old(writer.sent) + EncodeAll(PongFrames(r.pongs))
              && writer.room == old(writer.room) - PongsSize(r.pongs))
        && (outcome.PongFailed? ==>
              && PongsSize(r.pongs) <= old(writer.room)
              && writer.sent == old(writer.sent) + EncodeAll(PongFrames(r.pongs))
                   + PartOfPong(outcome.payload, !closed, old(writer.room) - PongsSize(r.pongs)))
        && (!outcome.ReadFailed? ==> Parse(reader.rest) == r.left)
    {
      hide Decode, Encode, ScanMessage;
      ghost var goal := ScanMessage(Parse(reader.rest), !closed, writer.room);
      ghost var sofar: seq<Bytes> := [];
      while true
        invariant Resumes(goal, sofar, ScanMessage(Parse(reader.rest), !closed, writer.room))
        invariant writer.sent == old(writer.sent) + EncodeAll(PongFrames(sofar))
        invariant writer.room == old(writer.room) - PongsSize(sofar)
        decreases |reader.rest|
      {
        ghost var todo := ScanMessage(Parse(reader.rest), !closed, writer.room);
        var done, pongs := ReadRound();
        if done.Some? {
          assert sofar + [] == sofar;
          return done.value;
        }
        ResumesTwice(goal, sofar, todo, pongs, ScanMessage(Parse(reader.rest), !closed, writer.room));
        PongsSent(sofar, pongs);
        sofar := sofar + pongs;
      }
    }

    /** The loop of readLoop in stream.go, which calls ReadMessage until it returns an error, here with the
        messages it is handed. With a peer that takes the pongs, the messages are the text and binary frames
        before the first close frame or undecodable input, and the bytes sent are exactly one pong per ping
        among them, with its payload, in order. */
    method ReadLoop() returns (messages: seq<(byte, Bytes)>, end: Outcome)
      requires reader as object != writer && !closed && |reader.rest| <= writer.room
      modifies reader, writer
      ensures var heard := UpToClose(DecodeAll(old(reader.rest)));
        && messages == DataIn(heard) && end == Ending(Parse(old(reader.rest)))
        && old(writer.sent) <= writer.sent && ArePongs(writer.sent[|old(writer.sent)|..], PingsIn(heard))
    {
      hide Decode, Encode, ScanMessage, ReadAll, ArePongs, DecodeAll, UpToClose, DataIn, PingsIn, EncodeAll, PongFrames,
        PongsSize, Parse, Total, PongsFit, Continues, Ending, Frames;
      ghost var s := reader.rest;
      ghost var goal := ReadAll(Parse(s), writer.room);
      ReadLoopIsComplete(s, writer.room);
      ParsePongsFit(s);
      ParseIsDecodeAll(s);
      HeardFits(s);
      PongsOnWire(PingsIn(UpToClose(DecodeAll(s))));
      messages := [];
      ghost var pongs: seq<Bytes> := [];
      ContinuesFrom(goal);
      NoPongsYet();
      while true
        invariant PongsFit(Parse(reader.rest)) && writer.room >= Total(Parse(reader.rest))
        invariant Continues(goal, messages, pongs, ReadAll(Parse(reader.rest), writer.room))
        invariant writer.sent == old(writer.sent) + EncodeAll(PongFrames(pongs))
        decreases Parse(reader.rest)
      {
        ghost var r := ScanMessage(Parse(reader.rest), true, writer.room);
        ContinuesNext(goal, messages, pongs, Parse(reader.rest), writer.room);
        PongsAppend(pongs, r.pongs);
        var outcome := ReadMessage();
        pongs := pongs + r.pongs;
        if !outcome.Data? {
          assert writer.sent[|old(writer.sent)|..] == EncodeAll(PongFrames(pongs));
          return messages, outcome;
        }
        messages := messages + [(outcome.op, outcome.payload)];
      }
    }
  }

  /** What a pong that fails leaves on the wire: nothing on a closed connection, and otherwise the first
      part of its frame. */
  function PartOfPong(data: Bytes, open: bool, room: nat): Bytes {
    if open && room < PongSize(data) then Encode(PongFrame(data))[..room] else []
  }

  /** What has been heard so far and what is still to be heard make up the goal. */
  ghost predicate Continues(goal: Session, messages: seq<(byte, Bytes)>, pongs: seq<Bytes>, rest: Session) {
    goal.messages == messages + rest.messages && goal.pongs == pongs + rest.pongs && goal.end == rest.end
  }

  lemma ContinuesFrom(goal: Session)
    ensures Continues(goal, [], [], goal)
  {
  }

  lemma NoPongsYet()
    ensures EncodeAll(PongFrames([])) == []
  {
  }

  /** One ReadMessage of a session whose pongs all get through. */
  lemma ReadAllStep(i: Input, room: nat)
    requires PongsFit(i) && room >= Total(i)
    ensures var r := ScanMessage(i, true, room);
      && PongsSize(r.pongs) <= room && !r.outcome.PongFailed?
      && if r.outcome.Data? then
           var left := room - PongsSize(r.pongs);
           var later := ReadAll(r.left, left);
           && r.left < i && PongsFit(r.left) && left >= Total(r.left)
           && ReadAll(i, room) ==
                Session([(r.outcome.op, r.outcome.payload)] + later.messages, r.pongs + later.pongs, later.end)
         else ReadAll(i, room) == Session([], r.pongs, r.outcome)
  {
    hide ScanMessage, DataIn, PingsIn, Heard, PongsSize;
    ScanHears(i, room);
    ScanShrinks(i, true, room);
    EndingIsNoPong(i);
  }

  lemma ContinuesNext(goal: Session, messages: seq<(byte, Bytes)>, pongs: seq<Bytes>, i: Input, room: nat)
    requires PongsFit(i) && room >= Total(i) && Continues(goal, messages, pongs, ReadAll(i, room))
    ensures var r := ScanMessage(i, true, room);
      && PongsSize(r.pongs) <= room && !r.outcome.PongFailed?
      && (r.outcome.Data? ==>
            && r.left < i && PongsFit(r.left) && room - PongsSize(r.pongs) >= Total(r.left)
            && Continues(goal, messages + [(r.outcome.op, r.outcome.payload)], pongs + r.pongs,
                         ReadAll(r.left, room - PongsSize(r.pongs))))
      && (!r.outcome.Data? ==> goal == Session(messages, pongs + r.pongs, r.outcome))
  {
    hide ScanMessage, ReadAll, PongsSize, PongsFit, Total, Continues;
    ReadAllStep(i, room);
    var r := ScanMessage(i, true, room);
    if r.outcome.Data? {
      var m, later := (r.outcome.op, r.outcome.payload), ReadAll(r.left, room - PongsSize(r.pongs));
      ContinuesOn(goal, messages, pongs, [m], r.pongs, later);
    } else {
      var none: seq<(byte, Bytes)> := [];
      assert none + none == none && r.pongs + [] == r.pongs && messages + none == messages;
      ContinuesOn(goal, messages, pongs, none, r.pongs, Session([], [], r.outcome));
      ContinuesToEnd(goal, messages + [], pongs + r.pongs, r.outcome);
    }
  }

  lemma ContinuesOn(goal: Session, messages: seq<(byte, Bytes)>, pongs: seq<Bytes>,
                    more: seq<(byte, Bytes)>, pongsMore: seq<Bytes>, rest: Session)
    requires Continues(goal, messages, pongs, Session(more + rest.messages, pongsMore + rest.pongs, rest.end))
    ensures Continues(goal, messages + more, pongs + pongsMore, rest)
  {
    assert messages + (more + rest.messages) == messages + more + rest.messages;
    assert pongs + (pongsMore + rest.pongs) == pongs + pongsMore + rest.pongs;
  }

  lemma ContinuesToEnd(goal: Session, messages: seq<(byte, Bytes)>, pongs: seq<Bytes>, end: Outcome)
    requires Continues(goal, messages, pongs, Session([], [], end))
    ensures goal == Session(messages, pongs, end)
  {
  }

  lemma {:induction false} EndingIsNoPong(i: Input)
    ensures !Ending(i).PongFailed?
  {
    if i.End? || i.frame.opcode == OP_CLOSE {
    } else {
      EndingIsNoPong(i.later);
    }
  }

  lemma {:induction false} PongsAppend(a: seq<Bytes>, b: seq<Bytes>)
    ensures EncodeAll(PongFrames(a + b)) == EncodeAll(PongFrames(a)) + EncodeAll(PongFrames(b))
  {
    hide EncodeAll, PongFrames, Encode;
    NoPongsYet();
    if b == [] {
      assert a + b == a;
    } else {
      var n := |b| - 1;
      PongsAppend(a, b[..n]);
      PongSent(a + b[..n], b[n]);
      PongSent(b[..n], b[n]);
      assert a + b == a + b[..n] + [b[n]] && b == b[..n] + [b[n]];
    }
  }

  /** The whole call ends as the rest of it does, after the pongs sent so far. */
  ghost predicate Resumes(goal: Scan, sofar: seq<Bytes>, rest: Scan) {
    rest.outcome == goal.outcome && rest.left == goal.left && goal.pongs == sofar + rest.pongs
  }

  lemma ResumesTwice(goal: Scan, a: seq<Bytes>, mid: Scan, b: seq<Bytes>, rest: Scan)
    requires Resumes(goal, a, mid) && Resumes(mid, b, rest)
    ensures Resumes(goal, a + b, rest)
  {
    assert a + (b + rest.pongs) == a + b + rest.pongs;
  }

  lemma PongsSent(sofar: seq<Bytes>, pongs: seq<Bytes>)
    requires |pongs| <= 1
    ensures EncodeAll(PongFrames(sofar + pongs)) ==
      EncodeAll(PongFrames(sofar)) + if pongs == [] then [] else Encode(PongFrame(pongs[0]))
    ensures PongsSize(sofar + pongs) == PongsSize(sofar) + PongsSize(pongs)
  {
    if pongs == [] {
      assert sofar + pongs == sofar;
    } else {
      PongSent(sofar, pongs[0]);
      assert [pongs[0]] == pongs;
    }
  }

  lemma {:induction false} PongSent(pongs: seq<Bytes>, data: Bytes)
    ensures EncodeAll(PongFrames(pongs + [data])) == EncodeAll(PongFrames(pongs)) + Encode(PongFrame(data))
    ensures PongsSize(pongs + [data]) == PongsSize(pongs) + PongSize(data)
  {
    if pongs == [] {
      assert [data][1..] == [];
      assert [PongFrame(data)][1..] == [];
    } else {
      assert (pongs + [data])[1..] == pongs[1..] + [data];
      PongSent(pongs[1..], data);
      assert PongFrames(pongs + [data])[1..] == PongFrames(pongs[1..] + [data]);
      assert PongFrames(pongs)[1..] == PongFrames(pongs[1..]);
    }
  }
}
