/** WebSocket frames at the byte level: pkg/ws/frame.go, which implements sections
    5.2 and 5.3 of RFC 6455. Bytes are integers below 256; a test of a header bit is
    written as the arithmetic it amounts to. */
module WsFrame {
  import opened Prelude

  type byte = b: int | 0 <= b < 256

  type Bytes = seq<byte>

  type Key = k: Bytes | |k| == 4 witness [0, 0, 0, 0]

  const NO_KEY: Key := [0, 0, 0, 0]

  const MAX_FRAME_SIZE := 65536

  const OP_CONTINUATION: byte := 0
  const OP_TEXT: byte := 1
  const OP_BINARY: byte := 2
  const OP_CLOSE: byte := 8
  const OP_PING: byte := 9
  const OP_PONG: byte := 10

  datatype Frame = Frame(fin: bool, opcode: byte, mask: bool, key: Key, payload: Bytes)

  /** What ReadFrame was reading when the input ended, or the length it refused. */
  datatype FrameError = HeaderCut | LengthCut | TooLarge(length: nat) | KeyCut | PayloadCut

  // ----- Exclusive or and big-endian numbers -----

  /** Exclusive or, bit by bit from the lowest. */
  function XorBits(a: nat, b: nat, bits: nat): (r: nat)
    decreases bits
  {
    if bits == 0 then 0 else (a % 2 + b % 2) % 2 + 2 * XorBits(a / 2, b / 2, bits - 1)
  }

  function Pow2(n: nat): nat {
    if n == 0 then 1 else 2 * Pow2(n - 1)
  }

  lemma {:induction false} XorBound(a: nat, b: nat, bits: nat)
    ensures XorBits(a, b, bits) < Pow2(bits)
  {
    if bits == 0 {
    } else {
      XorBound(a / 2, b / 2, bits - 1);
    }
  }

  lemma Halves(low: nat, high: nat)
    requires low < 2
    ensures (low + 2 * high) % 2 == low && (low + 2 * high) / 2 == high
  {
  }

  lemma FlipTwice(a: nat, b: nat)
    requires a < 2 && b < 2
    ensures ((a + b) % 2 + b) % 2 == a
  {
  }

  /** Exclusive or with the same value twice changes nothing. */
  lemma {:induction false} XorTwice(a: nat, b: nat, bits: nat)
    requires a < Pow2(bits)
    ensures XorBits(XorBits(a, b, bits), b, bits) == a
  {
    if bits == 0 {
    } else {
      var low, high := (a % 2 + b % 2) % 2, XorBits(a / 2, b / 2, bits - 1);
      Halves(low, high);
      FlipTwice(a % 2, b % 2);
      assert XorBits(low + 2 * high, b, bits) == (low + b % 2) % 2 + 2 * XorBits(high, b / 2, bits - 1);
      XorTwice(a / 2, b / 2, bits - 1);
    }
  }

  /** Exclusive or changes a value exactly when the other value is not zero. */
  lemma {:induction false} XorFixes(a: nat, b: nat, bits: nat)
    requires a < Pow2(bits) && b < Pow2(bits)
    ensures XorBits(a, b, bits) == a <==> b == 0
  {
    if bits == 0 {
    } else {
      XorFixes(a / 2, b / 2, bits - 1);
    }
  }

  predicate Bit(x: nat, i: nat) {
    if i == 0 then x % 2 == 1 else Bit(x / 2, i - 1)
  }

  /** Bit for bit, the result differs from one argument where the other has a one. */
  lemma {:induction false} XorIsBitwise(a: nat, b: nat, bits: nat, i: nat)
    requires i < bits
    ensures Bit(XorBits(a, b, bits), i) <==> (Bit(a, i) != Bit(b, i))
    decreases i
  {
    Halves((a % 2 + b % 2) % 2, XorBits(a / 2, b / 2, bits - 1));
    if i == 0 {
    } else {
      XorIsBitwise(a / 2, b / 2, bits - 1, i - 1);
    }
  }

  function Xor(a: byte, b: byte): byte {
    assert Pow2(8) == 2 * (2 * (2 * (2 * (2 * (2 * (2 * (2 * Pow2(0))))))));
    XorBound(a, b, 8);
    XorBits(a, b, 8)
  }

  /** The masking of section 5.3 of RFC 6455. */
  function Masked(payload: Bytes, key: Key): (r: Bytes)
    ensures |r| == |payload|
  {
    seq(|payload|, i requires 0 <= i < |payload| => Xor(payload[i], key[i % 4]))
  }

  lemma MaskTwice(payload: Bytes, key: Key)
    ensures Masked(Masked(payload, key), key) == payload
  {
    assert Pow2(8) == 256 by {
      assert Pow2(8) == 2 * (2 * (2 * (2 * (2 * (2 * (2 * (2 * Pow2(0))))))));
    }
    forall i | 0 <= i < |payload| ensures Masked(Masked(payload, key), key)[i] == payload[i] {
      XorTwice(payload[i], key[i % 4], 8);
    }
  }

  lemma MaskFixes(payload: Bytes, key: Key)
    ensures Masked(payload, key) == payload <==> forall i :: 0 <= i < |payload| ==> key[i % 4] == 0
  {
    assert Pow2(8) == 256 by {
      assert Pow2(8) == 2 * (2 * (2 * (2 * (2 * (2 * (2 * (2 * Pow2(0))))))));
    }
    forall i | 0 <= i < |payload| ensures Masked(payload, key)[i] == payload[i] <==> key[i % 4] == 0 {
      XorFixes(payload[i], key[i % 4], 8);
    }
  }

  function BigEndian(bs: Bytes): nat {
    if bs == [] then 0 else 256 * BigEndian(bs[..|bs| - 1]) + bs[|bs| - 1]
  }

  /** The low k bytes of n, most significant first. */
  function Digits(n: nat, k: nat): (r: Bytes)
    ensures |r| == k
  {
    if k == 0 then [] else Digits(n / 256, k - 1) + [n % 256]
  }

  function Pow256(k: nat): nat {
    if k == 0 then 1 else 256 * Pow256(k - 1)
  }

  lemma {:induction false} DigitsRoundTrip(n: nat, k: nat)
    requires n < Pow256(k)
    ensures BigEndian(Digits(n, k)) == n
  {
    if k == 0 {
    } else {
      DigitsRoundTrip(n / 256, k - 1);
      assert Digits(n, k)[..k - 1] == Digits(n / 256, k - 1);
    }
  }

  lemma Pow256Values()
    ensures Pow256(2) == 65536 && Pow256(8) == 0x1_0000_0000_0000_0000
  {
    assert Pow256(2) == 256 * (256 * Pow256(0));
    assert Pow256(8) == 256 * (256 * (256 * (256 * (256 * (256 * Pow256(2))))));
  }

  // ----- Decoding -----

  datatype Decoded = Decoded(frame: Frame, size: nat)

  function ExtSize(len7: nat): nat {
    if len7 == 126 then 2 else if len7 == 127 then 8 else 0
  }

  function KeySize(b1: byte): nat {
    if b1 >= 128 then 4 else 0
  }

  /** The payload length announced by the bytes after the first two. */
  function Length(s: Bytes): nat
    requires |s| >= 2 && |s| >= 2 + ExtSize(s[1] % 128)
  {
    var ext := ExtSize(s[1] % 128);
    if ext == 0 then s[1] % 128 else BigEndian(s[2..2 + ext])
  }

  /** Everything before the key: how long the payload is and where it starts. */
  datatype Head = Head(length: nat, masked: bool, start: nat)

  function ReadHead(s: Bytes): Result<Head, FrameError> {
    if |s| < 2 then Err(HeaderCut)
    else
      var ext := ExtSize(s[1] % 128);
      if |s| < 2 + ext then Err(LengthCut)
      else if Length(s) > MAX_FRAME_SIZE then Err(TooLarge(Length(s)))
      else Ok(Head(Length(s), s[1] >= 128, 2 + ext + KeySize(s[1])))
  }

  /** The frame whose head has been read, once all of its bytes are there. */
  function Body(s: Bytes, h: Head): Decoded
    requires 2 + KeySize(if h.masked then 128 else 0) <= h.start && h.start + h.length <= |s|
  {
    var body := s[h.start..h.start + h.length];
    var key: Key := if h.masked then s[h.start - 4..h.start] else NO_KEY;
    Decoded(Frame(s[0] >= 128, s[0] % 16, h.masked, key, if h.masked then Masked(body, key) else body),
            h.start + h.length)
  }

  /** The frame at the start of s, and how many bytes it takes up. */
  function Decode(s: Bytes): (r: Result<Decoded, FrameError>)
    ensures r.Ok? ==> 2 <= r.value.size <= |s|
  {
    match ReadHead(s)
    case Err(e) => Err(e)
    case Ok(h) =>
      if |s| < h.start then Err(KeyCut)
      else if |s| < h.start + h.length then Err(PayloadCut)
      else Ok(Body(s, h))
  }

  // ----- Encoding -----

  function FirstByte(f: Frame): byte {
    if f.fin && f.opcode < 128 then f.opcode + 128 else f.opcode
  }

  function LengthBytes(n: nat): (r: Bytes)
    ensures r != []
  {
    if n <= 125 then [n]
    else if n <= 65535 then [126] + Digits(n, 2)
    else [127] + Digits(n, 8)
  }

  /** The bytes WriteFrame sends: the mask flag and key of the frame are not written. */
  function Encode(f: Frame): Bytes {
    [FirstByte(f)] + LengthBytes(|f.payload|) + f.payload
  }

  /** What a client sends for a frame according to section 5.3 of RFC 6455: the mask bit,
      the key, and the masked payload. */
  function EncodeMasked(f: Frame, key: Key): Bytes {
    MaskedHead(FirstByte(f), LengthBytes(|f.payload|)) + key + Masked(f.payload, key)
  }

  function MaskedHead(first: byte, len: Bytes): (r: Bytes)
    requires len != []
    ensures |r| == 1 + |len| && r[0] == first && r[1] == len[0] % 128 + 128 && r[2..] == len[1..]
  {
    [first] + [len[0] % 128 + 128] + len[1..]
  }

  /** How a frame arrives: the sender's flag bits merged into the first byte, the four low
      opcode bits, and no mask. */
  function Arrived(f: Frame): Frame {
    Frame(f.fin || f.opcode >= 128, f.opcode % 16, false, NO_KEY, f.payload)
  }

  lemma LengthBytesHead(n: nat)
    ensures var b1 := LengthBytes(n)[0];
      b1 < 128 && 1 + ExtSize(b1) == |LengthBytes(n)| && ExtSize(b1 % 128) == ExtSize(b1)
  {
  }

  /** The header of a frame of length n, with or without the mask bit. */
  lemma HeadOfLength(n: nat, masked: bool, s: Bytes)
    requires n < Pow256(8) && |s| >= 1 + |LengthBytes(n)|
    requires s[1] == LengthBytes(n)[0] + (if masked then 128 else 0)
    requires s[2..1 + |LengthBytes(n)|] == LengthBytes(n)[1..]
    ensures ReadHead(s) == if n > MAX_FRAME_SIZE then Err(TooLarge(n))
                           else Ok(Head(n, masked, 1 + |LengthBytes(n)| + if masked then 4 else 0))
  {
    LengthBytesHead(n);
    var len := LengthBytes(n);
    assert s[1] % 128 == len[0];
    assert Length(s) == n by {
      if n > 125 {
        Pow256Values();
        var k := if n <= 65535 then 2 else 8;
        DigitsRoundTrip(n, k);
        assert len[1..] == Digits(n, k);
      }
    }
  }

  /** Reading back what was written, whatever follows it on the wire. */
  lemma DecodeEncode(f: Frame, rest: Bytes)
    requires |f.payload| < Pow256(8)
    ensures Decode(Encode(f) + rest) ==
      if |f.payload| > MAX_FRAME_SIZE then Err(TooLarge(|f.payload|)) else Ok(Decoded(Arrived(f), |Encode(f)|))
  {
    var n, len, s := |f.payload|, LengthBytes(|f.payload|), Encode(f) + rest;
    assert s[2..1 + |len|] == len[1..];
    HeadOfLength(n, false, s);
    PlainBody([FirstByte(f)] + len, f.payload, rest);
    assert FirstByte(f) % 16 == f.opcode % 16;
  }

  lemma PlainBody(before: Bytes, body: Bytes, rest: Bytes)
    requires |before| >= 2
    ensures Body(before + body + rest, Head(|body|, false, |before|)) ==
      Decoded(Frame(before[0] >= 128, before[0] % 16, false, NO_KEY, body), |before| + |body|)
  {
    Middle(before, body, rest);
    assert (before + body + rest)[0] == before[0];
  }

  /** The frames that come back exactly as they were written are the unmasked ones with a
      proper opcode and a payload within the limit. */
  lemma RoundTripExactly(f: Frame, rest: Bytes)
    requires |f.payload| < Pow256(8)
    ensures Decode(Encode(f) + rest) == Ok(Decoded(f, |Encode(f)|)) <==> Plain(f)
  {
    DecodeEncode(f, rest);
  }

  predicate Plain(f: Frame) {
    !f.mask && f.key == NO_KEY && f.opcode < 16 && |f.payload| <= MAX_FRAME_SIZE
  }

  /** What a client sends masked is read unmasked. */
  lemma DecodeMasked(f: Frame, key: Key, rest: Bytes)
    requires |f.payload| <= MAX_FRAME_SIZE && f.opcode < 16
    ensures Decode(EncodeMasked(f, key) + rest) ==
      Ok(Decoded(Frame(f.fin, f.opcode, true, key, f.payload), |EncodeMasked(f, key)|))
  {
    var n, len, s := |f.payload|, LengthBytes(|f.payload|), EncodeMasked(f, key) + rest;
    LengthBytesHead(n);
    Pow256Values();
    assert s[1] == len[0] + 128;
    assert s[2..1 + |len|] == len[1..];
    HeadOfLength(n, true, s);
    assert Body(s, Head(n, true, 1 + |len| + 4)) ==
        Decoded(Frame(f.fin, f.opcode, true, key, f.payload), 1 + |len| + 4 + n) by {
      MaskedBody(f, key, rest);
    }
  }

  lemma MaskedBody(f: Frame, key: Key, rest: Bytes)
    requires f.opcode < 16
    ensures var start := 1 + |LengthBytes(|f.payload|)| + 4;
      Body(EncodeMasked(f, key) + rest, Head(|f.payload|, true, start)) ==
        Decoded(Frame(f.fin, f.opcode, true, key, f.payload), start + |f.payload|)
  {
    var before := MaskedHead(FirstByte(f), LengthBytes(|f.payload|));
    RawBody(before, key, Masked(f.payload, key), rest);
    MaskTwice(f.payload, key);
    assert FirstByte(f) % 16 == f.opcode;
  }

  lemma RawBody(before: Bytes, key: Key, m: Bytes, rest: Bytes)
    requires |before| >= 2
    ensures Body(before + key + m + rest, Head(|m|, true, |before| + 4)) ==
      Decoded(Frame(before[0] >= 128, before[0] % 16, true, key, Masked(m, key)), |before| + 4 + |m|)
  {
    var s := before + key + m + rest;
    assert s == before + key + (m + rest);
    Middle(before, key, m + rest);
    Middle(before + key, m, rest);
    assert s[0] == before[0];
  }

  lemma Middle(a: Bytes, b: Bytes, c: Bytes)
    ensures (a + b + c)[|a|..|a| + |b|] == b
  {
  }

  lemma HeadOfPrefix(s: Bytes, t: Bytes)
    requires ReadHead(s).Ok? && 2 + ExtSize(s[1] % 128) <= |t| && t[1] == s[1]
    requires t[2..2 + ExtSize(s[1] % 128)] == s[2..2 + ExtSize(s[1] % 128)]
    ensures ReadHead(t) == ReadHead(s)
  {
  }

  /** What follows a frame does not change how it is decoded. */
  lemma DecodeIgnoresRest(s: Bytes, rest: Bytes)
    requires Decode(s).Ok?
    ensures Decode(s[..Decode(s).value.size] + rest) == Decode(s)
  {
    var h, n := ReadHead(s).value, Decode(s).value.size;
    var t := s[..n] + rest;
    SliceOfPrefix(s, n, rest, 2, 2 + ExtSize(s[1] % 128));
    assert t[0] == s[0] && t[1] == s[1];
    HeadOfPrefix(s, t);
    BodyOfPrefix(s, n, rest, h);
  }

  lemma BodyOfPrefix(s: Bytes, n: nat, rest: Bytes, h: Head)
    requires 2 + KeySize(if h.masked then 128 else 0) <= h.start && h.start + h.length == n <= |s|
    ensures Body(s[..n] + rest, h) == Body(s, h)
  {
    SliceOfPrefix(s, n, rest, h.start, n);
    if h.masked {
      SliceOfPrefix(s, n, rest, h.start - 4, h.start);
    }
  }

  lemma SliceOfPrefix(s: Bytes, n: nat, rest: Bytes, i: nat, j: nat)
    requires i <= j <= n <= |s|
    ensures (s[..n] + rest)[i..j] == s[i..j]
  {
  }

  /** No part of a frame short of its end decodes. */
  lemma DecodeNeedsAll(s: Bytes, k: nat)
    requires Decode(s).Ok? && k < Decode(s).value.size
    ensures Decode(s[..k]).Err?
  {
    var ext := ExtSize(s[1] % 128);
    if k >= 2 + ext {
      assert s[..k][1] == s[1] && s[..k][2..2 + ext] == s[2..2 + ext];
      HeadOfPrefix(s, s[..k]);
    }
  }

  lemma TwoDigits(bs: Bytes)
    requires |bs| == 2
    ensures BigEndian(bs) < 65536
  {
    assert bs[..1] == [bs[0]] && [bs[0]][..0] == [];
    assert BigEndian([bs[0]]) == 256 * BigEndian([]) + bs[0];
    assert BigEndian(bs) == 256 * BigEndian([bs[0]]) + bs[1];
  }

  /** Any accepted input, masked or with a longer length form than needed, re-encodes to no
      more bytes, which decode to the same final flag, opcode and payload. */
  lemma ReencodeIsCanonical(s: Bytes)
    requires Decode(s).Ok?
    ensures var d := Decode(s).value;
      var e := Encode(d.frame);
      |e| <= d.size && Decode(e) == Ok(Decoded(Frame(d.frame.fin, d.frame.opcode, false, NO_KEY, d.frame.payload), |e|))
  {
    var d := Decode(s).value;
    Pow256Values();
    DecodeEncode(d.frame, []);
    assert Encode(d.frame) + [] == Encode(d.frame);
    LengthBytesHead(|d.frame.payload|);
    if ExtSize(s[1] % 128) == 2 {
      TwoDigits(s[2..4]);
    }
  }

  // ----- Streams of frames -----

  function EncodeAll(fs: seq<Frame>): Bytes {
    if fs == [] then [] else Encode(fs[0]) + EncodeAll(fs[1..])
  }

  /** All the frames of s, up to the first that is incomplete or refused. */
  function DecodeAll(s: Bytes): seq<Frame>
    decreases |s|
  {
    match Decode(s)
    case Err(_) => []
    case Ok(d) => [d.frame] + DecodeAll(s[d.size..])
  }

  /** Reading the concatenation of any written frames returns them one by one. */
  lemma {:induction false} DecodeAllEncodeAll(fs: seq<Frame>)
    requires forall f :: f in fs ==> Plain(f)
    ensures DecodeAll(EncodeAll(fs)) == fs
  {
    if fs == [] {
    } else {
      assert Plain(fs[0]);
      var s, rest := EncodeAll(fs), EncodeAll(fs[1..]);
      assert Decode(s) == Ok(Decoded(fs[0], |Encode(fs[0])|)) by {
        Pow256Values();
        RoundTripExactly(fs[0], rest);
      }
      assert s[|Encode(fs[0])|..] == rest;
      DecodeAllEncodeAll(fs[1..]);
    }
  }

  lemma {:induction false} EncodeAllAppend(fs: seq<Frame>, f: Frame)
    ensures EncodeAll(fs + [f]) == EncodeAll(fs) + Encode(f)
  {
    if fs == [] {
      assert [f][1..] == [];
    } else {
      assert (fs + [f])[1..] == fs[1..] + [f];
      EncodeAllAppend(fs[1..], f);
    }
  }

  // ----- The methods of frame.go -----

  /** The input side of a connection: the bytes not read yet. */
  class Reader {
    var rest: Bytes

    constructor (rest: Bytes)
      ensures this.rest == rest
    {
      this.rest := rest;
    }

    /** Fills the whole buffer, or fails and uses up the input. */
    method ReadFull(buf: array<byte>) returns (ok: bool)
      modifies this, buf
      ensures ok == (|old(rest)| >= buf.Length)
      ensures ok ==> buf[..] == old(rest)[..buf.Length] && rest == old(rest)[buf.Length..]
      ensures !ok ==> rest == []
    {
      if |rest| < buf.Length {
        rest := [];
        return false;
      }
      forall i | 0 <= i < buf.Length {
        buf[i] := rest[i];
      }
      rest := rest[buf.Length..];
      return true;
    }
  }

  /** The output side: the bytes sent, and how many more the peer takes before writing fails. */
  class Writer {
    var sent: Bytes
    var room: nat

    constructor (room: nat)
      ensures sent == [] && this.room == room
    {
      sent := [];
      this.room := room;
    }

    method Write(bs: Bytes) returns (ok: bool)
      modifies this
      ensures ok == (|bs| <= old(room))
      ensures sent == old(sent) + if ok then bs else bs[..old(room)]
      ensures room == if ok then old(room) - |bs| else 0
    {
      if |bs| <= room {
        sent, room := sent + bs, room - |bs|;
        return true;
      }
      sent, room := sent + bs[..room], 0;
      return false;
    }
  }

  /** Exclusive-or of the buffer with the key, in place. */
  method MaskInPlace(buf: array<byte>, key: Key)
    modifies buf
    ensures forall i :: 0 <= i < buf.Length ==> buf[i] == XorBits(old(buf[i]), key[i % 4], 8)
    ensures buf[..] == Masked(old(buf[..]), key)
  {
    for i := 0 to buf.Length
      invariant forall j :: 0 <= j < i ==> buf[j] == Xor(old(buf[j]), key[j % 4])
      invariant forall j :: i <= j < buf.Length ==> buf[j] == old(buf[j])
    {
      buf[i] := Xor(buf[i], key[i % 4]);
    }
  }

  /** The first half of ReadFrame, up to the check of the length. */
  method ReadHeader(r: Reader) returns (b0: byte, res: Result<Head, FrameError>)
    modifies r
    ensures res == ReadHead(old(r.rest))
    ensures res.Ok? ==> b0 == old(r.rest)[0]
    ensures r.rest == if res.Ok? || res.error.TooLarge? then old(r.rest)[2 + ExtSize(old(r.rest)[1] % 128)..] else []
  {
    ghost var s := r.rest;
    var h := new byte[2];
    var ok := r.ReadFull(h);
    if !ok {
      return 0, Err(HeaderCut);
    }
    b0 := h[0];
    var b1 := h[1];
    assert b0 == h[..][0] == s[0] && b1 == h[..][1] == s[1];
    var length: nat := b1 % 128;
    var ext := new byte[ExtSize(b1 % 128)];
    if ext.Length > 0 {
      ok := r.ReadFull(ext);
      if !ok {
        return 0, Err(LengthCut);
      }
      assert ext[..] == s[2..2 + ext.Length];
      length := BigEndian(ext[..]);
    }
    assert r.rest == s[2 + ext.Length..] && length == Length(s);
    if length > MAX_FRAME_SIZE {
      return 0, Err(TooLarge(length));
    }
    return b0, Ok(Head(length, b1 >= 128, 2 + ext.Length + KeySize(b1)));
  }

  function FrameOf(r: Result<Decoded, FrameError>): Result<Frame, FrameError> {
    match r
    case Ok(d) => Ok(d.frame)
    case Err(e) => Err(e)
  }

  /** What is left of the input after one frame. After an error the input is used up, except that
      a refused length leaves what follows it unread. */
  function Unread(s: Bytes): (r: Bytes)
    ensures |r| <= |s|
  {
    match Decode(s)
    case Ok(d) => s[d.size..]
    case Err(TooLarge(_)) => s[2 + ExtSize(s[1] % 128)..]
    case Err(_) => []
  }

  /** The second half of ReadFrame: the key, if there is one, and the payload, unmasked in place. */
  method ReadBody(r: Reader, h: Head) returns (res: Result<(Key, Bytes), FrameError>)
    modifies r
    ensures var (s, k) := (old(r.rest), if h.masked then 4 else 0);
      if |s| < k then res == Err(KeyCut) && r.rest == []
      else if |s| < k + h.length then res == Err(PayloadCut) && r.rest == []
      else
        var key: Key, body := if h.masked then s[..4] else NO_KEY, s[k..k + h.length];
        res == Ok((key, if h.masked then Masked(body, key) else body)) && r.rest == s[k + h.length..]
  {
    hide Masked;
    ghost var s := r.rest;
    var key := NO_KEY;
    if h.masked {
      var k := new byte[4];
      var got := r.ReadFull(k);
      if !got {
        return Err(KeyCut);
      }
      key := k[..];
    }
    var payload := new byte[h.length];
    if h.length > 0 {
      var got := r.ReadFull(payload);
      if !got {
        return Err(PayloadCut);
      }
    }
    ghost var k := if h.masked then 4 else 0;
    assert payload[..] == s[k..k + h.length] && r.rest == s[k + h.length..];
    if h.masked {
      MaskInPlace(payload, key);
    }
    return Ok((key, payload[..]));
  }

  lemma SliceOfTail(s: Bytes, i: nat, k: nat, n: nat)
    requires i <= |s|
    ensures i + k <= |s| ==> s[i..][..k] == s[i..i + k]
    ensures i + k + n <= |s| ==> s[i..][k..k + n] == s[i + k..i + k + n] && s[i..][k + n..] == s[i + k + n..]
  {
  }

  /** ReadFrame takes one frame off the input. */
  method ReadFrame(r: Reader) returns (res: Result<Frame, FrameError>)
    modifies r
    ensures res == FrameOf(Decode(old(r.rest))) && r.rest == Unread(old(r.rest))
  {
    hide Masked, Length;
    ghost var s := r.rest;
    var b0, head := ReadHeader(r);
    if head.Err? {
      return Err(head.error);
    }
    var h := head.value;
    assert r.rest == s[2 + ExtSize(s[1] % 128)..];
    SliceOfTail(s, 2 + ExtSize(s[1] % 128), if h.masked then 4 else 0, h.length);
    var body := ReadBody(r, h);
    if body.Err? {
      return Err(body.error);
    }
    return Ok(Frame(b0 >= 128, b0 % 16, h.masked, body.value.0, body.value.1));
  }

  /** The first half of WriteFrame: the header, built by appending. */
  method BuildHeader(f: Frame) returns (header: Bytes)
    ensures header == [FirstByte(f)] + LengthBytes(|f.payload|)
  {
    var b0 := f.opcode;
    if f.fin && b0 < 128 {
      b0 := b0 + 128;
    }
    header := [b0];
    var length := |f.payload|;
    if length <= 125 {
      header := header + [length];
    } else if length <= 65535 {
      header := header + [126];
      header := header + Digits(length, 2);
    } else {
      header := header + [127];
      header := header + Digits(length, 8);
    }
  }

  /** WriteFrame sends the encoding of the frame, or fails after a part of it. */
  method WriteFrame(w: Writer, f: Frame) returns (ok: bool)
    modifies w
    ensures ok == (|Encode(f)| <= old(w.room))
    ensures w.sent == old(w.sent) + if ok then Encode(f) else Encode(f)[..old(w.room)]
    ensures w.room == if ok then old(w.room) - |Encode(f)| else 0
  {
    var header := BuildHeader(f);
    TakeConcat(header, f.payload, w.room);
    ok := w.Write(header);
    if ok {
      ok := w.Write(f.payload);
    }
  }

  lemma TakeConcat(a: Bytes, b: Bytes, n: nat)
    ensures n < |a| ==> (a + b)[..n] == a[..n]
    ensures |a| <= n <= |a + b| ==> (a + b)[..n] == a + b[..n - |a|]
  {
  }

  /** MaskFrame as a function of the frame and the random key it draws. */
  function MaskFrame(f: Frame, key: Key): Frame {
    if f.mask then f else f.(mask := true, key := key, payload := Masked(f.payload, key))
  }

  /** WriteFrame sends neither mask bit nor key, so a frame that went through MaskFrame arrives with
      its payload still masked. It arrives intact exactly when the key bytes used are all zero. */
  lemma MaskedFramesArriveMasked(f: Frame, key: Key)
    requires !f.mask && |f.payload| <= MAX_FRAME_SIZE
    ensures Decode(Encode(MaskFrame(f, key))).Ok?
    ensures var arrived := Decode(Encode(MaskFrame(f, key))).value.frame;
      && arrived.payload == Masked(f.payload, key)
      && (arrived.payload == f.payload <==> forall i :: 0 <= i < |f.payload| ==> key[i % 4] == 0)
  {
    var m := MaskFrame(f, key);
    Pow256Values();
    DecodeEncode(m, []);
    assert Encode(m) + [] == Encode(m);
    MaskFixes(f.payload, key);
  }

  /** The key is drawn inside MaskFrame. A caller can rely on the frame arriving intact, whatever key is
      drawn, exactly when there is no payload. */
  lemma MaskingHarmlessExactlyWhenEmpty(f: Frame)
    requires !f.mask && |f.payload| <= MAX_FRAME_SIZE
    ensures (forall key: Key :: FrameOf(Decode(Encode(MaskFrame(f, key)))) == Ok(Arrived(f))) <==> f.payload == []
  {
    Pow256Values();
    forall key: Key
      ensures FrameOf(Decode(Encode(MaskFrame(f, key)))) == Ok(Arrived(f)) <==>
        forall i :: 0 <= i < |f.payload| ==> key[i % 4] == 0
    {
      var m := MaskFrame(f, key);
      DecodeEncode(m, []);
      assert Encode(m) + [] == Encode(m);
      MaskFixes(f.payload, key);
    }
    var ones: Key, i := [1, 1, 1, 1], 0;
    assert ones[i % 4] == 1;
    assert FrameOf(Decode(Encode(MaskFrame(f, ones)))) == Ok(Arrived(f)) <==> f.payload == [];
  }
}
