/** The wire format of sections 5.2 and 5.3 of RFC 6455, byte by byte: where each field of a frame stands
    in what WsFrame decodes and encodes. */
module WsWire {
  import opened Prelude
  import opened WsFrame

  /** Where the key or, without one, the payload starts. */
  function HeaderSize(b1: byte): nat {
    if b1 % 128 == 126 then 4 else if b1 % 128 == 127 then 10 else 2
  }

  /** Two and eight bytes from position i, the first the most significant. */
  function TwoAt(s: Bytes, i: nat): nat
    requires i + 2 <= |s|
  {
    0x100 * s[i] as nat + s[i + 1] as nat
  }

  function EightAt(s: Bytes, i: nat): nat
    requires i + 8 <= |s|
  {
    0x1_0000_0000_0000 * TwoAt(s, i) + 0x1_0000_0000 * TwoAt(s, i + 2) + 0x1_0000 * TwoAt(s, i + 4) + TwoAt(s, i + 6)
  }

  /** The payload length in the three forms: seven bits, two bytes, eight bytes. */
  function Announced(s: Bytes): nat
    requires |s| >= 2 && |s| >= HeaderSize(s[1])
  {
    if s[1] % 128 == 126 then TwoAt(s, 2) else if s[1] % 128 == 127 then EightAt(s, 2) else s[1] % 128
  }

  lemma BigEndianNext(bs: Bytes, b: byte)
    ensures BigEndian(bs + [b]) == 256 * BigEndian(bs) + b
  {
    assert (bs + [b])[..|bs|] == bs;
  }

  lemma TwoMore(bs: Bytes)
    requires |bs| >= 2
    ensures BigEndian(bs) == 0x1_0000 * BigEndian(bs[..|bs| - 2]) + TwoAt(bs, |bs| - 2)
  {
    var front := bs[..|bs| - 2];
    BigEndianNext(front, bs[|bs| - 2]);
    BigEndianNext(front + [bs[|bs| - 2]], bs[|bs| - 1]);
    assert bs == front + [bs[|bs| - 2]] + [bs[|bs| - 1]];
  }

  lemma EightBytes(bs: Bytes)
    requires |bs| == 8
    ensures BigEndian(bs) == EightAt(bs, 0)
  {
    hide BigEndian;
    assert bs[..6][..4] == bs[..4] && bs[..4][..2] == bs[..2] && bs[..2][..0] == [];
    TwoMore(bs);
    TwoMore(bs[..6]);
    TwoMore(bs[..4]);
    TwoMore(bs[..2]);
    Nothing();
  }

  lemma Nothing()
    ensures BigEndian([]) == 0
  {
  }

  lemma LengthIsAnnounced(s: Bytes)
    requires |s| >= 2 && |s| >= HeaderSize(s[1])
    ensures 2 + ExtSize(s[1] % 128) == HeaderSize(s[1]) && Length(s) == Announced(s)
  {
    hide BigEndian;
    if s[1] % 128 == 126 {
      assert s[2..4][..0] == [];
      TwoMore(s[2..4]);
      Nothing();
    } else if s[1] % 128 == 127 {
      EightBytes(s[2..10]);
    }
  }

  /** Where the payload starts. */
  function PayloadAt(b1: byte): nat {
    HeaderSize(b1) + if b1 >= 128 then 4 else 0
  }

  /** Byte i of the payload as it is read: unmasked, exclusive-or with the key byte at i modulo four, which
      stands right before the payload, and otherwise as it stands. */
  function PayloadByte(s: Bytes, i: nat): nat
    requires |s| >= 2 && PayloadAt(s[1]) + i < |s|
  {
    var start := PayloadAt(s[1]);
    if s[1] >= 128 then XorBits(s[start + i], s[start - 4 + i % 4], 8) else s[start + i]
  }

  /** The frame that the first bytes of s are, field by field. */
  ghost predicate IsFrameOf(d: Decoded, s: Bytes)
    requires |s| >= 2 && |s| >= HeaderSize(s[1]) && |s| >= PayloadAt(s[1]) + Announced(s)
  {
    var start := PayloadAt(s[1]);
    && d.size == start + Announced(s)
    && (d.frame.fin <==> Bit(s[0], 7)) && d.frame.opcode == s[0] % 16 && (d.frame.mask <==> Bit(s[1], 7))
    && d.frame.key == (if s[1] >= 128 then s[start - 4..start] else [0, 0, 0, 0])
    && |d.frame.payload| == Announced(s)
    && forall i :: 0 <= i < |d.frame.payload| ==> d.frame.payload[i] == PayloadByte(s, i)
  }

  lemma ThreeDown(x: nat, i: nat)
    ensures Bit(x, i + 3) == Bit(x / 2 / 2 / 2, i)
  {
    assert Bit(x, i + 3) == Bit(x / 2, i + 2) == Bit(x / 2 / 2, i + 1);
  }

  lemma TopBit(b: byte)
    ensures Bit(b, 7) <==> b >= 128
  {
    ThreeDown(b, 4);
    ThreeDown(b / 2 / 2 / 2, 1);
    assert Bit(b / 2 / 2 / 2 / 2 / 2 / 2, 1) == Bit(b / 2 / 2 / 2 / 2 / 2 / 2 / 2, 0);
  }

  /** What ReadFrame makes of any input: every error with its exact condition, and every field of the frame
      from the bytes it is read from. */
  lemma DecodeOnWire(s: Bytes)
    ensures |s| < 2 ==> Decode(s) == Err(HeaderCut)
    ensures 2 <= |s| && |s| < HeaderSize(s[1]) ==> Decode(s) == Err(LengthCut)
    ensures 2 <= |s| && HeaderSize(s[1]) <= |s| ==>
      if Announced(s) > 65536 then Decode(s) == Err(TooLarge(Announced(s)))
      else if |s| < PayloadAt(s[1]) then Decode(s) == Err(KeyCut)
      else if |s| < PayloadAt(s[1]) + Announced(s) then Decode(s) == Err(PayloadCut)
      else Decode(s).Ok? && IsFrameOf(Decode(s).value, s)
  {
    hide BigEndian, Length, Announced, XorBits, Masked, IsFrameOf;
    if 2 <= |s| && HeaderSize(s[1]) <= |s| {
      LengthIsAnnounced(s);
      if Decode(s).Ok? {
        FieldsOnWire(s);
      }
    }
  }

  lemma FieldsOnWire(s: Bytes)
    requires Decode(s).Ok? && |s| >= HeaderSize(s[1]) && |s| >= PayloadAt(s[1]) + Announced(s)
    ensures IsFrameOf(Decode(s).value, s)
  {
    hide Length, Announced, XorBits, Masked, Bit;
    TopBit(s[0]);
    TopBit(s[1]);
    LengthIsAnnounced(s);
    if s[1] >= 128 {
      MaskedPayload(s, PayloadAt(s[1]), Announced(s));
    }
  }

  lemma MaskedPayload(s: Bytes, start: nat, n: nat)
    requires 4 <= start && start + n <= |s|
    ensures var payload := Masked(s[start..start + n], s[start - 4..start]);
      |payload| == n && forall i :: 0 <= i < n ==> payload[i] == XorBits(s[start + i], s[start - 4 + i % 4], 8)
  {
    hide XorBits, Masked;
    var body, key: Key := s[start..start + n], s[start - 4..start];
    MaskedBytes(body, key);
    forall i | 0 <= i < n ensures Masked(body, key)[i] == XorBits(s[start + i], s[start - 4 + i % 4], 8) {
      assert body[i] == s[start + i] && key[i % 4] == s[start - 4 + i % 4];
    }
  }

  /** Masking byte by byte. */
  lemma MaskedBytes(payload: Bytes, key: Key)
    ensures forall i :: 0 <= i < |payload| ==> Masked(payload, key)[i] == XorBits(payload[i], key[i % 4], 8)
  {
  }

  /** What WriteFrame sends: the first byte, the shortest length form, and the payload as it is. */
  lemma EncodeOnWire(f: Frame)
    requires |f.payload| < 0x1_0000_0000_0000_0000
    ensures var (e, n) := (Encode(f), |f.payload|);
      && |e| >= 2 && e[0] == (if f.fin && f.opcode < 128 then f.opcode + 128 else f.opcode)
      && e[1] == (if n <= 125 then n else if n <= 65535 then 126 else 127)
      && |e| == HeaderSize(e[1]) + n && Announced(e) == n && e[HeaderSize(e[1])..] == f.payload
  {
    hide Digits, Announced, LengthBytes;
    var (e, len) := (Encode(f), LengthBytes(|f.payload|));
    LengthBytesHead(|f.payload|);
    assert e[2..1 + |len|] == len[1..];
    LengthFormOnWire(e, |f.payload|, 0);
  }

  /** The length bytes after a first byte announce the length, whether or not the mask bit is added. */
  lemma LengthFormOnWire(e: Bytes, n: nat, bit: nat)
    requires n < 0x1_0000_0000_0000_0000 && (bit == 0 || bit == 128)
    requires |e| >= 1 + |LengthBytes(n)| && e[1] == LengthBytes(n)[0] % 128 + bit
    requires e[2..1 + |LengthBytes(n)|] == LengthBytes(n)[1..]
    ensures LengthBytes(n)[0] == (if n <= 125 then n else if n <= 65535 then 126 else 127)
    ensures HeaderSize(e[1]) == 1 + |LengthBytes(n)| && Announced(e) == n
  {
    hide Announced, BigEndian, Digits, Length;
    LengthBytesHead(n);
    LengthIsAnnounced(e);
    LengthIs(e, n, bit);
  }

  lemma LengthIs(e: Bytes, n: nat, bit: nat)
    requires n < 0x1_0000_0000_0000_0000 && (bit == 0 || bit == 128)
    requires |e| >= 1 + |LengthBytes(n)| && e[1] == LengthBytes(n)[0] % 128 + bit
    requires e[2..1 + |LengthBytes(n)|] == LengthBytes(n)[1..]
    requires 2 + ExtSize(e[1] % 128) == 1 + |LengthBytes(n)|
    ensures Length(e) == n
  {
    hide BigEndian, Digits;
    if n > 125 {
      Pow256Values();
      var k := if n <= 65535 then 2 else 8;
      DigitsRoundTrip(n, k);
      assert LengthBytes(n)[1..] == Digits(n, k);
    }
  }

  /** What a masking client sends: the mask bit, the length as above, the key, and byte i of the payload
      exclusive-or the key byte at i modulo four. */
  lemma EncodeMaskedOnWire(f: Frame, key: Key)
    requires |f.payload| < 0x1_0000_0000_0000_0000
    ensures var (e, n) := (EncodeMasked(f, key), |f.payload|);
      && |e| >= 2 && e[0] == (if f.fin && f.opcode < 128 then f.opcode + 128 else f.opcode)
      && e[1] == 128 + (if n <= 125 then n else if n <= 65535 then 126 else 127)
      && |e| == PayloadAt(e[1]) + n && Announced(e) == n
      && e[PayloadAt(e[1]) - 4..PayloadAt(e[1])] == key
      && forall i :: 0 <= i < n ==> e[PayloadAt(e[1]) + i] == XorBits(f.payload[i], key[i % 4], 8)
  {
    hide Digits, Announced, XorBits, LengthBytes, Masked;
    var e, len, m := EncodeMasked(f, key), LengthBytes(|f.payload|), Masked(f.payload, key);
    var head := MaskedHead(FirstByte(f), len);
    LengthBytesHead(|f.payload|);
    MaskedBytes(f.payload, key);
    assert e[2..1 + |len|] == head[2..];
    LengthFormOnWire(e, |f.payload|, 128);
    Parts(head, key, m);
  }

  lemma Parts(a: Bytes, b: Bytes, c: Bytes)
    ensures (a + b + c)[|a|..|a| + |b|] == b
    ensures forall i :: 0 <= i < |c| ==> (a + b + c)[|a| + |b| + i] == c[i]
  {
  }

  /** MaskFrame masks every byte and sets flag and key, once: a frame that has its flag set stays as it is. */
  lemma MaskFrameOnWire(f: Frame, key: Key)
    ensures var m := MaskFrame(f, key);
      if f.mask then m == f
      else m == Frame(f.fin, f.opcode, true, key, m.payload) && |m.payload| == |f.payload|
           && forall i :: 0 <= i < |f.payload| ==> m.payload[i] == XorBits(f.payload[i], key[i % 4], 8)
  {
    MaskedBytes(f.payload, key);
  }
}
