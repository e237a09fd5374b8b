/**
 The WebSocket echo loop: framing of sections 5.2 and 5.3 of RFC 6455, byte by byte.

 `Connection` is the program, reading from a peer that delivers in chunks of any size.
 `Serve` is what it answers to a byte stream, and is proved to be, for every stream of
 client frames, one reply per frame up to and including the first close.
 */
module WebSocket {
  import opened Common
  import opened Arith
  import Bits

  type Bytes = seq<byte>

  const CLOSE: nat := 8
  const PING: nat := 9
  const PONG: nat := 10
  const LOW32: nat := 0x1_0000_0000

  // ----- exclusive or on naturals, bit by bit -----

  function Xor(a: nat, b: nat): nat {
    if a == 0 && b == 0 then 0 else (a % 2 + b % 2) % 2 + 2 * Xor(a / 2, b / 2)
  }

  /** Each bit of the result is set where exactly one of the operands has it. */
  lemma {:induction false} XorBits(a: nat, b: nat, k: nat)
    ensures Bits.Bit(Xor(a, b), k) <==> Bits.Bit(a, k) != Bits.Bit(b, k)
    decreases k
  {
    XorParts(a, b);
    if k > 0 { XorBits(a / 2, b / 2, k - 1); }
  }

  lemma {:induction false} XorUndoes(a: nat, b: nat)
    ensures Xor(Xor(a, b), b) == a
  {
    if a != 0 || b != 0 {
      XorUndoes(a / 2, b / 2);
      XorParts(a, b);
      XorParts(Xor(a, b), b);
      Parity(a % 2, b % 2);
    }
  }

  lemma {:induction false} XorParts(a: nat, b: nat)
    ensures Xor(a, b) % 2 == (a % 2 + b % 2) % 2 && Xor(a, b) / 2 == Xor(a / 2, b / 2)
  {
    if a != 0 || b != 0 { Halves((a % 2 + b % 2) % 2, Xor(a / 2, b / 2)); }
  }

  lemma Halves(r: nat, q: nat)
    requires r < 2
    ensures (r + 2 * q) % 2 == r && (r + 2 * q) / 2 == q
  {
  }

  lemma Parity(p: nat, q: nat)
    requires p < 2 && q < 2
    ensures ((p + q) % 2 + q) % 2 == p
  {
  }

  lemma {:induction false} XorBelow(a: nat, b: nat, k: nat, bound: nat)
    requires bound == Bits.Pow2(k) && a < bound && b < bound
    ensures Xor(a, b) < bound
    decreases k
  {
    if k > 0 { XorBelow(a / 2, b / 2, k - 1, Bits.Pow2(k - 1)); }
  }

  function XorByte(a: byte, b: byte): (r: byte)
    ensures r == Xor(a, b)
  {
    assert Bits.Pow2(8) == 256 by { assert Bits.Pow2(4) == 16; }
    XorBelow(a, b, 8, 256);
    Xor(a, b)
  }

  // ----- big-endian lengths -----

  function Byte32(n: nat, k: nat): byte
    requires k < 4
  {
    match k
    case 0 => (n / 0x100_0000) % 0x100
    case 1 => (n / 0x1_0000) % 0x100
    case 2 => (n / 0x100) % 0x100
    case _ => n % 0x100
  }

  function Value16(a: int, b: int): int {
    a * 0x100 + b
  }

  function Value32(a: int, b: int, c: int, d: int): int {
    a * 0x100_0000 + b * 0x1_0000 + c * 0x100 + d
  }

  lemma Value32Of(n: nat)
    requires n < LOW32
    ensures Value32(Byte32(n, 0), Byte32(n, 1), Byte32(n, 2), Byte32(n, 3)) == n
  {
    var q1, q2, q3 := n / 0x100, n / 0x1_0000, n / 0x100_0000;
    assert n == 0x100 * q1 + n % 0x100;
    DivModUnique(n, 0x1_0000, q1 / 0x100, (q1 % 0x100) * 0x100 + n % 0x100);
    assert q1 == 0x100 * q2 + q1 % 0x100;
    DivModUnique(n, 0x100_0000, q2 / 0x100, (q2 % 0x100) * 0x1_0000 + (q1 % 0x100) * 0x100 + n % 0x100);
    assert q2 == 0x100 * q3 + q2 % 0x100;
  }

  // ----- the reply frame -----

  /** An unmasked server frame: FIN set, the shortest of the three length forms. */
  function SendFrame(opcode: nat, payload: Bytes): (frame: Bytes)
    requires opcode < 16
  {
    var n := |payload|;
    [128 + opcode] +
    (if n < 126 then [n]
     else if n < 65536 then [126, Byte32(n, 2), Byte32(n, 3)]
     else [127, 0, 0, 0, 0, Byte32(n, 0), Byte32(n, 1), Byte32(n, 2), Byte32(n, 3)]) +
    payload
  }

  // ----- what the loop makes of the front of a stream -----

  datatype Frame = Frame(opcode: nat, payload: Bytes, total: nat)

  function Extension(s: Bytes): nat
    requires |s| >= 2
  {
    if s[1] % 128 == 126 then 2 else if s[1] % 128 == 127 then 8 else 0
  }

  /** Only the low 32 bits of a 64-bit length are used. */
  function PayloadLength(s: Bytes): (n: nat)
    requires |s| >= 2 && |s| >= 2 + Extension(s)
    ensures n < LOW32
  {
    if s[1] % 128 == 126 then Value16(s[2], s[3])
    else if s[1] % 128 == 127 then Value32(s[6], s[7], s[8], s[9])
    else s[1] % 128
  }

  predicate Masked(s: Bytes)
    requires |s| >= 2
  {
    s[1] >= 128
  }

  function HeaderLength(s: Bytes): nat
    requires |s| >= 2
  {
    2 + Extension(s) + (if Masked(s) then 4 else 0)
  }

  function PayloadByte(s: Bytes, i: nat): byte
    requires |s| >= 2 && HeaderLength(s) + i < |s|
  {
    var b := s[HeaderLength(s) + i];
    if Masked(s) then XorByte(b, s[2 + Extension(s) + i % 4]) else b
  }

  /** The first frame of a stream, if all of it is there. */
  function ParseFrame(s: Bytes): (r: Option<Frame>)
    ensures r.Some? ==> 2 <= r.value.total <= |s| && r.value.opcode < 16 && |r.value.payload| < LOW32
  {
    if |s| < 2 || |s| < HeaderLength(s) || |s| < HeaderLength(s) + PayloadLength(s) then None else
    var n := PayloadLength(s);
    Some(Frame(s[0] % 16, seq(n, i requires 0 <= i < n => PayloadByte(s, i)), HeaderLength(s) + n))
  }

  function ReplyOpcode(opcode: nat): nat {
    if opcode == PING then PONG else opcode
  }

  /** The frames sent in answer to a stream that ends after `s`. */
  function Serve(s: Bytes): seq<Bytes>
    decreases |s|
  {
    match ParseFrame(s)
    case None => []
    case Some(f) =>
      [SendFrame(ReplyOpcode(f.opcode), f.payload)] + if f.opcode == CLOSE then [] else Serve(s[f.total..])
  }

  lemma {:induction false} ParseUsesOwnBytes(s: Bytes, rest: Bytes)
    ensures ParseFrame(s).Some? ==> ParseFrame(s + rest) == ParseFrame(s)
    ensures |s| >= 2 ==> HeaderLength(s + rest) == HeaderLength(s)
    ensures |s| >= 2 && |s| >= HeaderLength(s) ==> PayloadLength(s + rest) == PayloadLength(s)
  {
    if |s| >= 2 && |s| >= HeaderLength(s) && |s| >= HeaderLength(s) + PayloadLength(s) {
      var f, g := ParseFrame(s).value, ParseFrame(s + rest).value;
      assert |f.payload| == |g.payload|;
      forall i | 0 <= i < |f.payload| ensures f.payload[i] == g.payload[i] {
      }
      assert f.payload == g.payload;
    }
  }

  // ----- the program -----

  function Flat(chunks: seq<Bytes>): Bytes {
    if chunks == [] then [] else chunks[0] + Flat(chunks[1..])
  }

  class Connection {
    /** What each coming recv delivers; nothing more after the last one. */
    var incoming: seq<Bytes>
    var sent: seq<Bytes>

    constructor (chunks: seq<Bytes>)
      ensures incoming == chunks && sent == []
    {
      incoming, sent := chunks, [];
    }

    ghost predicate Valid()
      reads this
    {
      forall i :: 0 <= i < |incoming| ==> incoming[i] != []
    }

    /** sp_net_rl_recv_some: empty once the peer has closed. */
    method Recv() returns (more: Bytes)
      requires Valid()
      modifies this`incoming
      ensures Valid() && old(Flat(incoming)) == more + Flat(incoming)
      ensures more == [] ==> incoming == []
      ensures more != [] ==> |Flat(incoming)| < |old(Flat(incoming))|
    {
      if incoming == [] {
        return [];
      }
      more := incoming[0];
      incoming := incoming[1..];
    }

    method RecvUntil(buf0: Bytes, need: nat) returns (buf: Bytes)
      requires Valid()
      modifies this`incoming
      ensures Valid() && buf + Flat(incoming) == buf0 + old(Flat(incoming)) && buf0 <= buf
      ensures |buf| < need ==> incoming == []
    {
      buf := buf0;
      while |buf| < need
        invariant Valid() && buf + Flat(incoming) == buf0 + old(Flat(incoming)) && buf0 <= buf
        decreases |Flat(incoming)|
      {
        var more := Recv();
        if |more| == 0 {
          return buf;
        }
        buf := buf + more;
      }
    }

    /** Everything of the next frame, or a buffer that is all there will ever be. */
    method RecvFrame(buf0: Bytes) returns (buf: Bytes, complete: bool)
      requires Valid()
      modifies this`incoming
      ensures Valid() && buf + Flat(incoming) == buf0 + old(Flat(incoming))
      ensures complete == ParseFrame(buf).Some?
      ensures !complete ==> incoming == []
    {
      buf, complete := buf0, false;
      buf := RecvUntil(buf, 2);
      if |buf| < 2 { return; }
      var len: nat, hdr := buf[1] % 128, 2;
      if len == 126 {
        buf := RecvUntil(buf, 4);
        if |buf| < 4 { return; }
        len := Value16(buf[2], buf[3]);
        hdr := 4;
      } else if len == 127 {
        buf := RecvUntil(buf, 10);
        if |buf| < 10 { return; }
        len := Value32(buf[6], buf[7], buf[8], buf[9]);
        hdr := 10;
      }
      if buf[1] >= 128 {
        buf := RecvUntil(buf, hdr + 4);
        if |buf| < hdr + 4 { return; }
        hdr := hdr + 4;
      }
      buf := RecvUntil(buf, hdr + len);
      complete := |buf| >= hdr + len;
    }

    /** The payload of a complete frame, unmasked. */
    method Unmask(buf: Bytes) returns (payload: Bytes)
      requires ParseFrame(buf).Some?
      ensures payload == ParseFrame(buf).value.payload
    {
      payload := [];
      var maskoff := 2 + Extension(buf);
      for i := 0 to PayloadLength(buf)
        invariant payload == ParseFrame(buf).value.payload[..i]
      {
        var b := buf[HeaderLength(buf) + i];
        if Masked(buf) {
          b := XorByte(b, buf[maskoff + i % 4]);
        }
        payload := payload + [b];
      }
    }

    /** One turn of the loop of handle_ws_echo: a frame read, answered and dropped from the buffer. */
    method Turn(buf0: Bytes) returns (buf: Bytes, open: bool)
      requires Valid()
      modifies this
      ensures Valid()
      ensures old(sent) + Serve(buf0 + old(Flat(incoming))) ==
              sent + (if open then Serve(buf + Flat(incoming)) else [])
      ensures open ==> |buf| + |Flat(incoming)| < |buf0| + |old(Flat(incoming))|
    {
      var complete;
      buf, complete := RecvFrame(buf0);
      ghost var all := buf + Flat(incoming);
      assert all == buf0 + old(Flat(incoming));
      open := complete;
      if !complete {
        assert all == buf;
        return;
      }
      var f := ParseFrame(buf).value;
      var payload := Unmask(buf);
      TurnAdds(sent, buf, Flat(incoming));
      open := f.opcode != CLOSE;
      Reply(f.opcode, payload);
      buf := buf[f.total..];
    }

    /** Close is echoed, ping is answered with pong, anything else comes back as it is. */
    method Reply(opcode: nat, payload: Bytes)
      requires opcode < 16
      modifies this`sent
      ensures sent == old(sent) + [SendFrame(ReplyOpcode(opcode), payload)]
    {
      if opcode == CLOSE {
        sent := sent + [SendFrame(CLOSE, payload)];
      } else if opcode == PING {
        sent := sent + [SendFrame(PONG, payload)];
      } else {
        sent := sent + [SendFrame(opcode, payload)];
      }
    }

    /** handle_ws_echo, after the handshake. */
    method Handle()
      requires Valid()
      modifies this
      ensures sent == old(sent) + Serve(old(Flat(incoming)))
    {
      var buf: Bytes, open := [], true;
      assert buf + Flat(incoming) == Flat(incoming);
      while open
        invariant Valid()
        invariant old(sent) + Serve(old(Flat(incoming))) ==
                  sent + (if open then Serve(buf + Flat(incoming)) else [])
        decreases open, |buf| + |Flat(incoming)|
      {
        buf, open := Turn(buf);
      }
    }
  }

  lemma ServeStep(buf: Bytes, rest: Bytes)
    requires ParseFrame(buf).Some?
    ensures var f := ParseFrame(buf).value;
            Serve(buf + rest) == [SendFrame(ReplyOpcode(f.opcode), f.payload)] +
                                 if f.opcode == CLOSE then [] else Serve(buf[f.total..] + rest)
  {
    ParseUsesOwnBytes(buf, rest);
    var f := ParseFrame(buf).value;
    assert (buf + rest)[f.total..] == buf[f.total..] + rest;
  }

  lemma TurnAdds(sent: seq<Bytes>, buf: Bytes, rest: Bytes)
    requires ParseFrame(buf).Some?
    ensures var f := ParseFrame(buf).value;
            sent + Serve(buf + rest) == sent + [SendFrame(ReplyOpcode(f.opcode), f.payload)] +
                                        if f.opcode == CLOSE then [] else Serve(buf[f.total..] + rest)
  {
    ServeStep(buf, rest);
  }

  // ----- what clients send -----

  datatype LengthForm = Short | Long16 | Long64

  /** A frame as a client builds it. `flags` are FIN and the reserved bits. */
  datatype ClientFrame = ClientFrame(flags: nat, opcode: nat, masked: bool, key: Bytes, form: LengthForm,
                                     payload: Bytes)

  ghost predicate ValidFrame(f: ClientFrame) {
    && f.flags < 16 && f.opcode < 16 && |f.key| == 4 && |f.payload| < 0x8000_0000 * LOW32
    && (f.form.Short? ==> |f.payload| < 126)
    && (f.form.Long16? ==> |f.payload| < 65536)
  }

  function Mask(key: Bytes, payload: Bytes): (r: Bytes)
    requires |key| == 4
    ensures |r| == |payload|
  {
    seq(|payload|, i requires 0 <= i < |payload| => XorByte(payload[i], key[i % 4]))
  }

  function High32(n: nat): (h: Bytes)
    ensures |h| == 4
  {
    var m := n / LOW32;
    [Byte32(m, 0), Byte32(m, 1), Byte32(m, 2), Byte32(m, 3)]
  }

  /** The second byte, with the mask bit, and the extended length after it. */
  function LengthField(f: ClientFrame): (l: Bytes)
    requires ValidFrame(f)
    ensures |l| == (if f.form.Short? then 1 else if f.form.Long16? then 3 else 9)
  {
    var bit, n := if f.masked then 128 else 0, |f.payload|;
    match f.form
    case Short => [bit + n]
    case Long16 => [bit + 126, Byte32(n, 2), Byte32(n, 3)]
    case Long64 => [bit + 127] + High32(n) + [Byte32(n, 0), Byte32(n, 1), Byte32(n, 2), Byte32(n, 3)]
  }

  function EncodeHeader(f: ClientFrame): (h: Bytes)
    requires ValidFrame(f)
  {
    [f.flags * 16 + f.opcode] + LengthField(f) + (if f.masked then f.key else [])
  }

  function Encode(f: ClientFrame): Bytes
    requires ValidFrame(f)
  {
    EncodeHeader(f) + (if f.masked then Mask(f.key, f.payload) else f.payload)
  }

  lemma Value16Of(n: nat)
    requires n < 65536
    ensures Value16(Byte32(n, 2), Byte32(n, 3)) == n
  {
  }

  lemma FieldBytes(f: ClientFrame)
    requires ValidFrame(f)
    ensures |Encode(f)| >= 1 + |LengthField(f)| && Encode(f)[0] == f.flags * 16 + f.opcode
    ensures forall i :: 0 <= i < |LengthField(f)| ==> Encode(f)[1 + i] == LengthField(f)[i]
  {
  }

  lemma FieldMeans(f: ClientFrame)
    requires ValidFrame(f)
    ensures var l, n := LengthField(f), |f.payload|;
            && (l[0] >= 128 <==> f.masked)
            && (f.form.Short? ==> l[0] % 128 == n)
            && (f.form.Long16? ==> l[0] % 128 == 126 && l[1] == Byte32(n, 2) && l[2] == Byte32(n, 3))
            && (f.form.Long64? ==> l[0] % 128 == 127 && l[5] == Byte32(n, 0) && l[6] == Byte32(n, 1) &&
                                   l[7] == Byte32(n, 2) && l[8] == Byte32(n, 3))
  {
  }

  /** The fixed part of a header, before the mask key. */
  lemma HeaderPrefix(f: ClientFrame)
    requires ValidFrame(f)
    ensures var s := Encode(f);
            |s| >= 2 && Masked(s) == f.masked && s[0] % 16 == f.opcode &&
            Extension(s) == |LengthField(f)| - 1 &&
            |s| >= 2 + Extension(s) && |EncodeHeader(f)| == HeaderLength(s)
  {
    FieldBytes(f);
    FieldMeans(f);
    assert Encode(f)[1] == LengthField(f)[0];
  }

  lemma HeaderReads(f: ClientFrame)
    requires ValidFrame(f)
    ensures var s := Encode(f);
            |s| >= 2 && Masked(s) == f.masked && |EncodeHeader(f)| == HeaderLength(s) && |s| >= 2 + Extension(s) &&
            PayloadLength(s) == |f.payload| % LOW32 && s[0] % 16 == f.opcode &&
            (f.masked ==> s[2 + Extension(s)..HeaderLength(s)] == f.key)
  {
    HeaderPrefix(f);
    LengthReads(f);
    if f.masked { KeyReads(f); }
  }

  /** The parser sees the length modulo 2^32. */
  lemma LengthReads(f: ClientFrame)
    requires ValidFrame(f)
    ensures |Encode(f)| >= 2 && |Encode(f)| >= 2 + Extension(Encode(f))
    ensures PayloadLength(Encode(f)) == |f.payload| % LOW32
  {
    HeaderPrefix(f);
    FieldBytes(f);
    LengthOf(f, Encode(f));
  }

  /** Any bytes with this length field after the first byte. */
  lemma LengthOf(f: ClientFrame, s: Bytes)
    requires ValidFrame(f) && |s| >= 1 + |LengthField(f)|
    requires forall i :: 0 <= i < |LengthField(f)| ==> s[1 + i] == LengthField(f)[i]
    ensures Extension(s) == |LengthField(f)| - 1 && PayloadLength(s) == |f.payload| % LOW32
  {
    var l := LengthField(f);
    FieldMeans(f);
    assert s[1 + 0] == l[0];
    match f.form
    case Short =>
    case Long16 =>
      Value16Of(|f.payload|);
      assert s[1 + 1] == l[1] && s[1 + 2] == l[2];
    case Long64 =>
      LowLength(|f.payload|);
      assert s[1 + 5] == l[5] && s[1 + 6] == l[6] && s[1 + 7] == l[7] && s[1 + 8] == l[8];
  }

  lemma LowLength(n: nat)
    ensures Value32(Byte32(n, 0), Byte32(n, 1), Byte32(n, 2), Byte32(n, 3)) == n % LOW32
  {
    LowBytes(n);
    Value32Of(n % LOW32);
  }

  lemma KeyReads(f: ClientFrame)
    requires ValidFrame(f) && f.masked
    ensures |Encode(f)| >= 2 && |EncodeHeader(f)| == HeaderLength(Encode(f)) == 2 + Extension(Encode(f)) + 4
    ensures Encode(f)[2 + Extension(Encode(f))..HeaderLength(Encode(f))] == f.key
  {
    HeaderPrefix(f);
    var h, n := EncodeHeader(f), |EncodeHeader(f)|;
    assert Encode(f)[..n] == h;
    assert h[n - 4..] == f.key;
    assert Encode(f)[n - 4..n] == h[n - 4..];
  }

  lemma SmallLength(n: nat)
    ensures n % LOW32 == n <==> n < LOW32
  {
  }

  lemma LowBytes(n: nat)
    ensures forall k :: 0 <= k < 4 ==> Byte32(n, k) == Byte32(n % LOW32, k)
  {
    var q, m := n / LOW32, n % LOW32;
    assert n == LOW32 * q + m;
    DivModUnique(n, 0x100_0000, 0x100 * q + m / 0x100_0000, m % 0x100_0000);
    DivModUnique(n, 0x1_0000, 0x1_0000 * q + m / 0x1_0000, m % 0x1_0000);
    DivModUnique(n, 0x100, 0x100_0000 * q + m / 0x100, m % 0x100);
    ModAddMultiple(m / 0x100_0000, 0x100, q);
    ModAddMultiple(m / 0x1_0000, 0x100, 0x100 * q);
    ModAddMultiple(m / 0x100, 0x100, 0x1_0000 * q);
    ModAddMultiple(m, 0x100, 0x100_0000 * q);
  }

  /** Decoding an encoded frame gives back its opcode and payload and nothing of what follows. */
  lemma FrameRoundTrip(f: ClientFrame, rest: Bytes)
    requires ValidFrame(f) && |f.payload| < LOW32
    ensures ParseFrame(Encode(f) + rest) == Some(Frame(f.opcode, f.payload, |Encode(f)|))
  {
    var s := Encode(f);
    HeaderReads(f);
    SmallLength(|f.payload|);
    var got := ParseFrame(s).value;
    forall i | 0 <= i < |f.payload| ensures got.payload[i] == f.payload[i] {
      PayloadRoundTrip(f, i);
    }
    assert got.payload == f.payload;
    ParseUsesOwnBytes(s, rest);
  }

  lemma PayloadRoundTrip(f: ClientFrame, i: nat)
    requires ValidFrame(f) && i < |f.payload|
    ensures |Encode(f)| > HeaderLength(Encode(f)) + i && PayloadByte(Encode(f), i) == f.payload[i]
  {
    var s := Encode(f);
    HeaderReads(f);
    if f.masked {
      XorUndoes(f.payload[i], f.key[i % 4]);
      assert s[HeaderLength(s) + i] == Mask(f.key, f.payload)[i];
      assert s[2 + Extension(s) + i % 4] == f.key[i % 4];
    }
  }

  /** ... and does so exactly for payloads under 2^32 bytes: of a longer one only the front is taken,
      and the rest of it is read as frames. */
  lemma RoundTripExactlyBelow(f: ClientFrame, rest: Bytes)
    requires ValidFrame(f)
    ensures ParseFrame(Encode(f) + rest) == Some(Frame(f.opcode, f.payload, |Encode(f)|)) <==> |f.payload| < LOW32
  {
    if |f.payload| < LOW32 {
      FrameRoundTrip(f, rest);
    } else {
      HeaderReads(f);
      ParseUsesOwnBytes(Encode(f), rest);
      assert |ParseFrame(Encode(f)).value.payload| < |f.payload|;
    }
  }

  /** A reply has FIN set, no mask, and the shortest of the three length forms. */
  lemma ReplyShape(opcode: nat, payload: Bytes)
    requires opcode < 16
    ensures var s, n := SendFrame(opcode, payload), |payload|;
            && s[0] == 0x80 + opcode && s[1] < 128
            && |s| == n + (if n < 126 then 2 else if n < 65536 then 4 else 10)
            && s[|s| - n..] == payload
  {
  }

  /** Every reply is itself a frame the same parser reads back. */
  lemma ReplyRoundTrip(opcode: nat, payload: Bytes, rest: Bytes)
    requires opcode < 16 && |payload| < LOW32
    ensures ParseFrame(SendFrame(opcode, payload) + rest) ==
            Some(Frame(opcode, payload, |SendFrame(opcode, payload)|))
  {
    var form := if |payload| < 126 then Short else if |payload| < 65536 then Long16 else Long64;
    var f := ClientFrame(8, opcode, false, [0, 0, 0, 0], form, payload);
    assert High32(|payload|) == [0, 0, 0, 0];
    assert Encode(f) == SendFrame(opcode, payload);
    FrameRoundTrip(f, rest);
  }

  // ----- whole sessions -----

  ghost function EncodeAll(fs: seq<ClientFrame>): Bytes
    requires forall f | f in fs :: ValidFrame(f) && |f.payload| < LOW32
  {
    if fs == [] then [] else Encode(fs[0]) + EncodeAll(fs[1..])
  }

  /** One reply per frame, in order, through the first close (opcode 8): a pong (10) for a ping (9), and the
      same opcode for any other, with the frame's payload. */
  ghost function Replies(fs: seq<ClientFrame>): seq<Bytes>
    requires forall f | f in fs :: ValidFrame(f) && |f.payload| < LOW32
  {
    if fs == [] then [] else
    assert fs[0] in fs && ValidFrame(fs[0]);
    [SendFrame(if fs[0].opcode == 9 then 10 else fs[0].opcode, fs[0].payload)] +
    if fs[0].opcode == 8 then [] else Replies(fs[1..])
  }

  lemma {:induction false} ServeAnswersFrames(fs: seq<ClientFrame>, tail: Bytes)
    requires forall f | f in fs :: ValidFrame(f) && |f.payload| < LOW32
    requires ParseFrame(tail).None?
    ensures Serve(EncodeAll(fs) + tail) == Replies(fs)
  {
    if fs == [] {
      assert EncodeAll(fs) + tail == tail;
    } else {
      var f, more := fs[0], EncodeAll(fs[1..]) + tail;
      assert f in fs;
      assert EncodeAll(fs) + tail == Encode(f) + more;
      FrameRoundTrip(f, more);
      assert (Encode(f) + more)[|Encode(f)|..] == more;
      ServeAnswersFrames(fs[1..], tail);
    }
  }

  /** For any client frames, however they are delivered and however the last one is cut off, the
      server sends exactly one reply per complete frame, in order, until the first close. */
  method EchoSession(ghost fs: seq<ClientFrame>, ghost tail: Bytes, chunks: seq<Bytes>) returns (sent: seq<Bytes>)
    requires forall f | f in fs :: ValidFrame(f) && |f.payload| < LOW32
    requires ParseFrame(tail).None?
    requires (forall i :: 0 <= i < |chunks| ==> chunks[i] != []) && Flat(chunks) == EncodeAll(fs) + tail
    ensures sent == Replies(fs)
  {
    var c := new Connection(chunks);
    c.Handle();
    ServeAnswersFrames(fs, tail);
    sent := c.sent;
  }
}
