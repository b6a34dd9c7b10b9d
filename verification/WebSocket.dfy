/**
 The WebSocket client of cdp.py: framing and reassembly over a socket that hands out the
 byte stream in arbitrary pieces (RFC 6455, sections 5.2 to 5.5).
 */
module WebSocket {
  import opened Options
  import opened Bytes

  // What one read of the socket returns; an exhausted socket is closed.
  type Chunk = c: Bytes | c != [] witness [0]

  datatype Reply = Message(payload: Bytes) | Closed | CloseFrame

  function Stream(chunks: seq<Chunk>): Bytes {
    if chunks == [] then [] else chunks[0] + Stream(chunks[1..])
  }

  // ----- reading from the stream -----

  // The sizes of header and payload of the first frame, if its header is complete.
  function Lengths(s: Bytes): Option<(nat, nat)> {
    if |s| < 2 then None
    else
      var n := s[1] % 128;
      if n == 126 then if |s| < 4 then None else Some((4, FromBigEndian(s[2..4])))
      else if n == 127 then if |s| < 10 then None else Some((10, FromBigEndian(s[2..10])))
      else Some((2, n))
  }

  datatype Parsed = Parsed(fin: bool, opcode: nat, data: Bytes, rest: Bytes)

  function NextFrame(s: Bytes): (p: Option<Parsed>)
    ensures p.Some? ==> |p.value.rest| < |s|
  {
    var lengths := Lengths(s);
    if lengths.None? then None
    else
      var (off, n) := lengths.value;
      if |s| < off + n then None else Some(Parsed(s[0] >= 128, s[0] % 16, s[off..off + n], s[off + n..]))
  }

  const CONTINUATION := 0x0
  const TEXT := 0x1
  const BINARY := 0x2
  const CLOSE := 0x8
  const PING := 0x9
  const PONG := 0xA

  // What recv answers, and what it leaves unread.
  function Received(s: Bytes, frags: Bytes): (Reply, Bytes)
    decreases |s|
  {
    var next := NextFrame(s);
    if next.None? then (Closed, s)
    else
      var f := next.value;
      if f.opcode == CLOSE then (CloseFrame, f.rest)
      else if f.opcode == CONTINUATION then
        if f.fin then (Message(frags + f.data), f.rest) else Received(f.rest, frags + f.data)
      else if f.opcode == TEXT || f.opcode == BINARY then
        if f.fin then (Message(f.data), f.rest) else Received(f.rest, f.data)
      else Received(f.rest, frags)
  }

  // ----- the class -----

  class WS {
    var buf: Bytes
    var chunks: seq<Chunk>
    var sent: Bytes

    ghost function Unread(): Bytes
      reads this
    {
      buf + Stream(chunks)
    }

    constructor (chunks: seq<Chunk>)
      ensures this.chunks == chunks && buf == [] && sent == [] && Unread() == Stream(chunks)
    {
      this.chunks, buf, sent := chunks, [], [];
    }

    method Need(n: nat) returns (ok: bool)
      modifies this`buf, this`chunks
      ensures Unread() == old(Unread())
      ensures ok <==> |Unread()| >= n
      ensures ok ==> |buf| >= n
    {
      while |buf| < n
        invariant Unread() == old(Unread())
        decreases |chunks|
      {
        if chunks == [] {
          return false;
        }
        assert buf + Stream(chunks) == buf + chunks[0] + Stream(chunks[1..]);
        buf := buf + chunks[0];
        chunks := chunks[1..];
      }
      return true;
    }

    // The answer depends on the byte stream alone, not on how the socket cuts it.
    method Recv() returns (r: Reply)
      modifies this`buf, this`chunks
      ensures (r, Unread()) == Received(old(Unread()), [])
    {
      var frags: Bytes := [];
      while true
        invariant Received(Unread(), frags) == Received(old(Unread()), [])
        decreases |Unread()|
      {
        ghost var s := Unread();
        var frame := Take();
        if frame.None? {
          return Closed;
        }
        var f := frame.value;
        assert NextFrame(s) == Some(Parsed(f.0, f.1, f.2, Unread()));
        if f.1 == CLOSE {
          return CloseFrame;
        }
        if f.1 == PING || f.1 == PONG {
          continue;
        }
        if f.1 == CONTINUATION {
          frags := frags + f.2;
        } else if f.1 == TEXT || f.1 == BINARY {
          frags := f.2;
        } else {
          continue;
        }
        if f.0 {
          return Message(frags);
        }
      }
    }

    // One frame off the buffer: final bit, opcode, payload.
    method Take() returns (frame: Option<(bool, nat, Bytes)>)
      modifies this`buf, this`chunks
      ensures frame.None? ==> NextFrame(old(Unread())) == None && Unread() == old(Unread())
      ensures frame.Some? ==>
                NextFrame(old(Unread())) == Some(Parsed(frame.value.0, frame.value.1, frame.value.2, Unread()))
    {
      hide Stream, FromBigEndian;
      ghost var s := Unread();
      var ok := Need(2);
      if !ok {
        return None;
      }
      var b0, b1 := buf[0], buf[1];
      assert s[0] == b0 && s[1] == b1;
      var n, off := b1 % 128, 2;
      if n == 126 {
        ok := Need(4);
        if !ok {
          return None;
        }
        assert buf[2..4] == s[2..4];
        n, off := FromBigEndian(buf[2..4]), 4;
      } else if n == 127 {
        ok := Need(10);
        if !ok {
          return None;
        }
        assert buf[2..10] == s[2..10];
        n, off := FromBigEndian(buf[2..10]), 10;
      }
      assert Lengths(s) == Some((off, n));
      ok := Need(off + n);
      if !ok {
        return None;
      }
      assert buf[off..off + n] == s[off..off + n];
      frame := Some((b0 >= 128, b0 % 16, buf[off..off + n]));
      buf := buf[off + n..];
      assert Unread() == s[off + n..];
    }

    method PackHeader(n: nat) returns (hdr: Bytes)
      requires n < 0x1_0000_0000_0000_0000
      ensures hdr == [0x81] + LengthBytes(n, 1)
    {
      Widths();
      if n < 126 {
        hdr := [0x81, 0x80 + n];
      } else if n < 65536 {
        hdr := [0x81, 0x80 + 126] + BigEndian(n, 2);
      } else {
        hdr := [0x81, 0x80 + 127] + BigEndian(n, 8);
      }
    }

    // A payload whose size does not fit 64 bits cannot be packed.
    method Send(payload: Bytes, mask: Key) returns (ok: bool)
      modifies this`sent
      ensures ok <==> |payload| < 0x1_0000_0000_0000_0000
      ensures sent == old(sent) + if ok then Wire(Frame(true, TEXT, payload), Some(mask)) else []
    {
      hide LengthBytes, Xor;
      var n := |payload|;
      if n >= 0x1_0000_0000_0000_0000 {
        assert sent + [] == sent;
        return false;
      }
      var hdr := PackHeader(n);
      var masked: Bytes := seq(n, i requires 0 <= i < n => Xor(payload[i], mask[i % 4]));
      assert masked == Masked(payload, mask);
      sent := sent + (hdr + mask + masked);
      return true;
    }
  }

  // ----- frames on the wire -----

  type Key = k: Bytes | |k| == 4 witness [0, 0, 0, 0]

  datatype Frame = Frame(fin: bool, opcode: nat, payload: Bytes)

  predicate Sendable(f: Frame) {
    f.opcode < 16 && |f.payload| < 0x1_0000_0000_0000_0000
  }

  function Pow2(bits: nat): nat {
    if bits == 0 then 1 else 2 * Pow2(bits - 1)
  }

  // Exclusive or, bit by bit.
  function XorBits(a: nat, b: nat, bits: nat): (r: nat)
    requires a < Pow2(bits) && b < Pow2(bits)
    ensures r < Pow2(bits)
  {
    if bits == 0 then 0 else (a + b) % 2 + 2 * XorBits(a / 2, b / 2, bits - 1)
  }

  lemma {:induction false} XorBitsTwice(a: nat, b: nat, bits: nat)
    requires a < Pow2(bits) && b < Pow2(bits)
    ensures XorBits(XorBits(a, b, bits), b, bits) == a
  {
    if bits > 0 {
      XorBitsTwice(a / 2, b / 2, bits - 1);
      var x := XorBits(a, b, bits);
      Halves(x, (a + b) % 2, XorBits(a / 2, b / 2, bits - 1));
      Parity(a, b);
      ParityOfSum(x, b);
    }
  }

  lemma Halves(x: nat, low: nat, high: nat)
    requires low < 2 && x == low + 2 * high
    ensures x % 2 == low && x / 2 == high
  {
  }

  lemma ParityOfSum(a: nat, b: nat)
    ensures (a + b) % 2 == (a % 2 + b) % 2
  {
    Halves(a, a % 2, a / 2);
  }

  lemma Parity(a: nat, b: nat)
    ensures ((a + b) % 2 + b) % 2 == a % 2
  {
    ParityOfSum(a + b, b);
    Halves(a + 2 * b, a % 2, a / 2 + b);
  }

  lemma ByteIsEightBits()
    ensures Pow2(8) == 256
  {
    assert Pow2(3) == 8 && Pow2(6) == 64;
  }

  function Xor(a: Byte, b: Byte): Byte {
    ByteIsEightBits();
    XorBits(a, b, 8)
  }

  lemma XorTwice(a: Byte, b: Byte)
    ensures Xor(Xor(a, b), b) == a
  {
    ByteIsEightBits();
    XorBitsTwice(a, b, 8);
  }

  // The k-th bit, the lowest first.
  function Bit(x: nat, k: nat): nat {
    if k == 0 then x % 2 else Bit(x / 2, k - 1)
  }

  // A bit is set where exactly one of the two is.
  lemma {:induction false} XorBit(a: nat, b: nat, bits: nat, k: nat)
    requires a < Pow2(bits) && b < Pow2(bits) && k < bits
    ensures Bit(XorBits(a, b, bits), k) == if Bit(a, k) == Bit(b, k) then 0 else 1
  {
    Halves(XorBits(a, b, bits), (a + b) % 2, XorBits(a / 2, b / 2, bits - 1));
    if k > 0 {
      XorBit(a / 2, b / 2, bits - 1, k - 1);
    } else {
      ParityOfSum(a, b);
      ParityOfSum(b, a % 2);
    }
  }

  function Masked(b: Bytes, key: Key): (r: Bytes)
    ensures |r| == |b|
  {
    seq(|b|, i requires 0 <= i < |b| => Xor(b[i], key[i % 4]))
  }

  lemma MaskedTwice(b: Bytes, key: Key)
    ensures Masked(Masked(b, key), key) == b
  {
    forall i | 0 <= i < |b| ensures Masked(Masked(b, key), key)[i] == b[i] {
      XorTwice(b[i], key[i % 4]);
    }
  }

  // The second byte with the mask bit, and the extended length.
  function LengthBytes(n: nat, maskBit: nat): (r: Bytes)
    requires n < 0x1_0000_0000_0000_0000 && maskBit <= 1
    ensures |r| == if n < 126 then 1 else if n < 65536 then 3 else 9
  {
    Widths();
    if n < 126 then [128 * maskBit + n]
    else if n < 65536 then [128 * maskBit + 126] + BigEndian(n, 2)
    else [128 * maskBit + 127] + BigEndian(n, 8)
  }

  function Header(f: Frame, maskBit: nat): Bytes
    requires Sendable(f) && maskBit <= 1
  {
    [(if f.fin then 128 else 0) + f.opcode] + LengthBytes(|f.payload|, maskBit)
  }

  // Section 5.2; masked as in section 5.3.
  function Wire(f: Frame, key: Option<Key>): Bytes
    requires Sendable(f)
  {
    match key
    case None => Header(f, 0) + f.payload
    case Some(k) => Header(f, 1) + k + Masked(f.payload, k)
  }

  // The bytes of a masked frame: final bit and opcode, mask bit and length, the length in 2 or 8 bytes if it is 126 or
  // more, the key, and the payload with each bit flipped where the key has one.
  lemma WireByPosition(f: Frame, key: Key)
    requires Sendable(f)
    ensures var w, n := Wire(f, Some(key)), |f.payload|;
            var h := if n < 126 then 2 else if n < 65536 then 4 else 10;
            && |w| == h + 4 + n && w[0] == (if f.fin then 0x80 else 0) + f.opcode
            && w[1] == 0x80 + (if n < 126 then n else if n < 65536 then 126 else 127)
            && (forall k :: 2 <= k < h ==> w[k] == Digit(n, h - 1 - k))
            && w[h..h + 4] == key
            && forall i, k: nat :: 0 <= i < n && k < 8 ==>
                 Bit(w[h + 4 + i], k) == if Bit(f.payload[i], k) == Bit(key[i % 4], k) then 0 else 1
  {
    hide BigEndian, Digit, Bit, Xor;
    Widths();
    var n := |f.payload|;
    var h := if n < 126 then 2 else if n < 65536 then 4 else 10;
    var w, masked := Wire(f, Some(key)), Masked(f.payload, key);
    assert w == Header(f, 1) + key + masked && |Header(f, 1)| == h;
    forall k | 2 <= k < h ensures w[k] == Digit(n, h - 1 - k) {
      BigEndianDigits(n, h - 2, k - 2);
    }
    forall i, k: nat | 0 <= i < n && k < 8
      ensures Bit(w[h + 4 + i], k) == if Bit(f.payload[i], k) == Bit(key[i % 4], k) then 0 else 1
    {
      assert w[h + 4 + i] == masked[i];
      XorOfBytes(f.payload[i], key[i % 4], k);
    }
  }

  lemma XorOfBytes(a: Byte, b: Byte, k: nat)
    requires k < 8
    ensures Bit(Xor(a, b), k) == if Bit(a, k) == Bit(b, k) then 0 else 1
  {
    ByteIsEightBits();
    XorBit(a, b, 8, k);
  }

  lemma HeaderReadsBack(f: Frame, maskBit: nat, rest: Bytes)
    requires Sendable(f) && maskBit <= 1
    ensures var s := Header(f, maskBit) + rest;
            && Lengths(s) == Some((|Header(f, maskBit)|, |f.payload|))
            && (s[0] >= 128 <==> f.fin) && s[0] % 16 == f.opcode && (s[1] >= 128 <==> maskBit == 1)
  {
    hide BigEndian, FromBigEndian, Pow256;
    Widths();
    var n := |f.payload|;
    var s := Header(f, maskBit) + rest;
    if n < 126 {
    } else if n < 65536 {
      BigEndianReadsBack(n, 2);
      LengthAt(s, [s[0], s[1]], BigEndian(n, 2), rest);
    } else {
      BigEndianReadsBack(n, 8);
      LengthAt(s, [s[0], s[1]], BigEndian(n, 8), rest);
    }
  }

  lemma LengthAt(s: Bytes, front: Bytes, length: Bytes, rest: Bytes)
    requires s == front + length + rest
    ensures s[|front|..|front| + |length|] == length
  {
  }

  lemma FrameReadsBack(f: Frame, rest: Bytes)
    requires Sendable(f)
    ensures NextFrame(Wire(f, None) + rest) == Some(Parsed(f.fin, f.opcode, f.payload, rest))
  {
    hide Lengths, Header;
    HeaderReadsBack(f, 0, f.payload + rest);
    var s := Header(f, 0) + (f.payload + rest);
    assert s == Wire(f, None) + rest;
    var h := |Header(f, 0)|;
    assert s[h..h + |f.payload|] == f.payload && s[h + |f.payload|..] == rest;
  }

  // A frame that has not arrived completely is not read.
  lemma PartOfFrameIsNone(f: Frame, s: Bytes)
    requires Sendable(f) && s < Wire(f, None)
    ensures NextFrame(s) == None
  {
    var w := Wire(f, None);
    HeaderReadsBack(f, 0, f.payload);
    if Lengths(s).Some? {
      LengthsOfPart(s, w);
    }
  }

  lemma LengthsOfPart(s: Bytes, w: Bytes)
    requires s <= w && Lengths(s).Some?
    ensures Lengths(w) == Lengths(s)
  {
    if s[1] % 128 == 126 {
      assert s[2..4] == w[2..4];
    } else if s[1] % 128 == 127 {
      assert s[2..10] == w[2..10];
    }
  }

  // ----- reassembly -----

  predicate IsControl(f: Frame) {
    f.fin && (f.opcode == PING || f.opcode == PONG)
  }

  // One message: a text or binary frame, continued until the final bit, with pings and pongs anywhere before that.
  predicate IsFragmented(frames: seq<Frame>, started: bool) {
    frames != [] && Sendable(frames[0])
    && if IsControl(frames[0]) then IsFragmented(frames[1..], started)
       else
         && (if started then frames[0].opcode == CONTINUATION
             else frames[0].opcode == TEXT || frames[0].opcode == BINARY)
         && if frames[0].fin then |frames| == 1 else IsFragmented(frames[1..], true)
  }

  function Payload(frames: seq<Frame>): Bytes {
    if frames == [] then [] else (if IsControl(frames[0]) then [] else frames[0].payload) + Payload(frames[1..])
  }

  function WireAll(frames: seq<Frame>): Bytes
    requires forall i :: 0 <= i < |frames| ==> Sendable(frames[i])
  {
    if frames == [] then [] else Wire(frames[0], None) + WireAll(frames[1..])
  }

  lemma {:induction false} FragmentsAreSendable(frames: seq<Frame>, started: bool)
    requires IsFragmented(frames, started)
    ensures forall i :: 0 <= i < |frames| ==> Sendable(frames[i])
  {
    if IsControl(frames[0]) {
      FragmentsAreSendable(frames[1..], started);
    } else if !frames[0].fin {
      FragmentsAreSendable(frames[1..], true);
    }
  }

  // recv returns the concatenated payload and leaves exactly what follows the message.
  lemma {:induction false} MessageIsReassembled(frames: seq<Frame>, started: bool, frags: Bytes, rest: Bytes)
    requires IsFragmented(frames, started) && (!started ==> frags == [])
    requires forall i :: 0 <= i < |frames| ==> Sendable(frames[i])
    ensures Received(WireAll(frames) + rest, frags) == (Message(frags + Payload(frames)), rest)
    decreases |frames|
  {
    hide NextFrame, Wire;
    var f, tail := frames[0], frames[1..];
    var s := WireAll(frames) + rest;
    var behind := WireAll(tail) + rest;
    assert s == Wire(f, None) + behind;
    FrameReadsBack(f, behind);
    if IsControl(f) {
      MessageIsReassembled(tail, started, frags, rest);
      assert Payload(frames) == Payload(tail);
    } else {
      var soFar := if f.opcode == CONTINUATION then frags + f.payload else f.payload;
      assert soFar == frags + f.payload;
      assert Payload(frames) == f.payload + Payload(tail);
      assert frags + (f.payload + Payload(tail)) == soFar + Payload(tail);
      if f.fin {
        assert tail == [] && behind == rest;
        assert soFar + Payload(tail) == soFar;
      } else {
        MessageIsReassembled(tail, true, soFar, rest);
      }
    }
  }

  // Cut off anywhere before its end, a message is not delivered.
  lemma {:induction false} PartOfMessageIsClosed(frames: seq<Frame>, started: bool, frags: Bytes, s: Bytes)
    requires IsFragmented(frames, started)
    requires forall i :: 0 <= i < |frames| ==> Sendable(frames[i])
    requires s < WireAll(frames)
    ensures Received(s, frags).0 == Closed
    decreases |frames|
  {
    hide NextFrame, Wire;
    var f, tail := frames[0], frames[1..];
    var w := Wire(f, None);
    if |s| < |w| {
      assert s == w[..|s|];
      PartOfFrameIsNone(f, s);
    } else {
      var behind := s[|w|..];
      assert s == w + behind;
      assert behind < WireAll(tail);
      FrameReadsBack(f, behind);
      if IsControl(f) {
        PartOfMessageIsClosed(tail, started, frags, behind);
      } else if !f.fin {
        PartOfMessageIsClosed(tail, true, if f.opcode == CONTINUATION then frags + f.payload else f.payload, behind);
      }
    }
  }

  // ----- what the other side decodes -----

  // A server following section 5.3: the mask bit must be set, the payload is unmasked.
  function ServerDecode(s: Bytes): Option<(Frame, Bytes)> {
    var lengths := Lengths(s);
    if lengths.None? || s[1] < 128 then None
    else
      var (off, n) := lengths.value;
      if |s| < off + 4 + n then None
      else Some((Frame(s[0] >= 128, s[0] % 16, Masked(s[off + 4..off + 4 + n], s[off..off + 4])), s[off + 4 + n..]))
  }

  lemma SentFrameIsDecoded(f: Frame, mask: Key, rest: Bytes)
    requires Sendable(f)
    ensures ServerDecode(Wire(f, Some(mask)) + rest) == Some((f, rest))
  {
    hide Lengths, Header, Masked;
    var masked := Masked(f.payload, mask);
    HeaderReadsBack(f, 1, mask + masked + rest);
    var s := Header(f, 1) + (mask + masked + rest);
    assert s == Wire(f, Some(mask)) + rest;
    var h, n := |Header(f, 1)|, |f.payload|;
    assert s[h..h + 4] == mask && s[h + 4..h + 4 + n] == masked && s[h + 4 + n..] == rest;
    MaskedTwice(f.payload, mask);
  }
}
