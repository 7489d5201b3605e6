// The WebSocket client that talks to the local Codex daemon: frames as in
// sections 5.2 to 5.5 of RFC 6455, over a byte stream that arrives in chunks.
// The deadline and a closed connection are the end of what arrives.

module WebSocket {
  import opened Basics

  const MAX_FRAME: nat := 2 * 1024 * 1024
  const MAX_TRAFFIC: nat := 8 * 1024 * 1024
  const MAX_FRAMES: nat := 1024
  const TWO_BYTES: nat := 0x1_0000
  const EIGHT_BYTES: nat := 0x1_0000_0000_0000_0000

  datatype Problem =
    | Ended | UnsupportedFrame | InvalidControl | Disconnected | InvalidMessage | TooLarge | TooManyFrames

  // ----- Bits of an octet -----

  /** The highest bit. */
  predicate High(b: byte) {
    b >= 128
  }

  /** The four lowest bits. */
  function Opcode(b: byte): byte {
    b % 16
  }

  /** Some of the three bits between the highest and the opcode. */
  predicate Reserved(b: byte) {
    b / 16 % 8 != 0
  }

  function WithHigh(b: byte, high: bool): byte
    requires b < 128
  {
    if high then 128 + b else b
  }

  /** Exclusive or, bit by bit from the lowest. */
  function XorBits(a: nat, b: nat, bits: nat): (r: nat)
    ensures r < Pow2(bits)
  {
    if bits == 0 then 0 else 2 * XorBits(a / 2, b / 2, bits - 1) + (a % 2 + b % 2) % 2
  }

  function Xor(a: byte, b: byte): byte {
    assert Pow2(8) == 256 by { EightBits(); }
    XorBits(a as int, b as int, 8) as byte
  }

  lemma EightBits()
    ensures Pow2(8) == 256
  {
    assert Pow2(4) == 16;
  }

  lemma {:induction false} XorTwice(a: nat, b: nat, bits: nat)
    requires a < Pow2(bits)
    ensures XorBits(XorBits(a, b, bits), b, bits) == a
  {
    if bits > 0 {
      hide XorBits;
      var x, n := XorBits(a / 2, b / 2, bits - 1), XorBits(a, b, bits);
      XorStep(a, b, bits);
      XorStep(n, b, bits);
      LowestBit(x, a % 2, b % 2);
      assert a / 2 < Pow2(bits - 1);
      hide Pow2;
      XorTwice(a / 2, b / 2, bits - 1);
    }
  }

  lemma XorStep(a: nat, b: nat, bits: nat)
    requires bits > 0
    ensures XorBits(a, b, bits) == 2 * XorBits(a / 2, b / 2, bits - 1) + (a % 2 + b % 2) % 2
  {
  }

  lemma LowestBit(x: nat, a: nat, b: nat)
    requires a < 2 && b < 2
    ensures var n := 2 * x + (a + b) % 2;
            n / 2 == x && (n % 2 + b) % 2 == a
  {
  }

  // ----- Numbers in network order -----

  function Limit(width: nat): nat {
    if width == 0 then 1 else 256 * Limit(width - 1)
  }

  function BigEndian(n: nat, width: nat): (r: seq<byte>)
    ensures |r| == width
  {
    if width == 0 then [] else BigEndian(n / 256, width - 1) + [(n % 256) as byte]
  }

  function FromBigEndian(s: seq<byte>): nat {
    if s == [] then 0 else 256 * FromBigEndian(s[..|s| - 1]) + s[|s| - 1] as int
  }

  lemma Quotient(n: nat, l: nat)
    requires n < 256 * l
    ensures n / 256 < l && 256 * (n / 256) + n % 256 == n
  {
  }

  lemma {:induction false} BigEndianInverse(n: nat, width: nat)
    requires n < Limit(width)
    ensures FromBigEndian(BigEndian(n, width)) == n
  {
    if width > 0 {
      Quotient(n, Limit(width - 1));
      BigEndianInverse(n / 256, width - 1);
      LastOctet(BigEndian(n / 256, width - 1), (n % 256) as byte);
    }
  }

  lemma LastOctet(front: seq<byte>, last: byte)
    ensures FromBigEndian(front + [last]) == 256 * FromBigEndian(front) + last as int
  {
    assert (front + [last])[..|front|] == front;
  }

  lemma Limits()
    ensures Limit(2) == TWO_BYTES && Limit(8) == EIGHT_BYTES
  {
    assert Limit(1) == 256 && Limit(2) == 0x1_0000 && Limit(3) == 0x100_0000 && Limit(4) == 0x1_0000_0000;
    assert Limit(5) == 0x100_0000_0000 && Limit(6) == 0x1_0000_0000_0000 && Limit(7) == 0x100_0000_0000_0000;
  }

  // ----- Sending -----

  /** The length field, with the mask bit, in the shortest form that holds the size. */
  function LengthField(size: nat, masked: bool): (r: seq<byte>)
    requires size < EIGHT_BYTES
    ensures |r| > 0
  {
    if size < 126 then [WithHigh(size as byte, masked)]
    else if size < TWO_BYTES then [WithHigh(126, masked)] + BigEndian(size, 2)
    else [WithHigh(127, masked)] + BigEndian(size, 8)
  }

  function Masked(payload: seq<byte>, mask: seq<byte>): (r: seq<byte>)
    requires |mask| == 4
    ensures |r| == |payload| && forall i | 0 <= i < |r| :: r[i] == Xor(payload[i], mask[i % 4])
  {
    seq(|payload|, i requires 0 <= i < |payload| => Xor(payload[i], mask[i % 4]))
  }

  function FrameBytes(payload: seq<byte>, opcode: byte, mask: seq<byte>): seq<byte>
    requires |mask| == 4 && |payload| < EIGHT_BYTES && opcode < 16
  {
    [WithHigh(opcode, true)] + LengthField(|payload|, true) + mask + Masked(payload, mask)
  }

  datatype Sent = Sent(final: bool, opcode: byte, payload: seq<byte>)

  /** The size a length field gives, and how long the field is; a longer form than needed is refused. */
  function PeerLength(s: seq<byte>): (r: Option<(nat, nat)>)
    ensures r.Some? ==> 0 < r.value.1 <= |s|
  {
    if s == [] then None
    else
      var short := (s[0] % 128) as int;
      if short < 126 then Some((short, 1))
      else if short == 126 then
        if |s| < 3 || FromBigEndian(s[1..3]) < 126 then None else Some((FromBigEndian(s[1..3]), 3))
      else
        if |s| < 9 || FromBigEndian(s[1..9]) < TWO_BYTES then None else Some((FromBigEndian(s[1..9]), 9))
  }

  /** How a server reads one client frame: unreserved, masked, and then unmasked. */
  function PeerReads(s: seq<byte>): Option<(Sent, seq<byte>)> {
    if |s| < 2 || Reserved(s[0]) || !High(s[1]) then None
    else match PeerLength(s[1..])
      case None => None
      case Some((size, used)) =>
        var rest := s[1 + used..];
        if |rest| < 4 + size then None
        else Some((Sent(High(s[0]), Opcode(s[0]), Masked(rest[4..4 + size], rest[..4])), rest[4 + size..]))
  }

  lemma Unmask(payload: seq<byte>, mask: seq<byte>)
    requires |mask| == 4
    ensures Masked(Masked(payload, mask), mask) == payload
  {
    forall i | 0 <= i < |payload| ensures Masked(Masked(payload, mask), mask)[i] == payload[i] {
      EightBits();
      XorTwice(payload[i] as int, mask[i % 4] as int, 8);
    }
  }

  lemma FirstOctet(opcode: byte, final: bool)
    requires opcode < 16
    ensures var b := WithHigh(opcode, final); Opcode(b) == opcode && !Reserved(b) && High(b) == final
  {
  }

  lemma LengthOctet(b: byte, masked: bool)
    requires b < 128
    ensures WithHigh(b, masked) % 128 == b && High(WithHigh(b, masked)) == masked
  {
  }

  lemma LengthIsRead(size: nat, masked: bool, rest: seq<byte>)
    requires size < EIGHT_BYTES
    ensures var field := LengthField(size, masked);
            PeerLength(field + rest) == Some((size, |field|)) && High(field[0]) == masked
  {
    var s := LengthField(size, masked) + rest;
    LengthOctet(126, masked);
    LengthOctet(127, masked);
    Limits();
    hide WithHigh;
    if size < 126 {
      LengthOctet(size as byte, masked);
    } else if size < TWO_BYTES {
      BigEndianInverse(size, 2);
      assert s[1..3] == BigEndian(size, 2);
    } else {
      BigEndianInverse(size, 8);
      assert s[1..9] == BigEndian(size, 8);
    }
  }

  lemma Parts(first: byte, field: seq<byte>, mask: seq<byte>, body: seq<byte>, rest: seq<byte>)
    requires |field| > 0 && |mask| == 4
    ensures var s := [first] + field + mask + body + rest;
            && s[0] == first && s[1] == field[0] && s[1..] == field + (mask + body + rest)
            && s[1 + |field|..] == mask + body + rest
    ensures var after := mask + body + rest;
            after[..4] == mask && after[4..4 + |body|] == body && after[4 + |body|..] == rest
  {
  }

  /** Whatever the mask and the length form, a server gets the payload that was sent. */
  lemma FrameRoundTrip(payload: seq<byte>, opcode: byte, mask: seq<byte>, rest: seq<byte>)
    requires |mask| == 4 && |payload| < EIGHT_BYTES && opcode < 16
    ensures PeerReads(FrameBytes(payload, opcode, mask) + rest) == Some((Sent(true, opcode, payload), rest))
  {
    hide LengthField, PeerLength, WithHigh, High, Opcode, Reserved;
    var field := LengthField(|payload|, true);
    var body := Masked(payload, mask);
    FirstOctet(opcode, true);
    LengthIsRead(|payload|, true, mask + body + rest);
    Unmask(payload, mask);
    Parts(WithHigh(opcode, true), field, mask, body, rest);
  }

  // ----- Receiving, on the whole stream -----

  datatype Frame = Frame(final: bool, opcode: byte, payload: seq<byte>)

  /** Size and length of the first two octets and the length field; any form is accepted. */
  function Header(s: seq<byte>): (r: Option<(nat, nat)>)
    ensures r.Some? ==> 2 <= r.value.1 <= |s|
  {
    if |s| < 2 then None
    else
      var short := (s[1] % 128) as int;
      if short < 126 then Some((short, 2))
      else if short == 126 then if |s| < 4 then None else Some((FromBigEndian(s[2..4]), 4))
      else if |s| < 10 then None else Some((FromBigEndian(s[2..10]), 10))
  }

  /** The next frame, and the stream behind it. */
  function ReadFrame(s: seq<byte>): (r: Result<(Frame, seq<byte>), Problem>)
    ensures r.Ok? ==> |r.value.1| < |s|
  {
    match Header(s)
    case None => Err(Ended)
    case Some((size, used)) =>
      if Reserved(s[0]) || High(s[1]) || size > MAX_FRAME then Err(UnsupportedFrame)
      else if |s| < used + size then Err(Ended)
      else Ok((Frame(High(s[0]), Opcode(s[0]), s[used..used + size]), s[used + size..]))
  }

  /** What became of a message: its bytes, the pings met on the way, and the stream behind it. */
  datatype Reading = Reading(result: Result<seq<byte>, Problem>, pings: seq<seq<byte>>, rest: seq<byte>)

  function Refused(p: Problem): Reading {
    Reading(Err(p), [], [])
  }

  /** The next message, given its fragments and the pings so far and how many frames it may still take. */
  function ReadMessage(s: seq<byte>, message: seq<byte>, fragmented: bool, pings: seq<seq<byte>>, frames: nat): Reading
    decreases frames
  {
    if frames == 0 then Refused(TooManyFrames)
    else match ReadFrame(s)
      case Err(p) => Refused(p)
      case Ok((f, rest)) =>
        if f.opcode >= 8 then
          if !f.final || |f.payload| > 125 || f.opcode > 10 then Refused(InvalidControl)
          else if f.opcode == 8 then Refused(Disconnected)
          else ReadMessage(rest, message, fragmented, if f.opcode == 9 then pings + [f.payload] else pings, frames - 1)
        else if f.opcode > 1 || (f.opcode == 0) != fragmented then Refused(InvalidMessage)
        else if |message + f.payload| > MAX_FRAME then Refused(TooLarge)
        else if f.final then Reading(Ok(message + f.payload), pings, rest)
        else ReadMessage(rest, message + f.payload, true, pings, frames - 1)
  }

  // ----- Receiving, chunk by chunk -----

  /** What can still arrive: an empty chunk is a closed connection, and traffic is limited. */
  function Arriving(chunks: seq<seq<byte>>, traffic: nat): seq<byte>
    decreases |chunks|
  {
    if chunks == [] || chunks[0] == [] || traffic + |chunks[0]| > MAX_TRAFFIC then []
    else chunks[0] + Arriving(chunks[1..], traffic + |chunks[0]|)
  }

  /** The payloads of the pongs among frames sent. */
  ghost predicate AreFrames(sent: seq<seq<byte>>, opcode: byte, payloads: seq<seq<byte>>) {
    |sent| == |payloads|
    && forall i | 0 <= i < |sent| :: PeerReads(sent[i]) == Some((Sent(true, opcode, payloads[i]), []))
  }

  class CodexRpc {
    var buffer: seq<byte>
    var traffic: nat
    var chunks: seq<seq<byte>>
    var sent: seq<seq<byte>>

    constructor (incoming: seq<seq<byte>>)
      ensures Stream() == Arriving(incoming, 0) && sent == []
    {
      buffer, traffic, chunks, sent := [], 0, incoming, [];
      new;
      assert [] + Arriving(incoming, 0) == Arriving(incoming, 0);
    }

    /** All bytes the client can still take, however they are chunked. */
    ghost function Stream(): seq<byte>
      reads this
    {
      buffer + Arriving(chunks, traffic)
    }

    method Receive() returns (ok: bool)
      modifies this`buffer, this`traffic, this`chunks
      ensures Stream() == old(Stream())
      ensures ok ==> |chunks| < |old(chunks)|
      ensures !ok ==> Stream() == buffer == old(buffer)
    {
      if chunks == [] || chunks[0] == [] {
        assert buffer + [] == buffer;
        return false;
      }
      var data := chunks[0];
      if traffic + |data| > MAX_TRAFFIC {
        assert buffer + [] == buffer;
        traffic, chunks := traffic + |data|, chunks[1..];
        return false;
      }
      assert buffer + data + Arriving(chunks[1..], traffic + |data|) == Stream();
      traffic, chunks, buffer := traffic + |data|, chunks[1..], buffer + data;
      return true;
    }

    /** Takes so many bytes off the stream, or finds that it ends before. */
    method Take(count: nat) returns (value: Option<seq<byte>>)
      modifies this`buffer, this`traffic, this`chunks
      ensures value.Some? <==> count <= |old(Stream())|
      ensures value.Some? ==> value.value == old(Stream())[..count] && Stream() == old(Stream())[count..]
    {
      hide Arriving;
      while |buffer| < count
        invariant Stream() == old(Stream())
        decreases |chunks|
      {
        var ok := Receive();
        if !ok {
          return None;
        }
      }
      value := Some(buffer[..count]);
      ghost var later := Arriving(chunks, traffic);
      assert (buffer + later)[..count] == buffer[..count] && (buffer + later)[count..] == buffer[count..] + later;
      buffer := buffer[count..];
    }

    method SendFrame(payload: seq<byte>, opcode: byte, mask: seq<byte>)
      requires |mask| == 4 && |payload| < EIGHT_BYTES && opcode < 16
      modifies this`sent
      ensures sent == old(sent) + [FrameBytes(payload, opcode, mask)]
    {
      sent := sent + [FrameBytes(payload, opcode, mask)];
    }

    /** The first two octets, and the size that follows from them. */
    method TakeHeader() returns (r: Option<(byte, byte, nat)>)
      modifies this`buffer, this`traffic, this`chunks
      ensures match Header(old(Stream()))
              case None => r == None
              case Some((size, used)) =>
                r == Some((old(Stream())[0], old(Stream())[1], size)) && Stream() == old(Stream())[used..]
    {
      hide Arriving, FromBigEndian;
      ghost var s := Stream();
      var head := Take(2);
      if head.None? {
        return None;
      }
      var first, second := head.value[0], head.value[1];
      var short := (second % 128) as int;
      if short < 126 {
        return Some((first, second, short));
      }
      var width := if short == 126 then 2 else 8;
      var field := Take(width);
      if field.None? {
        return None;
      }
      assert field.value == s[2..2 + width] && Stream() == s[2 + width..];
      return Some((first, second, FromBigEndian(field.value)));
    }

    method TakeFrame() returns (r: Result<Frame, Problem>)
      modifies this`buffer, this`traffic, this`chunks
      ensures match ReadFrame(old(Stream()))
              case Err(p) => r == Err(p)
              case Ok((f, rest)) => r == Ok(f) && Stream() == rest
    {
      hide Arriving, Reserved, High, Opcode, Header;
      ghost var s := Stream();
      var header := TakeHeader();
      if header.None? {
        return Err(Ended);
      }
      var (first, second, size) := header.value;
      ghost var used := Header(s).value.1;
      if Reserved(first) || High(second) || size > MAX_FRAME {
        return Err(UnsupportedFrame);
      }
      var payload := Take(size);
      if payload.None? {
        return Err(Ended);
      }
      assert payload.value == s[used..used + size] && Stream() == s[used + size..];
      return Ok(Frame(High(first), Opcode(first), payload.value));
    }

    /** Answers a ping with the same payload, under a fresh mask. */
    method Pong(payload: seq<byte>)
      requires |payload| <= 125
      modifies this`sent
      ensures |sent| == |old(sent)| + 1 && sent[..|old(sent)|] == old(sent)
      ensures PeerReads(sent[|old(sent)|]) == Some((Sent(true, 10, payload), []))
    {
      hide PeerReads, FrameBytes;
      var m0: byte, m1: byte, m2: byte, m3: byte := *, *, *, *;
      var mask := [m0, m1, m2, m3];
      FrameRoundTrip(payload, 10, mask, []);
      assert FrameBytes(payload, 10, mask) + [] == FrameBytes(payload, 10, mask);
      SendFrame(payload, 10, mask);
    }

    /** Reads a message; the result and the pongs depend on the stream alone, not on its chunks. */
    method Message() returns (r: Result<seq<byte>, Problem>)
      modifies this
      ensures var reading := ReadMessage(old(Stream()), [], false, [], MAX_FRAMES);
              && r == reading.result
              && (r.Ok? ==> Stream() == reading.rest
                             && old(sent) <= sent && AreFrames(sent[|old(sent)|..], 10, reading.pings))
    {
      hide ReadFrame, PeerReads, FrameBytes, Arriving;
      var message: seq<byte> := [];
      var fragmented := false;
      ghost var pings: seq<seq<byte>> := [];
      var n := MAX_FRAMES;
      while n > 0
        invariant 0 <= n <= MAX_FRAMES
        invariant old(sent) <= sent && AreFrames(sent[|old(sent)|..], 10, pings)
        invariant ReadMessage(old(Stream()), [], false, [], MAX_FRAMES)
                  == ReadMessage(Stream(), message, fragmented, pings, n)
      {
        var frame := TakeFrame();
        if frame.Err? {
          return Err(frame.error);
        }
        var f := frame.value;
        if f.opcode >= 8 {
          if !f.final || |f.payload| > 125 || f.opcode > 10 {
            return Err(InvalidControl);
          }
          if f.opcode == 8 {
            return Err(Disconnected);
          }
          if f.opcode == 9 {
            Pong(f.payload);
            pings := pings + [f.payload];
          }
          n := n - 1;
          continue;
        }
        if f.opcode > 1 || (f.opcode == 0) != fragmented {
          return Err(InvalidMessage);
        }
        message := message + f.payload;
        if |message| > MAX_FRAME {
          return Err(TooLarge);
        }
        if f.final {
          return Ok(message);
        }
        fragmented := true;
        n := n - 1;
      }
      return Err(TooManyFrames);
    }
  }

  // ----- Chunking does not matter -----

  function Total(chunks: seq<seq<byte>>): nat {
    if chunks == [] then 0 else |chunks[0]| + Total(chunks[1..])
  }

  /** Within the traffic limit all bytes arrive, so any two chunkings give the same stream. */
  lemma {:induction false} AllArrives(chunks: seq<seq<byte>>, traffic: nat)
    requires (forall c <- chunks :: c != []) && traffic + Total(chunks) <= MAX_TRAFFIC
    ensures Arriving(chunks, traffic) == Flatten(chunks)
    decreases |chunks|
  {
    if chunks != [] {
      assert chunks[0] in chunks && forall c <- chunks[1..] :: c in chunks;
      AllArrives(chunks[1..], traffic + |chunks[0]|);
    }
  }

  // ----- Messages and their frames -----

  /** A server frame: unmasked, in the shortest length form. */
  function ServerFrame(f: Frame): seq<byte>
    requires f.opcode < 16 && |f.payload| < EIGHT_BYTES
  {
    [WithHigh(f.opcode, f.final)] + LengthField(|f.payload|, false) + f.payload
  }

  /** The frames of one message: one text fragment, then continuations, with control frames between. */
  predicate IsMessage(frames: seq<Frame>, fragmented: bool)
    decreases |frames|
  {
    frames != []
    && var f := frames[0];
       if f.opcode >= 8 then
         (f.opcode == 9 || f.opcode == 10) && f.final && |f.payload| <= 125 && IsMessage(frames[1..], fragmented)
       else
         f.opcode == (if fragmented then 0 else 1)
         && if f.final then |frames| == 1 else IsMessage(frames[1..], true)
  }

  function Fragments(frames: seq<Frame>): seq<byte> {
    if frames == [] then []
    else (if frames[0].opcode >= 8 then [] else frames[0].payload) + Fragments(frames[1..])
  }

  function Pings(frames: seq<Frame>): seq<seq<byte>> {
    if frames == [] then []
    else (if frames[0].opcode == 9 then [frames[0].payload] else []) + Pings(frames[1..])
  }

  /** The stream begins with these frames, in any of the length forms. */
  predicate Parses(s: seq<byte>, frames: seq<Frame>, rest: seq<byte>)
    decreases |frames|
  {
    if frames == [] then s == rest
    else
      match ReadFrame(s)
      case Err(_) => false
      case Ok((f, later)) => f == frames[0] && Parses(later, frames[1..], rest)
  }

  lemma ParsesStep(s: seq<byte>, frames: seq<Frame>, rest: seq<byte>)
    requires Parses(s, frames, rest) && frames != []
    ensures ReadFrame(s).Ok? && ReadFrame(s).value.0 == frames[0]
    ensures Parses(ReadFrame(s).value.1, frames[1..], rest)
    ensures |frames| == 1 ==> ReadFrame(s).value.1 == rest
  {
    hide ReadFrame;
  }

  lemma FramesStep(frames: seq<Frame>)
    requires frames != []
    ensures Fragments(frames) == (if frames[0].opcode >= 8 then [] else frames[0].payload) + Fragments(frames[1..])
    ensures Pings(frames) == (if frames[0].opcode == 9 then [frames[0].payload] else []) + Pings(frames[1..])
    ensures |frames| == 1 && frames[0].opcode < 8 ==> Fragments(frames) == frames[0].payload && Pings(frames) == []
  {
    if |frames| == 1 {
      assert frames[1..] == [] && frames[0].payload + [] == frames[0].payload;
    }
  }

  /** What reading does with a frame that is in order. */
  lemma FrameIsTaken(s: seq<byte>, message: seq<byte>, fragmented: bool, pings: seq<seq<byte>>, n: nat,
                     f: Frame, later: seq<byte>)
    requires n > 0 && ReadFrame(s) == Ok((f, later))
    ensures (f.opcode == 9 || f.opcode == 10) && f.final && |f.payload| <= 125 ==>
              ReadMessage(s, message, fragmented, pings, n)
              == ReadMessage(later, message, fragmented, if f.opcode == 9 then pings + [f.payload] else pings, n - 1)
    ensures f.opcode == (if fragmented then 0 else 1) && |message + f.payload| <= MAX_FRAME ==>
              ReadMessage(s, message, fragmented, pings, n)
              == if f.final then Reading(Ok(message + f.payload), pings, later)
                 else ReadMessage(later, message + f.payload, true, pings, n - 1)
  {
    hide ReadFrame;
  }

  /** A message is accepted exactly when its frames are those of a message within the limits. */
  lemma {:induction false} AcceptsMessages(s: seq<byte>, message: seq<byte>, fragmented: bool, pings: seq<seq<byte>>,
                                           n: nat, frames: seq<Frame>, rest: seq<byte>)
    requires Parses(s, frames, rest) && IsMessage(frames, fragmented)
    requires |frames| <= n && |message + Fragments(frames)| <= MAX_FRAME
    ensures ReadMessage(s, message, fragmented, pings, n)
            == Reading(Ok(message + Fragments(frames)), pings + Pings(frames), rest)
    decreases |frames|
  {
    hide ReadFrame, ReadMessage, Parses, Fragments, Pings;
    ParsesStep(s, frames, rest);
    FramesStep(frames);
    var f := frames[0];
    var later := ReadFrame(s).value.1;
    FrameIsTaken(s, message, fragmented, pings, n, f, later);
    if f.opcode >= 8 {
      var next := if f.opcode == 9 then pings + [f.payload] else pings;
      assert Fragments(frames) == [] + Fragments(frames[1..]) == Fragments(frames[1..]);
      AcceptsMessages(later, message, fragmented, next, n - 1, frames[1..], rest);
      assert next + Pings(frames[1..]) == pings + Pings(frames);
    } else if f.final {
      assert pings + [] == pings;
    } else {
      assert message + Fragments(frames) == message + f.payload + Fragments(frames[1..]);
      assert |message + f.payload| <= MAX_FRAME;
      AcceptsMessages(later, message + f.payload, true, pings, n - 1, frames[1..], rest);
      assert Pings(frames) == [] + Pings(frames[1..]);
    }
  }

  lemma {:induction false} OnlyMessages(s: seq<byte>, message: seq<byte>, fragmented: bool,
                                        pings: seq<seq<byte>>, n: nat)
    returns (frames: seq<Frame>)
    requires ReadMessage(s, message, fragmented, pings, n).result.Ok?
    ensures var r := ReadMessage(s, message, fragmented, pings, n);
            && |frames| <= n && IsMessage(frames, fragmented) && Parses(s, frames, r.rest)
            && r == Reading(Ok(message + Fragments(frames)), pings + Pings(frames), r.rest)
            && |r.result.value| <= MAX_FRAME
    decreases n
  {
    hide ReadFrame, Fragments, Pings, IsMessage;
    var (f, later) := ReadFrame(s).value;
    if f.opcode >= 8 {
      var next := if f.opcode == 9 then pings + [f.payload] else pings;
      var behind := OnlyMessages(later, message, fragmented, next, n - 1);
      frames := [f] + behind;
      FirstFrame(f, behind, fragmented);
      assert next + Pings(behind) == pings + Pings(frames);
    } else if f.final {
      frames := [f];
      FirstFrame(f, [], fragmented);
      assert [f] + [] == [f] && pings + [] == pings;
    } else {
      var behind := OnlyMessages(later, message + f.payload, true, pings, n - 1);
      frames := [f] + behind;
      FirstFrame(f, behind, fragmented);
      assert message + Fragments(frames) == message + f.payload + Fragments(behind);
    }
  }

  lemma FirstFrame(f: Frame, behind: seq<Frame>, fragmented: bool)
    ensures var frames := [f] + behind;
            && frames[0] == f && frames[1..] == behind
            && Fragments(frames) == (if f.opcode >= 8 then Fragments(behind) else f.payload + Fragments(behind))
            && Pings(frames) == (if f.opcode == 9 then [f.payload] + Pings(behind) else Pings(behind))
            && (behind == [] && f.opcode < 8 ==> Fragments(frames) == f.payload && Pings(frames) == [])
            && (IsMessage(frames, fragmented) <==>
                  if f.opcode >= 8 then
                    (f.opcode == 9 || f.opcode == 10) && f.final && |f.payload| <= 125 && IsMessage(behind, fragmented)
                  else f.opcode == (if fragmented then 0 else 1)
                        && if f.final then behind == [] else IsMessage(behind, true))
  {
    var frames := [f] + behind;
    assert frames[1..] == behind;
    assert f.payload + [] == f.payload && [] + Fragments(behind) == Fragments(behind)
           && [] + Pings(behind) == Pings(behind);
  }

  /** The client reads a server frame back. */
  lemma ServerFrameIsRead(f: Frame, rest: seq<byte>)
    requires f.opcode < 16 && |f.payload| <= MAX_FRAME
    ensures ReadFrame(ServerFrame(f) + rest) == Ok((f, rest))
  {
    hide LengthField, PeerLength, WithHigh, High, Opcode, Reserved, Header, FromBigEndian;
    var size := |f.payload|;
    var field := LengthField(size, false);
    FirstOctet(f.opcode, f.final);
    LengthIsRead(size, false, f.payload + rest);
    ServerParts(WithHigh(f.opcode, f.final), field, f.payload, rest);
    HeaderIsPeerLength(ServerFrame(f) + rest);
  }

  lemma ServerParts(first: byte, field: seq<byte>, payload: seq<byte>, rest: seq<byte>)
    requires |field| > 0
    ensures var s := [first] + field + payload + rest;
            && s[0] == first && s[1] == field[0] && s[1..] == field + (payload + rest)
            && s[1 + |field|..1 + |field| + |payload|] == payload && s[1 + |field| + |payload|..] == rest
  {
  }

  /** Where the shortest form is used, client and server agree on the size. */
  lemma HeaderIsPeerLength(s: seq<byte>)
    requires s != [] && PeerLength(s[1..]).Some?
    ensures var (size, used) := PeerLength(s[1..]).value; Header(s) == Some((size, 1 + used))
  {
    hide FromBigEndian;
    var tail := s[1..];
    assert |tail| >= 3 ==> tail[1..3] == s[2..4];
    assert |tail| >= 9 ==> tail[1..9] == s[2..10];
  }

  function ServerFrames(frames: seq<Frame>): seq<byte>
    requires forall f <- frames :: f.opcode < 16 && |f.payload| <= MAX_FRAME
  {
    if frames == [] then [] else ServerFrame(frames[0]) + ServerFrames(frames[1..])
  }

  /** Any well-formed message a server frames is received, with its pings, wherever it was cut into frames. */
  lemma {:induction false} ServerFramesParse(frames: seq<Frame>, rest: seq<byte>)
    requires forall f <- frames :: f.opcode < 16 && |f.payload| <= MAX_FRAME
    ensures Parses(ServerFrames(frames) + rest, frames, rest)
    decreases |frames|
  {
    hide ReadFrame, ServerFrame;
    if frames == [] {
      assert [] + rest == rest;
    } else {
      var behind := ServerFrames(frames[1..]) + rest;
      assert ServerFrames(frames) + rest == ServerFrame(frames[0]) + behind;
      ServerFrameIsRead(frames[0], behind);
      ServerFramesParse(frames[1..], rest);
    }
  }

  lemma MessageReceived(frames: seq<Frame>, rest: seq<byte>)
    requires forall f <- frames :: f.opcode < 16 && |f.payload| <= MAX_FRAME
    requires IsMessage(frames, false) && |frames| <= MAX_FRAMES && |Fragments(frames)| <= MAX_FRAME
    ensures ReadMessage(ServerFrames(frames) + rest, [], false, [], MAX_FRAMES)
            == Reading(Ok(Fragments(frames)), Pings(frames), rest)
  {
    hide IsMessage, Fragments, Pings, ServerFrames, Parses, ReadMessage;
    ServerFramesParse(frames, rest);
    assert [] + Fragments(frames) == Fragments(frames) && [] + Pings(frames) == Pings(frames);
    AcceptsMessages(ServerFrames(frames) + rest, [], false, [], MAX_FRAMES, frames, rest);
  }
}
