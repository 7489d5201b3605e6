// Exactly which bytes are a frame for the WebSocket client, and how it refuses
// the others.

module WebSocketFrames {
  import opened Basics
  import opened WebSocket

  /** The length field of an unmasked frame; none of the three forms has to be the shortest. */
  predicate LengthForm(field: seq<byte>, size: nat) {
    || (size < 126 && field == [size as byte])
    || (size < 65536 && field == [126] + BigEndian(size, 2))
    || (size < 0x1_0000_0000_0000_0000 && field == [127] + BigEndian(size, 8))
  }

  /** Two octets of which the first has no reserved bit set, the length, the payload, and what follows. */
  ghost predicate FrameForm(s: seq<byte>, f: Frame, rest: seq<byte>) {
    f.opcode < 16 && |f.payload| <= MAX_FRAME
    && exists field | LengthForm(field, |f.payload|) ::
         s == [f.opcode + if f.final then 128 else 0] + field + f.payload + rest
  }

  lemma {:induction false} FromBigEndianInverse(s: seq<byte>)
    ensures FromBigEndian(s) < Limit(|s|) && BigEndian(FromBigEndian(s), |s|) == s
  {
    if s != [] {
      var front, last := s[..|s| - 1], s[|s| - 1];
      FromBigEndianInverse(front);
      assert s == front + [last];
      assert FromBigEndian(s) / 256 == FromBigEndian(front) && FromBigEndian(s) % 256 == last as int;
    }
  }

  lemma FirstOctetIs(b: byte)
    ensures Opcode(b) < 16
    ensures !Reserved(b) ==> b == Opcode(b) + if High(b) then 128 else 0
  {
  }

  lemma OctetReads(opcode: byte, final: bool)
    requires opcode < 16
    ensures var b := opcode + if final then 128 else 0;
            Opcode(b) == opcode && High(b) == final && !Reserved(b)
  {
  }

  /** The header gives the size of whichever length form stands there. */
  lemma LengthFormRead(first: byte, field: seq<byte>, size: nat, rest: seq<byte>)
    requires LengthForm(field, size)
    ensures var s := [first] + field + rest;
            Header(s) == Some((size, 1 + |field|)) && s[0] == first && !High(s[1]) && s[1 + |field|..] == rest
  {
    Limits();
    var s := [first] + field + rest;
    if |field| == 1 {
    } else if |field| == 3 {
      BigEndianInverse(size, 2);
      assert s[2..4] == BigEndian(size, 2);
    } else {
      BigEndianInverse(size, 8);
      assert s[2..10] == BigEndian(size, 8);
    }
  }

  lemma HeaderIsForm(s: seq<byte>)
    requires Header(s).Some? && !High(s[1])
    ensures var (size, used) := Header(s).value; LengthForm(s[1..used], size)
  {
    Limits();
    if s[1] == 126 {
      FromBigEndianInverse(s[2..4]);
      assert s[1..4] == [126] + s[2..4];
    } else if s[1] == 127 {
      FromBigEndianInverse(s[2..10]);
      assert s[1..10] == [127] + s[2..10];
    } else {
      assert s[1..2] == [s[1]];
    }
  }

  /** The client takes a frame from the stream exactly if one within its limit stands there. */
  lemma FrameIsReadExactly(s: seq<byte>, f: Frame, rest: seq<byte>)
    ensures ReadFrame(s) == Ok((f, rest)) <==> FrameForm(s, f, rest)
  {
    hide Header, LengthForm, Opcode, High, Reserved;
    if ReadFrame(s) == Ok((f, rest)) {
      var (size, used) := Header(s).value;
      FirstOctetIs(s[0]);
      HeaderIsForm(s);
      assert s == [s[0]] + s[1..used] + s[used..used + size] + s[used + size..];
    }
    if FrameForm(s, f, rest) {
      var first := f.opcode + if f.final then 128 else 0;
      var field :| LengthForm(field, |f.payload|) && s == [first] + field + f.payload + rest;
      OctetReads(f.opcode, f.final);
      LengthFormRead(first, field, |f.payload|, f.payload + rest);
      assert s == [first] + field + (f.payload + rest);
      var n := 1 + |field|;
      assert s[n..] == f.payload + rest && s[n..n + |f.payload|] == f.payload && s[n + |f.payload|..] == rest;
    }
  }

  lemma ReservedIs(b: byte)
    ensures Reserved(b) <==> b % 128 >= 16
  {
    var q := b as int / 16;
    assert b as int == 16 * q + b as int % 16;
    assert b as int % 128 == 16 * (q % 8) + b as int % 16;
  }

  /** A frame with a reserved bit, with a mask, or over the limit is refused as soon as its header is there. */
  lemma UnsupportedIsRefused(first: byte, field: seq<byte>, size: nat, rest: seq<byte>)
    requires LengthForm(field, size) && (first % 128 >= 16 || size > MAX_FRAME)
    ensures ReadFrame([first] + field + rest) == Err(UnsupportedFrame)
  {
    hide LengthForm, Header, Reserved, High, Opcode;
    ReservedIs(first);
    LengthFormRead(first, field, size, rest);
  }

  lemma MaskedIsRefused(s: seq<byte>)
    requires |s| >= 10 && s[1] >= 128
    ensures ReadFrame(s) == Err(UnsupportedFrame)
  {
  }

  /** What is missing of a frame is not made up: the stream has ended. */
  lemma CutIsRefused(first: byte, field: seq<byte>, size: nat, rest: seq<byte>)
    requires LengthForm(field, size) && first % 128 < 16 && |rest| < size <= MAX_FRAME
    ensures ReadFrame([first] + field + rest) == Err(Ended)
  {
    hide LengthForm, Header, Reserved, High, Opcode;
    ReservedIs(first);
    LengthFormRead(first, field, size, rest);
  }

  /** What a frame that does not fit ends a message with. */
  lemma FrameEndsMessage(s: seq<byte>, message: seq<byte>, fragmented: bool, pings: seq<seq<byte>>, n: nat,
                         f: Frame, later: seq<byte>)
    requires n > 0 && ReadFrame(s) == Ok((f, later))
    ensures var r := ReadMessage(s, message, fragmented, pings, n).result;
            && (f.opcode >= 8 && (!f.final || |f.payload| > 125) ==> r == Err(InvalidControl))
            && (f.opcode > 10 ==> r == Err(InvalidControl))
            && (f.opcode == 8 && f.final && |f.payload| <= 125 ==> r == Err(Disconnected))
            && (2 <= f.opcode <= 7 ==> r == Err(InvalidMessage))
            && (f.opcode == (if fragmented then 1 else 0) ==> r == Err(InvalidMessage))
            && (f.opcode == (if fragmented then 0 else 1) && |message| + |f.payload| > MAX_FRAME ==> r == Err(TooLarge))
  {
    hide ReadFrame;
  }

  /** A stream of nothing but pings and pongs is given up after so many frames. */
  lemma {:induction false} OnlyControlFrames(s: seq<byte>, message: seq<byte>, fragmented: bool,
                                             pings: seq<seq<byte>>, n: nat, frames: seq<Frame>, rest: seq<byte>)
    requires |frames| == n && Parses(s, frames, rest)
    requires forall f <- frames :: (f.opcode == 9 || f.opcode == 10) && f.final && |f.payload| <= 125
    ensures ReadMessage(s, message, fragmented, pings, n).result == Err(TooManyFrames)
    decreases n
  {
    hide ReadFrame;
    if n > 0 {
      var f := frames[0];
      var later := ReadFrame(s).value.1;
      assert f in frames && forall g <- frames[1..] :: g in frames;
      OnlyControlFrames(later, message, fragmented, if f.opcode == 9 then pings + [f.payload] else pings, n - 1,
                        frames[1..], rest);
    }
  }
}
