// The base64url decoder for JWT payloads, against the encoder of sections 4
// and 5 of RFC 4648 without padding (section 3.2).

module Base64Url {
  import opened Basics

  // ----- The encoder: the reference the decoder is proved against -----

  function Symbol(v: int): byte
    requires 0 <= v < 64
  {
    if v < 26 then (65 + v) as byte
    else if v < 52 then (97 + v - 26) as byte
    else if v < 62 then (48 + v - 52) as byte
    else if v == 62 then 45 else 95
  }

  /** Three bytes make four symbols; a shorter last group makes two or three. */
  function Encode(bytes: seq<byte>): seq<byte> {
    if bytes == [] then []
    else
      var first := bytes[0] as int;
      if |bytes| == 1 then [Symbol(first / 4), Symbol(first % 4 * 16)]
      else
        var second := bytes[1] as int;
        if |bytes| == 2 then
          [Symbol(first / 4), Symbol(first % 4 * 16 + second / 16), Symbol(second % 16 * 4)]
        else
          var third := bytes[2] as int;
          [Symbol(first / 4), Symbol(first % 4 * 16 + second / 16),
           Symbol(second % 16 * 4 + third / 64), Symbol(third % 64)] + Encode(bytes[3..])
  }

  function SymbolValue(b: byte): Option<nat> {
    if 65 <= b <= 90 then Some(b as int - 65)
    else if 97 <= b <= 122 then Some(b as int - 97 + 26)
    else if 48 <= b <= 57 then Some(b as int - 48 + 52)
    else if b == 45 then Some(62)
    else if b == 95 then Some(63)
    else None
  }

  lemma ValueOfSymbol(v: int)
    requires 0 <= v < 64
    ensures SymbolValue(Symbol(v)) == Some(v)
  {
  }

  lemma SymbolOfValue(b: byte)
    ensures SymbolValue(b).Some? ==> SymbolValue(b).value < 64 && Symbol(SymbolValue(b).value) == b
  {
  }

  /** The symbols and their values are inverse to each other. */
  lemma SymbolsInvert(b: byte)
    ensures SymbolValue(b).Some? ==> SymbolValue(b).value < 64 && Symbol(SymbolValue(b).value) == b
    ensures forall v: int | 0 <= v < 64 :: SymbolValue(Symbol(v)) == Some(v)
  {
    hide Symbol, SymbolValue;
    SymbolOfValue(b);
    forall v: int | 0 <= v < 64 ensures SymbolValue(Symbol(v)) == Some(v) {
      ValueOfSymbol(v);
    }
  }

  // ----- The bit accumulator -----

  const U32_LIMIT: int := 0x1_0000_0000

  datatype Bits = Bits(accumulator: nat, count: nat) {
    /** What the loop keeps: fewer than eight bits, nothing above them. */
    ghost predicate Valid() {
      count in {0, 2, 4, 6} && accumulator < Pow2(count)
    }
  }

  lemma SmallPowers()
    ensures Pow2(0) == 1 && Pow2(2) == 4 && Pow2(4) == 16 && Pow2(6) == 64 && Pow2(10) == 1024 && Pow2(12) == 4096
  {
    assert Pow2(8) == 256;
  }

  /** Shifting in six bits; a full byte leaves at the top. */
  function Shift(bits: Bits, value: nat): (Bits, seq<byte>) {
    var acc := bits.accumulator * 64 + value;
    if bits.count + 6 >= 8 then
      var count := bits.count + 6 - 8;
      (Bits(acc % Pow2(count), count), [(acc / Pow2(count) % 256) as byte])
    else (Bits(acc, bits.count + 6), [])
  }

  function DecodeFrom(s: seq<byte>, bits: Bits): Option<seq<byte>> {
    if s == [] then
      if bits.count != 0 && bits.accumulator != 0 then None else Some([])
    else match SymbolValue(s[0])
      case None => None
      case Some(value) =>
        var (next, out) := Shift(bits, value);
        match DecodeFrom(s[1..], next)
        case None => None
        case Some(rest) => Some(out + rest)
  }

  function DecodeSpec(s: seq<byte>): Option<seq<byte>> {
    if |s| % 4 == 1 then None else DecodeFrom(s, Bits(0, 0))
  }

  lemma ShiftStays(bits: Bits, value: nat)
    requires bits.Valid() && value < 64
    ensures Shift(bits, value).0.Valid()
    ensures bits.accumulator * 64 + value < Pow2(bits.count + 6) <= 4096
  {
    SmallPowers();
    assert Pow2(8) == 256;
  }

  /** One symbol read from a given accumulator. */
  lemma ReadSymbol(value: nat, rest: seq<byte>, bits: Bits)
    requires value < 64
    ensures DecodeFrom([Symbol(value)] + rest, bits) ==
            (match DecodeFrom(rest, Shift(bits, value).0)
             case None => None
             case Some(tail) => Some(Shift(bits, value).1 + tail))
  {
    hide Symbol, SymbolValue, Shift;
    SymbolsInvert(0);
    assert ([Symbol(value)] + rest)[1..] == rest;
  }

  lemma Sixteens(high: nat, low: nat)
    requires low < 16
    ensures (16 * high + low) / 16 == high && (16 * high + low) % 16 == low
  {
  }

  lemma SecondShift(v0: nat, v1: nat)
    requires v0 < 64 && v1 < 64
    ensures Shift(Bits(v0, 6), v1) == (Bits(v1 % 16, 4), [(v0 * 4 + v1 / 16) as byte])
  {
    hide Pow2;
    SmallPowers();
    Sixteens(v0 * 4 + v1 / 16, v1 % 16);
    assert v0 * 64 + v1 == 16 * (v0 * 4 + v1 / 16) + v1 % 16;
  }

  lemma ThirdShift(x: nat, v2: nat)
    requires x < 16 && v2 < 64
    ensures Shift(Bits(x, 4), v2) == (Bits(v2 % 4, 2), [(x * 16 + v2 / 4) as byte])
  {
    hide Pow2;
    SmallPowers();
  }

  lemma FourthShift(x: nat, v3: nat)
    requires x < 4 && v3 < 64
    ensures Shift(Bits(x, 2), v3) == (Bits(0, 0), [(x * 64 + v3) as byte])
  {
    hide Pow2;
    SmallPowers();
  }

  /** The accumulator on its way through a group of four. */
  lemma GroupShifts(v0: nat, v1: nat, v2: nat, v3: nat)
    requires v0 < 64 && v1 < 64 && v2 < 64 && v3 < 64
    ensures Shift(Bits(0, 0), v0) == (Bits(v0, 6), [])
    ensures Shift(Bits(v0, 6), v1) == (Bits(v1 % 16, 4), [(v0 * 4 + v1 / 16) as byte])
    ensures Shift(Bits(v1 % 16, 4), v2) == (Bits(v2 % 4, 2), [(v1 % 16 * 16 + v2 / 4) as byte])
    ensures Shift(Bits(v2 % 4, 2), v3) == (Bits(0, 0), [(v2 % 4 * 64 + v3) as byte])
  {
    assert Shift(Bits(0, 0), v0) == (Bits(v0, 6), []);
    hide Shift, Pow2;
    SecondShift(v0, v1);
    ThirdShift(v1 % 16, v2);
    FourthShift(v2 % 4, v3);
  }

  /** Four symbols leave the accumulator empty and give three bytes. */
  lemma FourSymbols(v0: nat, v1: nat, v2: nat, v3: nat, rest: seq<byte>)
    requires v0 < 64 && v1 < 64 && v2 < 64 && v3 < 64
    ensures DecodeFrom([Symbol(v0), Symbol(v1), Symbol(v2), Symbol(v3)] + rest, Bits(0, 0)) ==
            (match DecodeFrom(rest, Bits(0, 0))
             case None => None
             case Some(tail) => Some([(v0 * 4 + v1 / 16) as byte, (v1 % 16 * 16 + v2 / 4) as byte,
                                      (v2 % 4 * 64 + v3) as byte] + tail))
  {
    hide Symbol, Shift, DecodeFrom;
    GroupShifts(v0, v1, v2, v3);
    var s3 := [Symbol(v3)] + rest;
    var s2 := [Symbol(v2)] + s3;
    var s1 := [Symbol(v1)] + s2;
    ReadSymbol(v3, rest, Bits(v2 % 4, 2));
    ReadSymbol(v2, s3, Bits(v1 % 16, 4));
    ReadSymbol(v1, s2, Bits(v0, 6));
    ReadSymbol(v0, s1, Bits(0, 0));
    assert [Symbol(v0), Symbol(v1), Symbol(v2), Symbol(v3)] + rest == [Symbol(v0)] + s1;
    if DecodeFrom(rest, Bits(0, 0)).Some? {
      var tail := DecodeFrom(rest, Bits(0, 0)).value;
      assert [] + ([(v0 * 4 + v1 / 16) as byte] + ([(v1 % 16 * 16 + v2 / 4) as byte] +
             ([(v2 % 4 * 64 + v3) as byte] + tail)))
          == [(v0 * 4 + v1 / 16) as byte, (v1 % 16 * 16 + v2 / 4) as byte, (v2 % 4 * 64 + v3) as byte] + tail;
    }
  }

  /** The last group: two symbols give one byte, three give two. */
  lemma ShortGroups(v0: nat, v1: nat, v2: nat)
    requires v0 < 64 && v1 < 64 && v2 < 64
    ensures DecodeFrom([Symbol(v0), Symbol(v1)], Bits(0, 0))
            == if v1 % 16 != 0 then None else Some([(v0 * 4 + v1 / 16) as byte])
    ensures DecodeFrom([Symbol(v0), Symbol(v1), Symbol(v2)], Bits(0, 0))
            == if v2 % 4 != 0 then None
               else Some([(v0 * 4 + v1 / 16) as byte, (v1 % 16 * 16 + v2 / 4) as byte])
  {
    hide Symbol, Shift;
    GroupShifts(v0, v1, v2, 0);
    var y, z := (v0 * 4 + v1 / 16) as byte, (v1 % 16 * 16 + v2 / 4) as byte;
    LastSymbol(v1, Bits(v0, 6));
    LastSymbol(v2, Bits(v1 % 16, 4));
    ReadSymbol(v0, [Symbol(v1)], Bits(0, 0));
    ReadSymbol(v1, [Symbol(v2)], Bits(v0, 6));
    ReadSymbol(v0, [Symbol(v1), Symbol(v2)], Bits(0, 0));
    assert [Symbol(v1)] + [Symbol(v2)] == [Symbol(v1), Symbol(v2)];
    assert [Symbol(v0)] + [Symbol(v1)] == [Symbol(v0), Symbol(v1)];
    assert [Symbol(v0)] + [Symbol(v1), Symbol(v2)] == [Symbol(v0), Symbol(v1), Symbol(v2)];
    assert [] + [y] == [y] && [] + ([y] + [z]) == [y, z];
  }

  lemma LastSymbol(value: nat, bits: Bits)
    requires value < 64
    ensures var (next, out) := Shift(bits, value);
            DecodeFrom([Symbol(value)], bits)
            == if next.count != 0 && next.accumulator != 0 then None else Some(out)
  {
    hide Symbol, Shift;
    ReadSymbol(value, [], bits);
    assert [Symbol(value)] + [] == [Symbol(value)];
    assert Shift(bits, value).1 + [] == Shift(bits, value).1;
  }

  /** Four six-bit values and three bytes hold the same bits. */
  lemma Regroup(a: int, b: int, c: int)
    requires 0 <= a < 256 && 0 <= b < 256 && 0 <= c < 256
    ensures var v0, v1, v2, v3 := a / 4, a % 4 * 16 + b / 16, b % 16 * 4 + c / 64, c % 64;
            v0 < 64 && v1 < 64 && v2 < 64
            && v0 * 4 + v1 / 16 == a && v1 % 16 * 16 + v2 / 4 == b && v2 % 4 * 64 + v3 == c
            && (b == 0 ==> v1 % 16 == 0) && (c == 0 ==> v2 % 4 == 0)
  {
  }

  lemma RegroupBack(v0: int, v1: int, v2: int, v3: int)
    requires 0 <= v0 < 64 && 0 <= v1 < 64 && 0 <= v2 < 64 && 0 <= v3 < 64
    ensures var a, b, c := v0 * 4 + v1 / 16, v1 % 16 * 16 + v2 / 4, v2 % 4 * 64 + v3;
            a / 4 == v0 && a % 4 * 16 + b / 16 == v1 && b % 16 * 4 + c / 64 == v2 && c % 64 == v3
            && (v1 % 16 == 0 ==> a % 4 * 16 == v1) && (v2 % 4 == 0 ==> b % 16 * 4 == v2)
  {
  }

  /** Decoding an encoding returns the bytes. */
  lemma {:induction false} DecodeEncoded(bytes: seq<byte>)
    ensures DecodeSpec(Encode(bytes)) == Some(bytes)
    ensures |Encode(bytes)| % 4 != 1
  {
    hide Symbol, DecodeFrom;
    if bytes == [] {
      EmptyInput();
    } else {
      var first := bytes[0] as int;
      var second := if |bytes| > 1 then bytes[1] as int else 0;
      var third := if |bytes| > 2 then bytes[2] as int else 0;
      var v0, v1, v2, v3 := first / 4, first % 4 * 16 + second / 16, second % 16 * 4 + third / 64, third % 64;
      Regroup(first, second, third);
      if |bytes| <= 2 {
        ShortGroups(v0, v1, v2);
        assert bytes == if |bytes| == 1 then [bytes[0]] else [bytes[0], bytes[1]];
      } else {
        DecodeEncoded(bytes[3..]);
        FourSymbols(v0, v1, v2, v3, Encode(bytes[3..]));
        assert bytes == [bytes[0], bytes[1], bytes[2]] + bytes[3..];
      }
    }
  }

  lemma EmptyInput()
    ensures DecodeFrom([], Bits(0, 0)) == Some([])
  {
  }

  /** Decoding stops at a byte outside the alphabet. */
  lemma {:induction false} ForeignByte(s: seq<byte>, bits: Bits, k: nat)
    requires k < |s| && SymbolValue(s[k]).None?
    ensures DecodeFrom(s, bits).None?
  {
    if k > 0 {
      if SymbolValue(s[0]).Some? {
        ForeignByte(s[1..], Shift(bits, SymbolValue(s[0]).value).0, k - 1);
      }
    }
  }

  /** Whatever is accepted is the one encoding of its result. */
  lemma {:induction false} EncodeDecoded(s: seq<byte>)
    requires DecodeSpec(s).Some?
    ensures Encode(DecodeSpec(s).value) == s
  {
    hide Symbol, SymbolValue, DecodeFrom;
    if s == [] {
      EmptyInput();
    } else {
      forall k | 0 <= k < |s| ensures SymbolValue(s[k]).Some? {
        if SymbolValue(s[k]).None? {
          ForeignByte(s, Bits(0, 0), k);
        }
      }
      forall k | 0 <= k < |s| ensures SymbolValue(s[k]).value < 64 && Symbol(SymbolValue(s[k]).value) == s[k] {
        SymbolsInvert(s[k]);
      }
      var v0, v1 := SymbolValue(s[0]).value, SymbolValue(s[1]).value;
      var v2 := if |s| > 2 then SymbolValue(s[2]).value else 0;
      RegroupBack(v0, v1, v2, if |s| > 3 then SymbolValue(s[3]).value else 0);
      if |s| <= 3 {
        ShortGroups(v0, v1, v2);
        assert s == if |s| == 2 then [s[0], s[1]] else [s[0], s[1], s[2]];
      } else {
        FourSymbols(v0, v1, v2, SymbolValue(s[3]).value, s[4..]);
        assert s == [s[0], s[1], s[2], s[3]] + s[4..];
        EncodeDecoded(s[4..]);
        assert DecodeSpec(s).value[3..] == DecodeSpec(s[4..]).value;
      }
    }
  }

  /** No two accepted texts decode to the same bytes. */
  lemma DecodingInjective(s: seq<byte>, t: seq<byte>)
    requires DecodeSpec(s).Some? && DecodeSpec(s) == DecodeSpec(t)
    ensures s == t
  {
    EncodeDecoded(s);
    EncodeDecoded(t);
  }

  // ----- The decoder -----

  /** Accepts exactly the encodings, and returns what was encoded. */
  method DecodeBase64Url(input: seq<byte>) returns (r: Option<seq<byte>>)
    ensures r.Some? ==> Encode(r.value) == input
    ensures r.None? ==> forall bytes :: Encode(bytes) != input
  {
    hide Symbol, SymbolValue, Encode, DecodeFrom, Shift, Pow2;
    if |input| % 4 == 1 {
      NotAnEncoding(input);
      return None;
    }
    var output: seq<byte> := [];
    var accumulator: nat, bitCount: nat := 0, 0;
    assert input[0..] == input;
    PrependTwice([], [], DecodeFrom(input, Bits(0, 0)));
    for i := 0 to |input|
      invariant Bits(accumulator, bitCount).Valid()
      invariant DecodeSpec(input) == Prepend(output, DecodeFrom(input[i..], Bits(accumulator, bitCount)))
    {
      ghost var bits, before := Bits(accumulator, bitCount), output;
      var value := SymbolValue(input[i]);
      assert input[i..][1..] == input[i + 1..];
      DecodeStep(input[i..], bits);
      if value.None? {
        NotAnEncoding(input);
        return None;
      }
      SymbolOfValue(input[i]);
      ShiftStays(bits, value.value);
      ShiftIs(bits, value.value);
      assert accumulator * 64 + value.value < U32_LIMIT;
      accumulator := accumulator * 64 + value.value;
      bitCount := bitCount + 6;
      if bitCount >= 8 {
        bitCount := bitCount - 8;
        output := output + [(accumulator / Pow2(bitCount) % 256) as byte];
        accumulator := if bitCount == 0 then 0 else accumulator % Pow2(bitCount);
      }
      assert output[|before|..] == Shift(bits, value.value).1;
      assert Shift(bits, value.value) == (Bits(accumulator, bitCount), output[|before|..]);
      assert before + output[|before|..] == output;
      PrependTwice(before, output[|before|..], DecodeFrom(input[i + 1..], Bits(accumulator, bitCount)));
    }
    DecodeStep(input[|input|..], Bits(accumulator, bitCount));
    if bitCount != 0 && accumulator != 0 {
      NotAnEncoding(input);
      return None;
    }
    EncodeDecoded(input);
    assert output + [] == output;
    return Some(output);
  }

  /** Nothing is left of the accumulator when its last bits leave. */
  lemma ShiftIs(bits: Bits, value: nat)
    ensures var acc, count := bits.accumulator * 64 + value, bits.count + 6;
            Shift(bits, value)
            == if count < 8 then (Bits(acc, count), [])
               else (Bits(if count == 8 then 0 else acc % Pow2(count - 8), count - 8),
                     [(acc / Pow2(count - 8) % 256) as byte])
  {
    assert Pow2(0) == 1;
  }

  ghost function Prepend(front: seq<byte>, r: Option<seq<byte>>): Option<seq<byte>> {
    match r
    case None => None
    case Some(rest) => Some(front + rest)
  }

  lemma PrependTwice(a: seq<byte>, b: seq<byte>, r: Option<seq<byte>>)
    ensures Prepend(a, Prepend(b, r)) == Prepend(a + b, r)
    ensures Prepend([], r) == r
  {
    if r.Some? {
      assert a + (b + r.value) == a + b + r.value && [] + r.value == r.value;
    }
  }

  lemma DecodeStep(s: seq<byte>, bits: Bits)
    ensures s == [] ==> DecodeFrom(s, bits) == if bits.count != 0 && bits.accumulator != 0 then None else Some([])
    ensures s != [] && SymbolValue(s[0]).None? ==> DecodeFrom(s, bits).None?
    ensures s != [] && SymbolValue(s[0]).Some? ==>
            var (next, out) := Shift(bits, SymbolValue(s[0]).value);
            DecodeFrom(s, bits) == Prepend(out, DecodeFrom(s[1..], next))
  {
  }

  lemma NotAnEncoding(input: seq<byte>)
    requires DecodeSpec(input).None?
    ensures forall bytes :: Encode(bytes) != input
  {
    forall bytes ensures Encode(bytes) != input {
      DecodeEncoded(bytes);
    }
  }
}
