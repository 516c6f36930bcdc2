/** Byte strings as base-16 and base-64 texts. A byte is a number below 256. */
module ByteTexts {
  import opened Wrappers
  import opened Base32
  import opened HashTexts

  // ----- base 16 ------------------------------------------------------------------------------------------

  const HEX := "0123456789abcdef"

  function Hex(bytes: Bytes): (s: string)
    requires AreBytes(bytes)
    ensures |s| == 2 * |bytes|
  {
    if bytes == [] then "" else [HEX[bytes[0] / 16], HEX[bytes[0] % 16]] + Hex(bytes[1..])
  }

  function HexDigit(c: char): Option<nat> {
    if '0' <= c <= '9' then Some((c - '0') as nat)
    else if 'a' <= c <= 'f' then Some((c - 'a') as nat + 10)
    else if 'A' <= c <= 'F' then Some((c - 'A') as nat + 10)
    else None
  }

  function Unhex(s: string): (r: Option<Bytes>)
    ensures r.Some? ==> |s| == 2 * |r.value|
  {
    if s == "" then Some([])
    else if |s| == 1 then None
    else
      var high, low, rest := HexDigit(s[0]), HexDigit(s[1]), Unhex(s[2..]);
      if high.Some? && low.Some? && rest.Some? then Some([high.value * 16 + low.value] + rest.value) else None
  }

  lemma HexDigitFound(k: nat)
    requires k < 16
    ensures HexDigit(HEX[k]) == Some(k)
  {
  }

  lemma {:induction false} UnhexHex(bytes: Bytes)
    requires AreBytes(bytes)
    ensures Unhex(Hex(bytes)) == Some(bytes)
    decreases |bytes|
  {
    if bytes != [] {
      var s := Hex(bytes);
      UnhexPair(s, bytes[0]);
      UnhexHex(bytes[1..]);
      assert s[2..] == Hex(bytes[1..]);
      assert [bytes[0]] + bytes[1..] == bytes;
    }
  }

  lemma UnhexPair(s: string, b: nat)
    requires |s| >= 2 && b < 256 && s[0] == HEX[b / 16] && s[1] == HEX[b % 16]
    ensures Unhex(s) == if Unhex(s[2..]).Some? then Some([b] + Unhex(s[2..]).value) else None
  {
    HexDigitFound(b / 16);
    HexDigitFound(b % 16);
  }

  // ----- base 64 ------------------------------------------------------------------------------------------

  /** The alphabet of RFC 4648, section 4. */
  function Char64(d: nat): char
    requires d < 64
  {
    if d < 26 then 'A' + d as char
    else if d < 52 then 'a' + (d - 26) as char
    else if d < 62 then '0' + (d - 52) as char
    else if d == 62 then '+'
    else '/'
  }

  function GroupText(b0: nat, b1: nat, b2: nat): string
    requires b0 < 256 && b1 < 256 && b2 < 256
  {
    [Char64(b0 / 4), Char64(b0 % 4 * 16 + b1 / 16), Char64(b1 % 16 * 4 + b2 / 64), Char64(b2 % 64)]
  }

  /** The encoding of RFC 4648, section 4: 24 bits at a time as four characters, with padding. */
  function Encode64(bytes: Bytes): (s: string)
    requires AreBytes(bytes)
    ensures |s| == (|bytes| + 2) / 3 * 4
  {
    if bytes == [] then ""
    else if |bytes| == 1 then
      [Char64(bytes[0] / 4), Char64(bytes[0] % 4 * 16), '=', '=']
    else if |bytes| == 2 then
      [Char64(bytes[0] / 4), Char64(bytes[0] % 4 * 16 + bytes[1] / 16), Char64(bytes[1] % 16 * 4), '=']
    else
      GroupText(bytes[0], bytes[1], bytes[2]) + Encode64(bytes[3..])
  }

  datatype Read64 = Digit(value: nat) | Stop | Skip | Bad

  function Read(c: char): (r: Read64)
    ensures r.Digit? ==> r.value < 64
  {
    if c == '=' then Stop
    else if c == '\n' then Skip
    else if 'A' <= c <= 'Z' then Digit((c - 'A') as nat)
    else if 'a' <= c <= 'z' then Digit((c - 'a') as nat + 26)
    else if '0' <= c <= '9' then Digit((c - '0') as nat + 52)
    else if c == '+' then Digit(62)
    else if c == '/' then Digit(63)
    else Bad
  }

  /** Six more bits into an accumulator of twelve: a digit is below 64, so the two add up. */
  function Next(acc: nat, digit: nat): nat {
    (acc * 64 + digit) % 4096
  }

  /** The byte above the `bits` bits left over. */
  function TopByte(acc: nat, bits: nat): nat {
    (if bits == 0 then acc else if bits == 2 then acc / 4 else acc / 16) % 256
  }

  /** The decoder: with `bits` bits left over at the low end of `acc`, at a `=`, or at a character
    * it does not know.
    */
  datatype Decoder = Reading(acc: nat, bits: nat, out: Bytes) | Stopped(out: Bytes) | Failed

  function Step(d: Decoder, read: Read64): Decoder {
    if !d.Reading? then d
    else
      match read
      case Stop => Stopped(d.out)
      case Skip => d
      case Bad => Failed
      case Digit(digit) =>
        var next := Next(d.acc, digit);
        if d.bits + 6 < 8 then Reading(next, d.bits + 6, d.out)
        else Reading(next, d.bits - 2, d.out + [TopByte(next, d.bits - 2)])
  }

  function Run(d: Decoder, s: string): Decoder
    decreases |s|
  {
    if s == "" then d else Run(Step(d, Read(s[0])), s[1..])
  }

  function Result(d: Decoder): Option<Bytes> {
    if d.Failed? then None else Some(d.out)
  }

  function Decoded64(s: string): Option<Bytes> {
    Result(Run(Reading(0, 0, []), s))
  }

  lemma {:induction false} RunEnded(d: Decoder, s: string)
    requires !d.Reading?
    ensures Run(d, s) == d
    decreases |s|
  {
    if s != "" {
      RunEnded(d, s[1..]);
    }
  }

  lemma {:induction false} RunConcat(d: Decoder, a: string, b: string)
    ensures Run(d, a + b) == Run(Run(d, a), b)
    decreases |a|
  {
    if a == "" {
      assert a + b == b;
    } else {
      assert (a + b)[0] == a[0] && (a + b)[1..] == a[1..] + b;
      RunConcat(Step(d, Read(a[0])), a[1..], b);
    }
  }

  method Base64Decode(s: string) returns (r: Option<Bytes>)
    ensures r == Decoded64(s)
  {
    var out: Bytes := [];
    var acc, bits: nat := 0, 0;
    assert s[0..] == s;
    for k := 0 to |s|
      invariant bits < 8
      invariant Run(Reading(0, 0, []), s) == Run(Reading(acc, bits, out), s[k..])
    {
      assert s[k..][0] == s[k] && s[k..][1..] == s[k + 1..];
      ghost var stepped := Step(Reading(acc, bits, out), Read(s[k]));
      match Read(s[k]) {
        case Stop =>
          RunEnded(stepped, s[k + 1..]);
          return Some(out);
        case Skip =>
        case Bad =>
          RunEnded(stepped, s[k + 1..]);
          return None;
        case Digit(digit) =>
          acc := Next(acc, digit);
          bits := bits + 6;
          if bits >= 8 {
            bits := bits - 8;
            out := out + [TopByte(acc, bits)];
          }
      }
    }
    assert s[|s|..] == "";
    return Some(out);
  }

  lemma ReadChar(d: nat)
    requires d < 64
    ensures Read(Char64(d)) == Digit(d)
  {
  }

  lemma NextIs(acc: nat, prior: nat, d: nat)
    requires d < 64 && acc % 64 == prior
    ensures Next(acc, d) == 64 * prior + d
  {
    assert acc == 64 * (acc / 64) + prior;
  }

  lemma FirstDigit(acc: nat, d: nat, out: Bytes)
    requires d < 64
    ensures Step(Reading(acc, 0, out), Digit(d)) == Reading(64 * (acc % 64) + d, 6, out)
  {
    NextIs(acc, acc % 64, d);
  }

  /** A digit that completes a byte; `prior` is the digit before. */
  lemma LaterDigit(acc: nat, prior: nat, d: nat, bits: nat, out: Bytes)
    requires prior < 64 && d < 64 && acc % 64 == prior && bits in {2, 4, 6}
    ensures var next := 64 * prior + d;
      Step(Reading(acc, bits, out), Digit(d)) == Reading(next, bits - 2, out + [TopByte(next, bits - 2)])
  {
    NextIs(acc, prior, d);
  }

  lemma LowSix(a: nat, d: nat)
    requires d < 64
    ensures (64 * a + d) % 64 == d
  {
  }

  /** The bytes that the digits of a group make up, from the parts their bytes were divided in. */
  lemma HighByte(q: nat, r: nat, x: nat)
    requires q < 64 && r < 4 && x < 16
    ensures TopByte(64 * q + (r * 16 + x), 4) == 4 * q + r
  {
  }

  lemma MiddleByte(r: nat, x: nat, y: nat, z: nat)
    requires r < 4 && x < 16 && y < 16 && z < 4
    ensures TopByte(64 * (r * 16 + x) + (y * 4 + z), 2) == 16 * x + y
  {
    assert (64 * (r * 16 + x) + (y * 4 + z)) / 4 == 256 * r + (16 * x + y);
  }

  lemma LowByte(y: nat, z: nat, w: nat)
    requires y < 16 && z < 4 && w < 64
    ensures TopByte(64 * (y * 4 + z) + w, 0) == 64 * z + w
  {
    assert 64 * (y * 4 + z) + w == 256 * y + (64 * z + w);
  }

  lemma BytesOfGroup(b0: nat, b1: nat, b2: nat)
    requires b0 < 256 && b1 < 256 && b2 < 256
    ensures var d0, d1, d2, d3 := b0 / 4, b0 % 4 * 16 + b1 / 16, b1 % 16 * 4 + b2 / 64, b2 % 64;
      TopByte(64 * d0 + d1, 4) == b0 && TopByte(64 * d1 + d2, 2) == b1 && TopByte(64 * d2 + d3, 0) == b2
  {
    HighByte(b0 / 4, b0 % 4, b1 / 16);
    MiddleByte(b0 % 4, b1 / 16, b1 % 16, b2 / 64);
    LowByte(b1 % 16, b2 / 64, b2 % 64);
  }

  lemma TwoDigits(acc: nat, d0: nat, d1: nat, out: Bytes)
    requires d0 < 64 && d1 < 64
    ensures Step(Step(Reading(acc, 0, out), Digit(d0)), Digit(d1)) ==
      Reading(64 * d0 + d1, 4, out + [TopByte(64 * d0 + d1, 4)])
  {
    FirstDigit(acc, d0, out);
    LowSix(acc % 64, d0);
    LaterDigit(64 * (acc % 64) + d0, d0, d1, 6, out);
  }

  lemma ThirdDigit(d0: nat, d1: nat, d2: nat, out: Bytes)
    requires d0 < 64 && d1 < 64 && d2 < 64
    ensures Step(Reading(64 * d0 + d1, 4, out), Digit(d2)) == Reading(64 * d1 + d2, 2, out + [TopByte(64 * d1 + d2, 2)])
  {
    LowSix(d0, d1);
    LaterDigit(64 * d0 + d1, d1, d2, 4, out);
  }

  lemma FourthDigit(d1: nat, d2: nat, d3: nat, out: Bytes)
    requires d1 < 64 && d2 < 64 && d3 < 64
    ensures Step(Reading(64 * d1 + d2, 2, out), Digit(d3)) == Reading(64 * d2 + d3, 0, out + [TopByte(64 * d2 + d3, 0)])
  {
    LowSix(d1, d2);
    LaterDigit(64 * d1 + d2, d2, d3, 2, out);
  }

  lemma RunTwo(d: Decoder, a: char, b: char, rest: string)
    ensures Run(d, [a, b] + rest) == Run(Step(Step(d, Read(a)), Read(b)), rest)
  {
    assert ([a, b] + rest)[1..] == [b] + rest && ([b] + rest)[1..] == rest;
  }

  lemma RunFour(d: Decoder, a: char, b: char, c: char, e: char, rest: string)
    ensures Run(d, [a, b, c, e] + rest) == Run(Step(Step(Step(Step(d, Read(a)), Read(b)), Read(c)), Read(e)), rest)
  {
    assert [a, b, c, e] + rest == [a, b] + ([c, e] + rest);
    RunTwo(d, a, b, [c, e] + rest);
    RunTwo(Step(Step(d, Read(a)), Read(b)), c, e, rest);
  }

  /** A short last group ends the reading. */
  lemma OneByte(d: Decoder, b0: nat)
    requires d.Reading? && d.bits == 0 && b0 < 256
    ensures Run(d, [Char64(b0 / 4), Char64(b0 % 4 * 16), '=', '=']) == Stopped(d.out + [b0])
  {
    var d0, d1 := b0 / 4, b0 % 4 * 16;
    var c0, c1 := Char64(d0), Char64(d1);
    ReadChar(d0);
    ReadChar(d1);
    BytesOfGroup(b0, 0, 0);
    TwoDigits(d.acc, d0, d1, d.out);
    RunFour(d, c0, c1, '=', '=', "");
    assert [c0, c1, '=', '='] + "" == [c0, c1, '=', '='];
  }

  lemma TwoBytes(d: Decoder, b0: nat, b1: nat)
    requires d.Reading? && d.bits == 0 && b0 < 256 && b1 < 256
    ensures Run(d, [Char64(b0 / 4), Char64(b0 % 4 * 16 + b1 / 16), Char64(b1 % 16 * 4), '=']) ==
      Stopped(d.out + [b0] + [b1])
  {
    var d0, d1, d2 := b0 / 4, b0 % 4 * 16 + b1 / 16, b1 % 16 * 4;
    BytesOfGroup(b0, b1, 0);
    TwoDigits(d.acc, d0, d1, d.out);
    ThirdDigit(d0, d1, d2, d.out + [b0]);
    RunThree(d, d0, d1, d2);
  }

  lemma RunThree(d: Decoder, d0: nat, d1: nat, d2: nat)
    requires d0 < 64 && d1 < 64 && d2 < 64
    ensures Run(d, [Char64(d0), Char64(d1), Char64(d2), '=']) ==
      Step(Step(Step(Step(d, Digit(d0)), Digit(d1)), Digit(d2)), Stop)
  {
    var c0, c1, c2 := Char64(d0), Char64(d1), Char64(d2);
    ReadChar(d0);
    ReadChar(d1);
    ReadChar(d2);
    RunFour(d, c0, c1, c2, '=', "");
    assert [c0, c1, c2, '='] + "" == [c0, c1, c2, '='];
  }

  lemma ThreeBytes(d: Decoder, b0: nat, b1: nat, b2: nat, rest: string) returns (next: Decoder)
    requires d.Reading? && d.bits == 0 && b0 < 256 && b1 < 256 && b2 < 256
    ensures Run(d, GroupText(b0, b1, b2) + rest) == Run(next, rest)
    ensures next.Reading? && next.bits == 0 && next.out == d.out + [b0] + [b1] + [b2]
  {
    var d0, d1, d2, d3 := b0 / 4, b0 % 4 * 16 + b1 / 16, b1 % 16 * 4 + b2 / 64, b2 % 64;
    BytesOfGroup(b0, b1, b2);
    RunGroup(d, d0, d1, d2, d3, b0, b1, b2, rest);
    next := Reading(64 * d2 + d3, 0, d.out + [b0] + [b1] + [b2]);
  }

  lemma RunGroup(d: Decoder, d0: nat, d1: nat, d2: nat, d3: nat, b0: nat, b1: nat, b2: nat, rest: string)
    requires d.Reading? && d.bits == 0 && d0 < 64 && d1 < 64 && d2 < 64 && d3 < 64
    requires b0 == TopByte(64 * d0 + d1, 4) && b1 == TopByte(64 * d1 + d2, 2) && b2 == TopByte(64 * d2 + d3, 0)
    ensures Run(d, [Char64(d0), Char64(d1), Char64(d2), Char64(d3)] + rest)
      == Run(Reading(64 * d2 + d3, 0, d.out + [b0] + [b1] + [b2]), rest)
  {
    RunDigits(d, d0, d1, d2, d3, rest);
    TwoDigits(d.acc, d0, d1, d.out);
    ThirdDigit(d0, d1, d2, d.out + [b0]);
    FourthDigit(d1, d2, d3, d.out + [b0] + [b1]);
  }

  lemma RunDigits(d: Decoder, d0: nat, d1: nat, d2: nat, d3: nat, rest: string)
    requires d0 < 64 && d1 < 64 && d2 < 64 && d3 < 64
    ensures Run(d, [Char64(d0), Char64(d1), Char64(d2), Char64(d3)] + rest)
      == Run(Step(Step(Step(Step(d, Digit(d0)), Digit(d1)), Digit(d2)), Digit(d3)), rest)
  {
    ReadChar(d0);
    ReadChar(d1);
    ReadChar(d2);
    ReadChar(d3);
    RunFour(d, Char64(d0), Char64(d1), Char64(d2), Char64(d3), rest);
  }

  lemma LastGroup(bytes: Bytes, d: Decoder)
    requires AreBytes(bytes) && d.Reading? && d.bits == 0 && 0 < |bytes| < 3
    ensures Run(d, Encode64(bytes)) == Stopped(d.out + bytes)
  {
    if |bytes| == 1 {
      OneByte(d, bytes[0]);
      assert bytes == [bytes[0]];
    } else {
      TwoBytes(d, bytes[0], bytes[1]);
      assert d.out + bytes == d.out + [bytes[0]] + [bytes[1]];
    }
  }

  lemma WholeGroup(bytes: Bytes, d: Decoder) returns (next: Decoder)
    requires AreBytes(bytes) && d.Reading? && d.bits == 0 && |bytes| >= 3
    ensures Run(d, Encode64(bytes)) == Run(next, Encode64(bytes[3..]))
    ensures next.Reading? && next.bits == 0 && next.out + bytes[3..] == d.out + bytes
  {
    next := ThreeBytes(d, bytes[0], bytes[1], bytes[2], Encode64(bytes[3..]));
  }

  /** Decoding undoes the encoding, whatever bits were left over before. */
  lemma {:induction false} RunEncoded(bytes: Bytes, d: Decoder)
    requires AreBytes(bytes) && d.Reading? && d.bits == 0
    ensures Result(Run(d, Encode64(bytes))) == Some(d.out + bytes)
    decreases |bytes|
  {
    if bytes == [] {
      assert d.out + bytes == d.out;
    } else if |bytes| < 3 {
      LastGroup(bytes, d);
    } else {
      var next := WholeGroup(bytes, d);
      RunEncoded(bytes[3..], next);
    }
  }

  lemma Decode64Encode64(bytes: Bytes)
    requires AreBytes(bytes)
    ensures Decoded64(Encode64(bytes)) == Some(bytes)
  {
    RunEncoded(bytes, Reading(0, 0, []));
    assert [] + bytes == bytes;
  }

  /** Newlines make no difference, nor does anything after a `=`. */
  lemma Lenient(a: string, b: string)
    ensures Decoded64(a + "\n" + b) == Decoded64(a + b)
    ensures Decoded64(a + "=" + b) == Decoded64(a)
  {
    var d := Run(Reading(0, 0, []), a);
    RunConcat(Reading(0, 0, []), a + "\n", b);
    RunConcat(Reading(0, 0, []), a, "\n");
    RunConcat(Reading(0, 0, []), a, b);
    RunConcat(Reading(0, 0, []), a + "=", b);
    RunConcat(Reading(0, 0, []), a, "=");
    assert Run(d, "\n") == Step(d, Skip) == d;
    assert Run(d, "=") == Step(d, Stop);
    RunEnded(Step(d, Stop), b);
  }

  // ----- what the texts denote ------------------------------------------------------------------------------

  lemma HexDigitIs(c: char, value: nat)
    ensures HexDigit(c) == Some(value) <==> HexChar(c, value)
  {
  }

  lemma {:induction false} UnhexIs(s: string, bytes: Bytes)
    ensures Unhex(s) == Some(bytes) <==> DenotesHex(s, bytes)
    decreases |s|
  {
    if |s| >= 2 && bytes != [] {
      UnhexIs(s[2..], bytes[1..]);
      HexDigitIs(s[0], bytes[0] / 16);
      HexDigitIs(s[1], bytes[0] % 16);
      HexFirst(s, bytes);
      UnhexFirst(s, bytes);
    }
  }

  lemma HexFirst(s: string, bytes: Bytes)
    requires |s| >= 2 && bytes != []
    ensures DenotesHex(s, bytes) <==>
      HexChar(s[0], bytes[0] / 16) && HexChar(s[1], bytes[0] % 16) && DenotesHex(s[2..], bytes[1..])
  {
    if HexChar(s[0], bytes[0] / 16) && HexChar(s[1], bytes[0] % 16) && DenotesHex(s[2..], bytes[1..]) {
      forall i | 0 <= i < |bytes|
        ensures HexChar(s[2 * i], bytes[i] / 16) && HexChar(s[2 * i + 1], bytes[i] % 16)
      {
        if i > 0 {
          var k := i - 1;
          assert HexChar(s[2..][2 * k], bytes[1..][k] / 16) && HexChar(s[2..][2 * k + 1], bytes[1..][k] % 16);
        }
      }
    }
    if DenotesHex(s, bytes) {
      forall k | 0 <= k < |bytes| - 1
        ensures HexChar(s[2..][2 * k], bytes[1..][k] / 16) && HexChar(s[2..][2 * k + 1], bytes[1..][k] % 16)
      {
        assert HexChar(s[2 * (k + 1)], bytes[k + 1] / 16) && HexChar(s[2 * (k + 1) + 1], bytes[k + 1] % 16);
      }
      assert HexChar(s[2 * 0], bytes[0] / 16) && HexChar(s[2 * 0 + 1], bytes[0] % 16);
    }
  }

  lemma UnhexFirst(s: string, bytes: Bytes)
    requires |s| >= 2 && bytes != []
    ensures Unhex(s) == Some(bytes) <==>
      && HexDigit(s[0]) == Some(bytes[0] / 16) && HexDigit(s[1]) == Some(bytes[0] % 16)
      && Unhex(s[2..]) == Some(bytes[1..])
  {
    var high, low, rest := HexDigit(s[0]), HexDigit(s[1]), Unhex(s[2..]);
    if high.Some? && low.Some? && rest.Some? {
      var b := high.value * 16 + low.value;
      assert Unhex(s) == Some([b] + rest.value);
      HexParts(high.value, low.value, b);
      assert ([b] + rest.value)[1..] == rest.value;
      assert [bytes[0]] + bytes[1..] == bytes;
    } else {
      assert Unhex(s) == None;
    }
  }

  lemma HexParts(high: nat, low: nat, b: nat)
    requires low < 16
    ensures b == high * 16 + low <==> high == b / 16 && low == b % 16
  {
  }

  /** Lower case is written. */
  lemma {:induction false} HexIsLower(bytes: Bytes, i: nat)
    requires AreBytes(bytes) && i < |bytes|
    ensures Hex(bytes)[2 * i] == LOWER_HEX[bytes[i] / 16] && Hex(bytes)[2 * i + 1] == LOWER_HEX[bytes[i] % 16]
    decreases i
  {
    if i > 0 {
      HexIsLower(bytes[1..], i - 1);
    }
  }

  lemma TableOf64(d: nat)
    requires d < 64
    ensures BASE64[d] == Char64(d)
  {
  }

  lemma ReadIs(c: char, d: nat)
    ensures Read(c) == Digit(d) <==> d < 64 && c == BASE64[d]
  {
    if d < 64 {
      TableOf64(d);
    }
  }

  /** How many values `bits` bits have, when they are left over. */
  function Values(bits: nat): nat {
    if bits == 0 then 1 else if bits == 2 then 4 else if bits == 4 then 16 else 64
  }

  /** The bytes put out and the bits left over are the digits read. */
  ghost predicate Holds(d: Decoder, digits: seq<nat>) {
    && d.Reading? && ByteString(d.out) && d.bits in {0, 2, 4, 6} && |d.out| * 8 + d.bits == 6 * |digits|
    && BigEndian(digits, 64) == BigEndian(d.out, 256) * Values(d.bits) + d.acc % Values(d.bits)
  }

  lemma DigitHolds(d: Decoder, digits: seq<nat>, digit: nat)
    requires Holds(d, digits) && digit < 64
    ensures Holds(Step(d, Digit(digit)), digits + [digit])
  {
    Appended(digits, digit, 64);
    var low, next := d.acc % 64, Next(d.acc, digit);
    NextIs(d.acc, low, digit);
    if d.bits == 0 {
      LowSix(low, digit);
    } else {
      var top := TopByte(next, d.bits - 2);
      Appended(d.out, top, 256);
      if d.bits == 2 {
        LowTwo(d.acc);
        CutTwo(low, digit);
      } else if d.bits == 4 {
        LowFour(d.acc);
        CutFour(low, digit);
      } else {
        CutSix(low, digit);
      }
    }
  }

  lemma Quotient4(x: nat, q: nat, r: nat)
    requires x == 4 * q + r && r < 4
    ensures x / 4 == q && x % 4 == r
  {
  }

  lemma Quotient16(x: nat, q: nat, r: nat)
    requires x == 16 * q + r && r < 16
    ensures x / 16 == q && x % 16 == r
  {
  }

  lemma Quotient64(x: nat, q: nat, r: nat)
    requires x == 64 * q + r && r < 64
    ensures x / 64 == q && x % 64 == r
  {
  }

  lemma LowTwo(acc: nat)
    ensures acc % 64 % 4 == acc % 4
  {
    var q, low := acc / 64, acc % 64;
    Quotient4(acc, 16 * q + low / 4, low % 4);
  }

  lemma LowFour(acc: nat)
    ensures acc % 64 % 16 == acc % 16
  {
    var q, low := acc / 64, acc % 64;
    Quotient16(acc, 4 * q + low / 16, low % 16);
  }

  /** A digit and the bits left over before it make a byte and the bits left over after. */
  lemma CutTwo(low: nat, digit: nat)
    requires low < 64 && digit < 64
    ensures low % 4 * 64 + digit == TopByte(64 * low + digit, 0) < 256
  {
    var q, r := low / 4, low % 4;
    assert 64 * low + digit == 256 * q + (64 * r + digit);
  }

  lemma CutFour(low: nat, digit: nat)
    requires low < 64 && digit < 64
    ensures low % 16 * 64 + digit == TopByte(64 * low + digit, 2) * 4 + (64 * low + digit) % 4
    ensures TopByte(64 * low + digit, 2) < 256
  {
    var q, r := low / 16, low % 16;
    var h, l := digit / 4, digit % 4;
    assert 64 * low + digit == 4 * (16 * low + h) + l;
    assert 16 * low + h == 256 * q + (16 * r + h);
  }

  lemma CutSix(low: nat, digit: nat)
    requires low < 64 && digit < 64
    ensures low * 64 + digit == TopByte(64 * low + digit, 4) * 16 + (64 * low + digit) % 16
    ensures TopByte(64 * low + digit, 4) < 256
  {
    var h, l := digit / 16, digit % 16;
    assert 64 * low + digit == 16 * (4 * low + h) + l;
  }

  predicate Reads(text: string, digits: seq<nat>) {
    |text| == |digits| && forall i :: 0 <= i < |text| ==> Read(text[i]) == Digit(digits[i])
  }

  lemma ReadsIs(text: string, digits: seq<nat>)
    ensures Reads(text, digits) <==> Spells(text, digits, BASE64)
  {
    if |text| == |digits| {
      forall i | 0 <= i < |text|
        ensures Read(text[i]) == Digit(digits[i]) <==> digits[i] < |BASE64| && text[i] == BASE64[digits[i]]
      {
        ReadIs(text[i], digits[i]);
      }
    }
  }

  lemma {:induction false} RunMakesUp(d: Decoder, digits: seq<nat>, s: string, more: seq<nat>)
    requires Holds(d, digits) && Reads(Body(s), more)
    ensures Result(Run(d, s)).Some? && MakeUp(digits + more, Result(Run(d, s)).value)
    decreases |s|
  {
    if s == "" || s[0] == '=' {
      assert digits + more == digits;
      HeldMakesUp(d, digits);
      if s != "" {
        RunEnded(Step(d, Stop), s[1..]);
      }
    } else if s[0] == '\n' {
      RunMakesUp(d, digits, s[1..], more);
    } else {
      assert Body(s)[0] == s[0] && Body(s)[1..] == Body(s[1..]);
      DigitHolds(d, digits, more[0]);
      RunMakesUp(Step(d, Digit(more[0])), digits + [more[0]], s[1..], more[1..]);
      assert digits + more == digits + [more[0]] + more[1..];
    }
  }

  lemma LeftoverIs(n: nat, k: nat, bits: nat)
    requires 8 * k + bits == 6 * n && bits in {0, 2, 4, 6}
    ensures Leftover(n) == Values(bits) && 6 * n / 8 == k
  {
    if bits == 0 {
      assert n % 4 == 0;
    } else if bits == 2 {
      assert n % 4 == 3;
    } else if bits == 4 {
      assert n % 4 == 2;
    } else {
      assert n % 4 == 1;
    }
  }

  lemma HeldMakesUp(d: Decoder, digits: seq<nat>)
    requires Holds(d, digits)
    ensures MakeUp(digits, d.out)
  {
    LeftoverIs(|digits|, |d.out|, d.bits);
    var number, all := BigEndian(d.out, 256), BigEndian(digits, 64);
    if d.bits == 2 {
      Quotient4(all, number, d.acc % 4);
    } else if d.bits == 4 {
      Quotient16(all, number, d.acc % 16);
    } else if d.bits == 6 {
      Quotient64(all, number, d.acc % 64);
    }
  }

  /** What is decoded has digits only. */
  lemma {:induction false} RunSpells(d: Decoder, s: string) returns (digits: seq<nat>)
    requires d.Reading? && Result(Run(d, s)).Some?
    ensures Reads(Body(s), digits)
    decreases |s|
  {
    if s == "" || s[0] == '=' {
      digits := [];
    } else if s[0] == '\n' {
      digits := RunSpells(d, s[1..]);
    } else {
      if Read(s[0]).Bad? {
        RunEnded(Failed, s[1..]);
      }
      var more := RunSpells(Step(d, Read(s[0])), s[1..]);
      digits := [Read(s[0]).value] + more;
    }
  }

  /** What is decoded is what the text denotes. */
  lemma Decoded64Is(s: string, bytes: Bytes)
    ensures Decoded64(s) == Some(bytes) <==> Denotes64(s, bytes)
  {
    var start := Reading(0, 0, []);
    if Denotes64(s, bytes) {
      var digits :| Spells(Body(s), digits, BASE64) && MakeUp(digits, bytes);
      ReadsIs(Body(s), digits);
      RunMakesUp(start, [], s, digits);
      assert [] + digits == digits;
      BigEndianInjective(Result(Run(start, s)).value, bytes);
    }
    if Decoded64(s) == Some(bytes) {
      var digits := RunSpells(start, s);
      ReadsIs(Body(s), digits);
      RunMakesUp(start, [], s, digits);
      assert [] + digits == digits;
    }
  }

  // ----- which texts are read ---------------------------------------------------------------------------------

  predicate In64(c: char) {
    'A' <= c <= 'Z' || 'a' <= c <= 'z' || '0' <= c <= '9' || c in {'+', '/'}
  }

  predicate BeforePadding(s: string, i: nat) {
    i < |s| && forall j :: 0 <= j <= i ==> s[j] != '='
  }

  /** Before the first `=` there are only newlines and characters of the alphabet. */
  ghost predicate OnlyDigits(s: string) {
    forall i: nat :: BeforePadding(s, i) ==> s[i] == '\n' || In64(s[i])
  }

  lemma BeforePaddingRest(s: string, i: nat)
    requires s != "" && s[0] != '='
    ensures BeforePadding(s, i + 1) <==> BeforePadding(s[1..], i)
  {
    if BeforePadding(s, i + 1) {
      assert forall j :: 0 <= j <= i ==> s[1..][j] == s[j + 1];
    }
    if BeforePadding(s[1..], i) {
      forall j | 0 <= j <= i + 1
        ensures s[j] != '='
      {
        assert j > 0 ==> s[j] == s[1..][j - 1];
      }
    }
  }

  lemma OnlyDigitsRest(s: string)
    requires s != "" && s[0] != '='
    ensures OnlyDigits(s) <==> (s[0] == '\n' || In64(s[0])) && OnlyDigits(s[1..])
  {
    assert BeforePadding(s, 0);
    if OnlyDigits(s) {
      forall i: nat | BeforePadding(s[1..], i)
        ensures s[1..][i] == '\n' || In64(s[1..][i])
      {
        BeforePaddingRest(s, i);
      }
    }
    if (s[0] == '\n' || In64(s[0])) && OnlyDigits(s[1..]) {
      forall i: nat | BeforePadding(s, i)
        ensures s[i] == '\n' || In64(s[i])
      {
        if i > 0 {
          BeforePaddingRest(s, i - 1);
        }
      }
    }
  }

  lemma {:induction false} RunsOnDigits(d: Decoder, s: string)
    requires d.Reading?
    ensures Result(Run(d, s)).Some? <==> OnlyDigits(s)
    decreases |s|
  {
    if s != "" && s[0] == '=' {
      RunEnded(Step(d, Stop), s[1..]);
    } else if s != "" {
      OnlyDigitsRest(s);
      if Read(s[0]).Bad? {
        RunEnded(Failed, s[1..]);
      } else {
        RunsOnDigits(Step(d, Read(s[0])), s[1..]);
      }
    }
  }

  /** A text is read exactly when it has no other character there. */
  lemma DecodedIfOnlyDigits(s: string)
    ensures Decoded64(s).Some? <==> OnlyDigits(s)
  {
    RunsOnDigits(Reading(0, 0, []), s);
  }

  // ----- what is written -----------------------------------------------------------------------------------------

  function DigitCount(n: nat): nat {
    (8 * n + 5) / 6
  }

  lemma LeftoverOfBytes(n: nat)
    ensures Leftover(DigitCount(n)) == if n % 3 == 0 then 1 else if n % 3 == 1 then 16 else 4
  {
    var k := n / 3;
    if n % 3 == 0 {
      assert DigitCount(n) == 4 * k;
    } else if n % 3 == 1 {
      assert DigitCount(n) == 4 * k + 2;
    } else {
      assert DigitCount(n) == 4 * k + 3;
    }
  }

  /** `n` digits, and then padding. */
  predicate DigitsThenPadding(s: string, n: nat) {
    n <= |s| && forall i :: 0 <= i < |s| ==> if i < n then In64(s[i]) else s[i] == '='
  }

  lemma InAlphabet(d: nat)
    requires d < 64
    ensures In64(Char64(d))
  {
  }

  lemma {:induction false} EncodedDigits(bytes: Bytes)
    requires AreBytes(bytes)
    ensures DigitsThenPadding(Encode64(bytes), DigitCount(|bytes|))
    decreases |bytes|
  {
    if |bytes| == 1 {
      InAlphabet(bytes[0] / 4);
      InAlphabet(bytes[0] % 4 * 16);
    } else if |bytes| == 2 {
      InAlphabet(bytes[0] / 4);
      InAlphabet(bytes[0] % 4 * 16 + bytes[1] / 16);
      InAlphabet(bytes[1] % 16 * 4);
    } else if |bytes| >= 3 {
      EncodedDigits(bytes[3..]);
      GroupThenPadding(bytes[0], bytes[1], bytes[2], Encode64(bytes[3..]), DigitCount(|bytes| - 3));
    }
  }

  lemma GroupThenPadding(b0: nat, b1: nat, b2: nat, s: string, n: nat)
    requires b0 < 256 && b1 < 256 && b2 < 256 && DigitsThenPadding(s, n)
    ensures DigitsThenPadding(GroupText(b0, b1, b2) + s, n + 4)
  {
    InAlphabet(b0 / 4);
    InAlphabet(b0 % 4 * 16 + b1 / 16);
    InAlphabet(b1 % 16 * 4 + b2 / 64);
    InAlphabet(b2 % 64);
  }

  /** The last digit of a short group: its low bits are no byte's. */
  function ShortDigit(bytes: Bytes): (d: nat)
    requires |bytes| % 3 != 0
    ensures d < 64
  {
    if |bytes| % 3 == 1 then bytes[|bytes| - 1] % 4 * 16 else bytes[|bytes| - 1] % 16 * 4
  }

  predicate DigitBefore(s: string, n: nat, d: nat)
    requires d < 64
  {
    0 < n <= |s| && s[n - 1] == Char64(d)
  }

  lemma {:induction false} LastOfEncoded(bytes: Bytes)
    requires AreBytes(bytes) && |bytes| % 3 != 0
    ensures DigitBefore(Encode64(bytes), DigitCount(|bytes|), ShortDigit(bytes))
    decreases |bytes|
  {
    if |bytes| < 3 {
      LastOfShort(bytes);
    } else {
      var rest := bytes[3..];
      LastOfEncoded(rest);
      ThreeMore(|rest|);
      LastOfMore(GroupText(bytes[0], bytes[1], bytes[2]), Encode64(rest), DigitCount(|rest|), ShortDigit(rest));
      assert rest[|rest| - 1] == bytes[|bytes| - 1];
    }
  }

  lemma LastOfShort(bytes: Bytes)
    requires AreBytes(bytes) && 0 < |bytes| < 3
    ensures DigitBefore(Encode64(bytes), DigitCount(|bytes|), ShortDigit(bytes))
  {
    if |bytes| == 1 {
      assert DigitCount(1) == 2;
    } else {
      assert DigitCount(2) == 3;
    }
  }

  lemma ThreeMore(n: nat)
    ensures DigitCount(n + 3) == DigitCount(n) + 4 && (n + 3) % 3 == n % 3
  {
  }

  lemma LastOfMore(group: string, s: string, n: nat, d: nat)
    requires |group| == 4 && d < 64 && DigitBefore(s, n, d)
    ensures DigitBefore(group + s, n + 4, d)
  {
    assert (group + s)[n + 3] == s[n - 1];
  }

  lemma {:induction false} BodyOfDigits(s: string, n: nat)
    requires DigitsThenPadding(s, n)
    ensures Body(s) == s[..n]
    decreases n
  {
    if n > 0 {
      BodyOfDigits(s[1..], n - 1);
      assert s[..n] == [s[0]] + s[1..][..n - 1];
    }
  }

  lemma ShortDigitRead(s: string, n: nat, d: nat, digits: seq<nat>)
    requires d < 64 && |digits| == n && DigitBefore(s, n, d) && Spells(s[..n], digits, BASE64)
    ensures digits[n - 1] == d
  {
    assert s[..n][n - 1] == s[n - 1];
    ReadIs(s[n - 1], digits[n - 1]);
    ReadChar(d);
  }

  lemma WholeDigits(digits: seq<nat>, bytes: Bytes)
    requires MakeUp(digits, bytes) && digits != []
    requires var leftover, last := Leftover(|digits|), digits[|digits| - 1];
      leftover == 1 || (leftover == 4 && last % 4 == 0) || (leftover == 16 && last % 16 == 0)
    ensures BigEndian(digits, 64) == BigEndian(bytes, 256) * Leftover(|digits|)
  {
    var number, last := BigEndian(digits[..|digits| - 1], 64), digits[|digits| - 1];
    if Leftover(|digits|) == 4 {
      Quotient4(number * 64 + last, number * 16 + last / 4, 0);
    } else if Leftover(|digits|) == 16 {
      Quotient16(number * 64 + last, number * 4 + last / 16, 0);
    }
  }

  /** The bits of a last digit that are no byte's are zero. */
  predicate LowBitsFree(d: nat, n: nat) {
    (n % 3 == 1 ==> d % 16 == 0) && (n % 3 == 2 ==> d % 4 == 0)
  }

  lemma ShortDigitFree(bytes: Bytes)
    requires |bytes| % 3 != 0
    ensures LowBitsFree(ShortDigit(bytes), |bytes|)
  {
  }

  lemma LastDigitFree(bytes: Bytes, s: string, digits: seq<nat>)
    requires AreBytes(bytes) && |bytes| % 3 != 0 && s == Encode64(bytes) && |digits| == DigitCount(|bytes|) <= |s|
    requires Spells(s[..|digits|], digits, BASE64)
    ensures digits != [] && LowBitsFree(digits[|digits| - 1], |bytes|)
  {
    LastOfEncoded(bytes);
    ShortDigitFree(bytes);
    ShortDigitRead(s, |digits|, ShortDigit(bytes), digits);
  }

  /** Then the digits make up the bytes with nothing but zeros left over. */
  lemma DigitsAreWhole(bytes: Bytes, digits: seq<nat>)
    requires |digits| == DigitCount(|bytes|) && MakeUp(digits, bytes)
    requires |bytes| % 3 != 0 ==> digits != [] && LowBitsFree(digits[|digits| - 1], |bytes|)
    ensures BigEndian(digits, 64) == BigEndian(bytes, 256) * Leftover(|digits|)
  {
    LeftoverOfBytes(|bytes|);
    if digits != [] {
      WholeDigits(digits, bytes);
    }
  }

  /** What is written is the text of RFC 4648, section 4. */
  lemma Encode64IsPadded(bytes: Bytes)
    requires AreBytes(bytes)
    ensures Padded64(Encode64(bytes), bytes)
  {
    var s, n := Encode64(bytes), DigitCount(|bytes|);
    EncodedDigits(bytes);
    BodyOfDigits(s, n);
    Decode64Encode64(bytes);
    Decoded64Is(s, bytes);
    var digits :| Spells(Body(s), digits, BASE64) && MakeUp(digits, bytes);
    if |bytes| % 3 != 0 {
      LastDigitFree(bytes, s, digits);
    }
    DigitsAreWhole(bytes, digits);
  }
}
