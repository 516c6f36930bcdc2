/** Hashes as text: the four formats Nix writes, and the reader that takes any of them. */
module StoreHashes {
  import opened Wrappers
  import opened Bits
  import opened Base32
  import opened HashTexts
  import opened ByteTexts
  import opened Texts

  // ----- hashes ---------------------------------------------------------------------------------------------

  function Size(algo: Algo): nat {
    match algo
    case Md5 => 16
    case Sha1 => 20
    case Sha256 => 32
    case Sha512 => 64
  }

  function Name(algo: Algo): string {
    match algo
    case Md5 => "md5"
    case Sha1 => "sha1"
    case Sha256 => "sha256"
    case Sha512 => "sha512"
  }

  function ParseAlgo(s: string): Option<Algo> {
    if s == "md5" then Some(Md5)
    else if s == "sha1" then Some(Sha1)
    else if s == "sha256" then Some(Sha256)
    else if s == "sha512" then Some(Sha512)
    else None
  }

  ghost predicate IsHash(h: Hash) {
    AreBytes(h.bytes) && |h.bytes| == Size(h.algo)
  }

  /** `text` is the digest in a format other than SRI. */
  ghost predicate RendersDigest(bytes: Bytes, format: Format, text: string) {
    && AreBytes(bytes)
    && match format
      case Base16 => text == Hex(bytes)
      case Nix32 => Encodes(bytes, text)
      case Base64 => text == Encode64(bytes)
      case Sri => false
  }

  ghost predicate Renders(h: Hash, format: Format, text: string) {
    if format == Sri then AreBytes(h.bytes) && text == Name(h.algo) + "-" + Encode64(h.bytes)
    else RendersDigest(h.bytes, format, text)
  }

  /** The length tells the format. */
  lemma LengthOf(bytes: Bytes, format: Format, text: string, algo: Algo)
    requires RendersDigest(bytes, format, text) && |bytes| == Size(algo)
    ensures format == Base16 <==> |text| == Size(algo) * 2
    ensures format == Nix32 <==> |text| == (Size(algo) * 8 + 4) / 5
    ensures format == Base64 <==> |text| == (Size(algo) + 2) / 3 * 4
  {
  }

  // ----- digests, as they are said ---------------------------------------------------------------------------

  lemma {:induction false} ShlIs(x: nat, j: nat)
    ensures Shl(x, j) == Pow2(j) * x
  {
    if j > 0 {
      ShlIs(x, j - 1);
    }
  }

  lemma {:induction false} NumberIs(digits: seq<nat>, width: nat)
    ensures Number(digits, width) == LittleEndian(digits, Pow2(width))
    decreases |digits|
  {
    if digits != [] {
      NumberIs(digits[1..], width);
      ShlIs(Number(digits[1..], width), width);
    }
  }

  lemma Digit32Is(c: char, d: nat)
    requires d < 32
    ensures c == NIX32[d] <==> IsDigit(c) && DigitOf(c) == d
  {
    CharIsDigit(c);
    if c == NIX32[d] {
      PositionFound(d, 0);
    }
  }

  function Reversed(digits: seq<nat>): (r: seq<nat>)
    ensures |r| == |digits| && forall i :: 0 <= i < |r| ==> r[i] == digits[|digits| - 1 - i]
  {
    seq(|digits|, i requires 0 <= i < |digits| => digits[|digits| - 1 - i])
  }

  /** A text spells the digits that are found for its characters. */
  lemma SpellsDigits(text: string, digits: seq<nat>)
    ensures Spells(text, digits, NIX32) <==> ValidText(text) && DigitsOf(text) == Reversed(digits)
  {
    if Spells(text, digits, NIX32) {
      forall i | 0 <= i < |text|
        ensures IsDigit(text[i]) && DigitOf(text[i]) == digits[i]
      {
        Digit32Is(text[i], digits[i]);
      }
    }
    if ValidText(text) && DigitsOf(text) == Reversed(digits) {
      forall i | 0 <= i < |text|
        ensures digits[i] < 32 && text[i] == NIX32[digits[i]]
      {
        var k := |text| - 1 - i;
        assert DigitsOf(text)[k] == Reversed(digits)[k];
        assert IsDigit(text[i]);
        Digit32Is(text[i], digits[i]);
      }
    }
  }

  lemma SameValue(text: string, digits: seq<nat>, bytes: Bytes)
    requires DigitsOf(text) == Reversed(digits)
    ensures Number(DigitsOf(text), 5) == Number(bytes, 8) <==> BigEndian(digits, 32) == LittleEndian(bytes, 256)
  {
    ThirtyTwo();
    NumberIs(bytes, 8);
    NumberIs(DigitsOf(text), 5);
    Mirrored(digits, DigitsOf(text), 32);
  }

  lemma Denotes32Is(text: string, bytes: Bytes)
    ensures Encodes(bytes, text) <==> Denotes32(text, bytes)
  {
    if Encodes(bytes, text) {
      var digits := Reversed(DigitsOf(text));
      assert Reversed(digits) == DigitsOf(text);
      SpellsDigits(text, digits);
      SameValue(text, digits, bytes);
    }
    if Denotes32(text, bytes) {
      var digits :| Spells(text, digits, NIX32) && BigEndian(digits, 32) == LittleEndian(bytes, 256);
      SpellsDigits(text, digits);
      SameValue(text, digits, bytes);
    }
  }

  lemma AlgorithmIs(algo: Algo, name: string, size: nat)
    ensures Algorithm(algo, name, size) <==> name == Name(algo) && size == Size(algo)
  {
  }

  lemma RenderedIsText(h: Hash, format: Format, text: string)
    requires IsHash(h) && Renders(h, format, text)
    ensures IsTextOf(h, format, text)
  {
    match format {
      case Base16 =>
        forall i | 0 <= i < |h.bytes|
          ensures text[2 * i] == LOWER_HEX[h.bytes[i] / 16] && text[2 * i + 1] == LOWER_HEX[h.bytes[i] % 16]
        {
          HexIsLower(h.bytes, i);
        }
      case Nix32 => Denotes32Is(text, h.bytes);
      case Base64 => Encode64IsPadded(h.bytes);
      case Sri =>
        Encode64IsPadded(h.bytes);
        AlgorithmIs(h.algo, Name(h.algo), |h.bytes|);
    }
  }

  method FormatHash(h: Hash, format: Format) returns (text: string)
    requires IsHash(h)
    ensures Renders(h, format, text) && IsTextOf(h, format, text)
  {
    match format {
      case Base16 => text := Hex(h.bytes);
      case Nix32 => text := Base32Encode(h.bytes);
      case Base64 => text := Encode64(h.bytes);
      case Sri => text := Name(h.algo) + "-" + Encode64(h.bytes);
    }
    RenderedIsText(h, format, text);
  }

  /** A digest written in some format is one. */
  lemma RenderedIsDigest(bytes: Bytes, format: Format, text: string, algo: Algo)
    requires RendersDigest(bytes, format, text) && |bytes| == Size(algo)
    ensures IsDigest(text, algo, bytes)
  {
    AlgorithmIs(algo, Name(algo), Size(algo));
    match format {
      case Base16 =>
        UnhexHex(bytes);
        UnhexIs(text, bytes);
      case Nix32 => Denotes32Is(text, bytes);
      case Base64 =>
        Decode64Encode64(bytes);
        Decoded64Is(text, bytes);
    }
  }

  /** A digest of the algorithm in the format its length is that of: exactly what the text says. */
  method DecodeDigest(s: string, algo: Algo) returns (r: Option<Bytes>)
    ensures forall bytes :: r == Some(bytes) <==> IsDigest(s, algo, bytes)
  {
    var size := Size(algo);
    if |s| == size * 2 {
      r := Unhex(s);
    } else if |s| == (size * 8 + 4) / 5 {
      r := Base32Decode(s);
    } else if |s| == (size + 2) / 3 * 4 {
      r := Base64Decode(s);
    } else {
      r := None;
    }
    ghost var read := r;
    if r.Some? && |r.value| != size {
      r := None;
    }
    forall bytes
      ensures r == Some(bytes) <==> IsDigest(s, algo, bytes)
    {
      ReadAs(s, algo, read, bytes);
    }
  }

  ghost predicate ReadByLength(s: string, size: nat, read: Option<Bytes>) {
    if |s| == size * 2 then read == Unhex(s)
    else if |s| == (size * 8 + 4) / 5 then if read.Some? then Encodes(read.value, s) else NotEncoded(s)
    else if |s| == (size + 2) / 3 * 4 then read == Decoded64(s)
    else read == None
  }

  lemma ReadAs(s: string, algo: Algo, read: Option<Bytes>, bytes: Bytes)
    requires ReadByLength(s, Size(algo), read)
    ensures read == Some(bytes) && |bytes| == Size(algo) <==> IsDigest(s, algo, bytes)
  {
    AlgorithmIs(algo, Name(algo), |bytes|);
    UnhexIs(s, bytes);
    Denotes32Is(s, bytes);
    Decoded64Is(s, bytes);
    if read.Some? && Encodes(bytes, s) && Encodes(read.value, s) {
      BytesUnique(bytes, read.value, s);
    }
  }

  predicate Plain(s: string) {
    forall i :: 0 <= i < |s| ==> s[i] != ':' && s[i] != '-'
  }

  lemma {:induction false} HexPlain(bytes: Bytes)
    requires AreBytes(bytes)
    ensures Plain(Hex(bytes))
    decreases |bytes|
  {
    if bytes != [] {
      HexPlain(bytes[1..]);
    }
  }

  lemma {:induction false} Encoded64Plain(bytes: Bytes)
    requires AreBytes(bytes)
    ensures Plain(Encode64(bytes))
    decreases |bytes|
  {
    if |bytes| >= 3 {
      Encoded64Plain(bytes[3..]);
    }
  }

  lemma DigestPlain(bytes: Bytes, format: Format, text: string)
    requires RendersDigest(bytes, format, text)
    ensures Plain(text)
  {
    match format {
      case Base16 => HexPlain(bytes);
      case Base64 => Encoded64Plain(bytes);
      case Nix32 =>
        forall i | 0 <= i < |text|
          ensures text[i] != ':' && text[i] != '-'
        {
          CharIsDigit(text[i]);
        }
    }
  }

  datatype Prefixed = Prefixed(algo: string, rest: string, sri: bool)

  /** A string with a `:`, or else with a `-`, names its algorithm before the first one. */
  function Prefix(s: string): Option<Prefixed> {
    var colon, dash := Find(s, {':'}), Find(s, {'-'});
    if colon < |s| then Some(Prefixed(s[..colon], s[colon + 1..], false))
    else if dash < |s| then Some(Prefixed(s[..dash], s[dash + 1..], true))
    else None
  }

  /** `p` is how `s` is divided at its first `c`, and no other way. */
  ghost predicate DividedBy(s: string, c: char, p: Prefixed) {
    && Divides(s, p.algo, c, p.rest)
    && forall name, rest :: Divides(s, name, c, rest) ==> name == p.algo && rest == p.rest
  }

  lemma DividesAt(s: string, name: string, c: char, rest: string)
    requires Divides(s, name, c, rest)
    ensures Find(s, {c}) == |name| < |s| && name == s[..|name|] && rest == s[|name| + 1..]
  {
    var tail := [c] + rest;
    assert s == name + tail && tail[1..] == rest;
    FindAfter(name, tail, {c});
  }

  lemma DividedAt(s: string, c: char, i: nat)
    requires i == Find(s, {c}) < |s|
    ensures Divides(s, s[..i], c, s[i + 1..])
  {
    assert s == s[..i] + [s[i]] + s[i + 1..];
    forall j | 0 <= j < i
      ensures s[..i][j] != c
    {
      assert s[j] !in {c};
    }
  }

  lemma FoundIf(s: string, c: char)
    ensures c in s <==> Find(s, {c}) < |s|
  {
    var i := Find(s, {c});
    assert forall j :: 0 <= j < i ==> s[j] !in {c};
  }

  lemma DividedOnce(s: string, c: char, p: Prefixed)
    requires c in s && p.algo == s[..Find(s, {c})] && p.rest == s[Find(s, {c})..][1..]
    ensures DividedBy(s, c, p)
  {
    var i := Find(s, {c});
    FoundIf(s, c);
    assert s[i..][1..] == s[i + 1..];
    DividedAt(s, c, i);
    forall name, rest | Divides(s, name, c, rest)
      ensures name == p.algo && rest == p.rest
    {
      DividesAt(s, name, c, rest);
    }
  }

  /** Where the first colon, or else the first dash, divides a text. */
  lemma PrefixDivides(s: string)
    ensures ':' in s ==> Prefix(s).Some? && !Prefix(s).value.sri && DividedBy(s, ':', Prefix(s).value)
    ensures ':' !in s && '-' in s ==> Prefix(s).Some? && Prefix(s).value.sri && DividedBy(s, '-', Prefix(s).value)
    ensures ':' !in s && '-' !in s ==> Prefix(s).None?
  {
    FoundIf(s, ':');
    FoundIf(s, '-');
    if ':' in s {
      DividedOnce(s, ':', Prefix(s).value);
    } else if '-' in s {
      DividedOnce(s, '-', Prefix(s).value);
    }
  }

  lemma ParseAlgoIs(name: string, algo: Algo)
    ensures ParseAlgo(name) == Some(algo) <==> name == Name(algo)
  {
  }

  ghost predicate AsExpected(expected: Option<Algo>, algo: Algo) {
    expected.Some? ==> expected.value == algo
  }

  /** What a text that names an algorithm says follows from how it is divided. */
  lemma SaysNamed(s: string, p: Prefixed, expected: Option<Algo>, h: Hash)
    requires if p.sri then ':' !in s && '-' in s && DividedBy(s, '-', p) else ':' in s && DividedBy(s, ':', p)
    ensures Says(s, expected, h) <==>
      && AsExpected(expected, h.algo) && ParseAlgo(p.algo) == Some(h.algo)
      && if p.sri then |h.bytes| == Size(h.algo) && Denotes64(p.rest, h.bytes) else IsDigest(p.rest, h.algo, h.bytes)
  {
    ParseAlgoIs(p.algo, h.algo);
    AlgorithmIs(h.algo, p.algo, |h.bytes|);
    AlgorithmIs(h.algo, Name(h.algo), |h.bytes|);
  }

  /** A hash is read exactly when the text says it. */
  method ParseHash(s: string, expected: Option<Algo>) returns (r: Option<Hash>)
    ensures forall h :: r == Some(h) <==> Says(s, expected, h)
  {
    var prefix := Prefix(s);
    PrefixDivides(s);
    if prefix.None? {
      if expected.None? {
        return None;
      }
      var bytes := DecodeDigest(s, expected.value);
      return if bytes.Some? then Some(Hash(expected.value, bytes.value)) else None;
    }
    var Prefixed(name, rest, sri) := prefix.value;
    forall h: Hash {
      SaysNamed(s, prefix.value, expected, h);
    }
    var algo := ParseAlgo(name);
    if algo.None? || (expected.Some? && expected != algo) {
      return None;
    }
    var bytes;
    if sri {
      bytes := Base64Decode(rest);
      forall some: Bytes {
        Decoded64Is(rest, some);
      }
      if bytes.Some? && |bytes.value| != Size(algo.value) {
        bytes := None;
      }
    } else {
      bytes := DecodeDigest(rest, algo.value);
    }
    return if bytes.Some? then Some(Hash(algo.value, bytes.value)) else None;
  }

  lemma NameDivides(name: string, c: char, text: string)
    requires Plain(name) && c in {':', '-'}
    ensures Divides(name + [c] + text, name, c, text)
  {
    assert forall i :: 0 <= i < |name| ==> name[i] != c;
  }

  lemma NoneOf(c: char, a: string, b: string)
    requires c !in a && c !in b
    ensures c !in a + b
  {
  }

  /** A digest in any format says its hash to a reader that expects the algorithm, or is told by a prefix. */
  lemma RenderedSays(h: Hash, format: Format, text: string)
    requires IsHash(h) && RendersDigest(h.bytes, format, text)
    ensures Says(text, Some(h.algo), h)
    ensures forall expected :: AsExpected(expected, h.algo) ==> Says(Name(h.algo) + ":" + text, expected, h)
    ensures format == Base64 ==>
      forall expected :: AsExpected(expected, h.algo) ==> Says(Name(h.algo) + "-" + text, expected, h)
  {
    RenderedIsDigest(h.bytes, format, text, h.algo);
    DigestPlain(h.bytes, format, text);
    var name := Name(h.algo);
    AlgorithmIs(h.algo, name, |h.bytes|);
    assert Plain(name);
    NameDivides(name, ':', text);
    assert (name + ":" + text)[|name|] == ':';
    NameDivides(name, '-', text);
    assert (name + "-" + text)[|name|] == '-';
    NoneOf(':', name, "-");
    NoneOf(':', name + "-", text);
    if format == Base64 {
      Decode64Encode64(h.bytes);
      Decoded64Is(text, h.bytes);
    }
  }

  /** A text that names no algorithm says nothing, nor does one divided by `-` whose rest is not in base 64. */
  lemma SaysNothing(s: string, name: string, c: char, rest: string, expected: Option<Algo>, h: Hash)
    requires Divides(s, name, c, rest) && (c == ':' || (c == '-' && ':' !in s))
    requires name in {"md5", "sha1", "sha256", "sha512"} ==> c == '-' && !OnlyDigits(rest)
    ensures !Says(s, expected, h)
  {
    assert s[|name|] == c;
    PrefixDivides(s);
    if c == '-' {
      DecodedIfOnlyDigits(rest);
      Decoded64Is(rest, h.bytes);
    }
    SaysNamed(s, Prefix(s).value, expected, h);
  }

  /** Formatting a hash and parsing it as of its algorithm gives it back, in all four formats. */
  method FormatAndParse(h: Hash, format: Format) returns (text: string, back: Option<Hash>)
    requires IsHash(h)
    ensures Renders(h, format, text) && back == Some(h)
  {
    text := FormatHash(h, format);
    back := ParseHash(text, Some(h.algo));
    if format == Sri {
      RenderedSays(h, Base64, Encode64(h.bytes));
    } else {
      RenderedSays(h, format, text);
    }
  }
}
