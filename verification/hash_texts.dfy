/** What a hash's text says, apart from how it is read or written: the alphabets are written out,
  * and a text denotes bytes by the number that its digits make up.
  */
module HashTexts {
  import opened Wrappers

  datatype Algo = Md5 | Sha1 | Sha256 | Sha512

  datatype Format = Base16 | Nix32 | Base64 | Sri

  datatype Hash = Hash(algo: Algo, bytes: seq<nat>)

  /** An algorithm's name, and how many bytes its digests have. */
  predicate Algorithm(algo: Algo, name: string, size: nat) {
    || (algo == Md5 && name == "md5" && size == 16)
    || (algo == Sha1 && name == "sha1" && size == 20)
    || (algo == Sha256 && name == "sha256" && size == 32)
    || (algo == Sha512 && name == "sha512" && size == 64)
  }

  const LOWER_HEX := "0123456789abcdef"
  const UPPER_HEX := "0123456789ABCDEF"
  const NIX32 := "0123456789abcdfghijklmnpqrsvwxyz"
  const BASE64 := "ABCDEFGHIJKLMNOPQRSTUVWXYZ" + "abcdefghijklmnopqrstuvwxyz" + "0123456789" + "+/"

  predicate ByteString(bytes: seq<nat>) {
    forall i :: 0 <= i < |bytes| ==> bytes[i] < 256
  }

  function LittleEndian(digits: seq<nat>, base: nat): nat {
    if digits == [] then 0 else digits[0] + base * LittleEndian(digits[1..], base)
  }

  function BigEndian(digits: seq<nat>, base: nat): nat {
    if digits == [] then 0 else BigEndian(digits[..|digits| - 1], base) * base + digits[|digits| - 1]
  }

  /** Each character of `text` is the one of its digit. */
  predicate Spells(text: string, digits: seq<nat>, alphabet: string) {
    |text| == |digits| &&
    forall i :: 0 <= i < |text| ==> digits[i] < |alphabet| && text[i] == alphabet[digits[i]]
  }

  // ----- the three kinds of text -----------------------------------------------------------------

  predicate HexChar(c: char, value: nat) {
    value < 16 && (c == LOWER_HEX[value] || c == UPPER_HEX[value])
  }

  /** Two digits of either case for each byte. */
  predicate DenotesHex(text: string, bytes: seq<nat>) {
    && |text| == 2 * |bytes|
    && forall i :: 0 <= i < |bytes| ==> HexChar(text[2 * i], bytes[i] / 16) && HexChar(text[2 * i + 1], bytes[i] % 16)
  }

  /** Five bits for each digit, the first digit and the last byte the most significant. */
  ghost predicate Denotes32(text: string, bytes: seq<nat>) {
    && ByteString(bytes) && |text| == (8 * |bytes| + 4) / 5
    && exists digits :: Spells(text, digits, NIX32) && BigEndian(digits, 32) == LittleEndian(bytes, 256)
  }

  /** What comes before the first `=`, but for newlines. */
  function Body(text: string): (body: string)
    ensures |body| <= |text|
  {
    if text == "" || text[0] == '=' then ""
    else if text[0] == '\n' then Body(text[1..])
    else [text[0]] + Body(text[1..])
  }

  /** How many values the bits have that are left over when `n` digits of six bits are cut into bytes. */
  function Leftover(n: nat): nat {
    if n % 4 == 0 then 1 else if n % 4 == 1 then 64 else if n % 4 == 2 then 16 else 4
  }

  /** Six bits for each digit, the first the most significant, and the bits that make up no byte left out. */
  predicate MakeUp(digits: seq<nat>, bytes: seq<nat>) {
    && ByteString(bytes) && |bytes| == 6 * |digits| / 8
    && BigEndian(bytes, 256) == BigEndian(digits, 64) / Leftover(|digits|)
  }

  ghost predicate Denotes64(text: string, bytes: seq<nat>) {
    exists digits :: Spells(Body(text), digits, BASE64) && MakeUp(digits, bytes)
  }

  /** The text of RFC 4648, section 4: all of the bits, padded with zeros to digits and with `=` to groups of four. */
  ghost predicate Padded64(text: string, bytes: seq<nat>) {
    var n := (8 * |bytes| + 5) / 6;
    && ByteString(bytes) && |text| == (|bytes| + 2) / 3 * 4 && n <= |text|
    && (forall i :: n <= i < |text| ==> text[i] == '=')
    && exists digits ::
        Spells(text[..n], digits, BASE64) && BigEndian(digits, 64) == BigEndian(bytes, 256) * Leftover(n)
  }

  // ----- hashes ----------------------------------------------------------------------------------

  /** A digest of the algorithm in one of three formats. */
  ghost predicate IsDigest(text: string, algo: Algo, bytes: seq<nat>) {
    && (exists name :: Algorithm(algo, name, |bytes|))
    && (DenotesHex(text, bytes) || Denotes32(text, bytes)
      || (|text| == (|bytes| + 2) / 3 * 4 && Denotes64(text, bytes)))
  }

  /** `s` is divided at its first `c`. */
  predicate Divides(s: string, name: string, c: char, rest: string) {
    s == name + [c] + rest && c !in name
  }

  /** `s` says `h`: where it has a `:`, or else a `-`, it names the algorithm before the first one, and
    * what comes after is a digest, after `-` always in base 64; else the algorithm is the expected one.
    */
  ghost predicate Says(s: string, expected: Option<Algo>, h: Hash) {
    && (expected.Some? ==> expected.value == h.algo)
    && if ':' in s then exists name, rest ::
        Divides(s, name, ':', rest) && Algorithm(h.algo, name, |h.bytes|) && IsDigest(rest, h.algo, h.bytes)
      else if '-' in s then exists name, rest ::
        Divides(s, name, '-', rest) && Algorithm(h.algo, name, |h.bytes|) && Denotes64(rest, h.bytes)
      else expected.Some? && IsDigest(s, h.algo, h.bytes)
  }

  /** `text` is the hash in the format. */
  ghost predicate IsTextOf(h: Hash, format: Format, text: string) {
    match format
    case Base16 =>
      |text| == 2 * |h.bytes| && ByteString(h.bytes) && forall i :: 0 <= i < |h.bytes| ==>
        text[2 * i] == LOWER_HEX[h.bytes[i] / 16] && text[2 * i + 1] == LOWER_HEX[h.bytes[i] % 16]
    case Nix32 => Denotes32(text, h.bytes)
    case Base64 => Padded64(text, h.bytes)
    case Sri => exists name, digest ::
      Algorithm(h.algo, name, |h.bytes|) && text == name + "-" + digest && Padded64(digest, h.bytes)
  }

  // ----- numbers ---------------------------------------------------------------------------------

  /** As many bytes with the same number are the same bytes. */
  lemma {:induction false} BigEndianInjective(a: seq<nat>, b: seq<nat>)
    requires |a| == |b| && ByteString(a) && ByteString(b) && BigEndian(a, 256) == BigEndian(b, 256)
    ensures a == b
    decreases |a|
  {
    if a != [] {
      var n := |a| - 1;
      BigEndianInjective(a[..n], b[..n]);
      assert a == a[..n] + [a[n]] && b == b[..n] + [b[n]];
    }
  }

  lemma Appended(digits: seq<nat>, d: nat, base: nat)
    ensures BigEndian(digits + [d], base) == BigEndian(digits, base) * base + d
  {
    assert (digits + [d])[..|digits|] == digits;
  }

  lemma {:induction false} Mirrored(big: seq<nat>, little: seq<nat>, base: nat)
    requires |big| == |little| && forall i :: 0 <= i < |big| ==> little[i] == big[|big| - 1 - i]
    ensures BigEndian(big, base) == LittleEndian(little, base)
    decreases |big|
  {
    if big != [] {
      Mirrored(big[..|big| - 1], little[1..], base);
    }
  }
}
