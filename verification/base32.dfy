/** Nix's base-32 texts of byte strings. A byte is a number below 256. */
module Base32 {
  import opened Wrappers
  import opened Bits

  const CHARS := "0123456789abcdfghijklmnpqrsvwxyz"

  type Bytes = seq<nat>

  predicate AreBytes(b: Bytes) {
    AllBelow(b, 256)
  }

  /** How many digits of five bits it takes for `n` bytes. */
  function EncodedLength(n: nat): nat {
    (n * 8 + 4) / 5
  }

  function Position(c: char, from: nat): (k: Option<nat>)
    requires from <= |CHARS|
    ensures k.Some? ==> k.value < |CHARS| && CHARS[k.value] == c
    decreases |CHARS| - from
  {
    if from == |CHARS| then None else if CHARS[from] == c then Some(from) else Position(c, from + 1)
  }

  lemma {:induction false} PositionFound(k: nat, from: nat)
    requires from <= k < |CHARS|
    ensures Position(CHARS[k], from) == Some(k)
    decreases |CHARS| - from
  {
    DistinctChars(from, k);
    if from < k {
      PositionFound(k, from + 1);
    }
  }

  lemma DistinctChars(i: nat, k: nat)
    requires i < |CHARS| && k < |CHARS|
    ensures CHARS[i] == CHARS[k] <==> i == k
  {
    Ascending(i);
    Ascending(k);
  }

  /** Where a digit's character is follows from the character. */
  lemma Ascending(k: nat)
    requires k < |CHARS|
    ensures k == if CHARS[k] <= '9' then (CHARS[k] - '0') as nat
      else if CHARS[k] <= 'd' then (CHARS[k] - 'a') as nat + 10
      else if CHARS[k] <= 'n' then (CHARS[k] - 'f') as nat + 14
      else if CHARS[k] <= 's' then (CHARS[k] - 'p') as nat + 23
      else (CHARS[k] - 'v') as nat + 27
  {
  }

  // ----- texts --------------------------------------------------------------------------------------------

  predicate IsDigit(c: char) {
    Position(c, 0).Some?
  }

  predicate ValidText(s: string) {
    forall i :: 0 <= i < |s| ==> IsDigit(s[i])
  }

  function DigitOf(c: char): nat {
    var k := Position(c, 0);
    if k.Some? then k.value else 0
  }

  /** The digits of a text, the least significant first: a text has its last character first. */
  function DigitsOf(s: string): (d: seq<nat>)
    ensures |d| == |s| && AllBelow(d, 32)
  {
    seq(|s|, i requires 0 <= i < |s| => DigitOf(s[|s| - 1 - i]))
  }

  /** The text has the length for the bytes, and denotes the same number. */
  ghost predicate Encodes(bytes: Bytes, text: string) {
    && AreBytes(bytes) && |text| == EncodedLength(|bytes|) && ValidText(text)
    && Number(DigitsOf(text), 5) == Number(bytes, 8)
  }

  lemma {:induction false} CharIsDigit(c: char)
    ensures IsDigit(c) <==> c in CHARS
    ensures IsDigit(c) ==> CHARS[DigitOf(c)] == c
  {
    if c in CHARS {
      var k :| 0 <= k < |CHARS| && CHARS[k] == c;
      PositionFound(k, 0);
    }
  }

  lemma ThirtyTwo()
    ensures Pow2(5) == 32 && Pow2(8) == 256
  {
    assert Shl(1, 3) == 8;
    assert Shl(1, 6) == 64;
  }

  predicate BitAt(bytes: Bytes, p: nat) {
    DigitBit(bytes, p / 8, p % 8)
  }

  lemma BytesBit(bytes: Bytes, p: nat)
    requires AreBytes(bytes)
    ensures Bit(Number(bytes, 8), p) <==> BitAt(bytes, p)
  {
    ThirtyTwo();
    BitOfNumber(bytes, 8, p / 8, p % 8);
  }

  lemma DigitsBit(digits: seq<nat>, n: nat, t: nat)
    requires AllBelow(digits, 32) && t < 5
    ensures Bit(Number(digits, 5), n * 5 + t) <==> DigitBit(digits, n, t)
  {
    ThirtyTwo();
    BitOfNumber(digits, 5, n, t);
  }

  /** Digits and bytes denote the same number when they agree bit by bit. */
  lemma SameNumber(digits: seq<nat>, bytes: Bytes)
    requires AllBelow(digits, 32) && AreBytes(bytes)
    requires forall n: nat, t: nat :: t < 5 ==> (DigitBit(digits, n, t) <==> BitAt(bytes, n * 5 + t))
    ensures Number(digits, 5) == Number(bytes, 8)
  {
    forall p: nat
      ensures Bit(Number(digits, 5), p) <==> Bit(Number(bytes, 8), p)
    {
      var n, t := p / 5, p % 5;
      assert p == n * 5 + t;
      DigitsBit(digits, n, t);
      BytesBit(bytes, p);
    }
    SameBits(Number(digits, 5), Number(bytes, 8));
  }

  /** The digits of a text reach the last byte, and not past the next. */
  lemma DigitsReach(n: nat, len: nat)
    ensures n < EncodedLength(len) ==> n * 5 / 8 < len
    ensures n >= EncodedLength(len) ==> n * 5 >= 8 * len
  {
  }

  lemma LengthInjective(m: nat, n: nat)
    requires EncodedLength(m) == EncodedLength(n)
    ensures m == n
  {
  }

  ghost predicate NotEncoded(text: string) {
    forall bytes :: !Encodes(bytes, text)
  }

  /** Bytes have one text. */
  lemma TextUnique(bytes: Bytes, text: string, other: string)
    requires Encodes(bytes, text) && Encodes(bytes, other)
    ensures text == other
  {
    ThirtyTwo();
    NumberInjective(DigitsOf(text), DigitsOf(other), 5);
    SameDigits(text, other);
  }

  lemma SameDigits(text: string, other: string)
    requires ValidText(text) && ValidText(other) && DigitsOf(text) == DigitsOf(other)
    ensures text == other
  {
    var a, b := DigitsOf(text), DigitsOf(other);
    forall i | 0 <= i < |a|
      ensures text[i] == other[i]
    {
      assert a[|a| - 1 - i] == DigitOf(text[i]) && b[|a| - 1 - i] == DigitOf(other[i]);
    }
  }

  /** And a text is that of one byte string. */
  lemma BytesUnique(bytes: Bytes, other: Bytes, text: string)
    requires Encodes(bytes, text) && Encodes(other, text)
    ensures bytes == other
  {
    ThirtyTwo();
    NumberInjective(bytes, other, 8);
  }

  // ----- encoding -------------------------------------------------------------------------------------------

  /** The digit of the five bits from bit `n * 5` on. */
  function DigitAt(bytes: Bytes, n: nat): nat {
    var i, j := n * 5 / 8, n * 5 % 8;
    if i >= |bytes| then 0
    else
      var c := Shr(bytes[i], j);
      Mask(if i + 1 < |bytes| then Or(c, Shl(bytes[i + 1], 8 - j)) else c, 5)
  }

  lemma DigitAtBits(bytes: Bytes, n: nat, t: nat)
    requires AreBytes(bytes) && n * 5 / 8 < |bytes|
    ensures Bit(DigitAt(bytes, n), t) <==> t < 5 && BitAt(bytes, n * 5 + t)
  {
    ThirtyTwo();
    var i, j := n * 5 / 8, n * 5 % 8;
    var c := Shr(bytes[i], j);
    var both := if i + 1 < |bytes| then Or(c, Shl(bytes[i + 1], 8 - j)) else c;
    BitOfMask(both, 5, t);
    BitOfShr(bytes[i], j, t);
    if i + 1 < |bytes| {
      BitOfOr(c, Shl(bytes[i + 1], 8 - j), t);
      BitOfShl(bytes[i + 1], 8 - j, t);
    }
    if j + t >= 8 {
      BitsBelow(bytes[i], 8, j + t);
    }
    Around(n, t);
  }

  /** Where bit `n * 5 + t` is. */
  lemma Around(n: nat, t: nat)
    ensures t < 5 ==> var i, j := n * 5 / 8, n * 5 % 8;
      (n * 5 + t) / 8 == (if j + t < 8 then i else i + 1) && (n * 5 + t) % 8 == if j + t < 8 then j + t else j + t - 8
  {
  }

  method Base32Encode(bytes: Bytes) returns (out: string)
    requires AreBytes(bytes)
    ensures Encodes(bytes, out)
  {
    var len := EncodedLength(|bytes|);
    out := "";
    for n := len downto 0
      invariant Emitted(bytes, len, len - n, out)
    {
      var b := n * 5;
      var i, j := b / 8, b % 8;
      DigitsReach(n, |bytes|);
      var c := Shr(bytes[i], j);
      if i + 1 < |bytes| {
        c := Or(c, Shl(bytes[i + 1], 8 - j));
      }
      DigitChar(Mask(c, 5), c);
      EmittedNext(bytes, len, len - n - 1, out, CHARS[Mask(c, 5)]);
      out := out + [CHARS[Mask(c, 5)]];
    }
    EncodesDigits(bytes, out);
  }

  /** The `n` most significant of `len` digits. */
  predicate Emitted(bytes: Bytes, len: nat, n: nat, out: string) {
    |out| == n <= len && forall k :: 0 <= k < n ==> IsDigitAt(out[k], bytes, len - 1 - k)
  }

  lemma EmittedNext(bytes: Bytes, len: nat, n: nat, out: string, c: char)
    requires Emitted(bytes, len, n, out) && n < len && IsDigitAt(c, bytes, len - 1 - n)
    ensures Emitted(bytes, len, n + 1, out + [c])
  {
  }

  predicate IsDigitAt(c: char, bytes: Bytes, n: nat) {
    IsDigit(c) && DigitOf(c) == DigitAt(bytes, n)
  }

  lemma DigitChar(digit: nat, c: nat)
    requires digit == Mask(c, 5)
    ensures digit < |CHARS| && IsDigit(CHARS[digit]) && DigitOf(CHARS[digit]) == digit
  {
    MaskBound(c, 5);
    ThirtyTwo();
    PositionFound(digit, 0);
  }

  lemma EncodesDigits(bytes: Bytes, out: string)
    requires AreBytes(bytes) && Emitted(bytes, EncodedLength(|bytes|), |out|, out) && |out| == EncodedLength(|bytes|)
    ensures Encodes(bytes, out)
  {
    var digits := DigitsOf(out);
    forall n | 0 <= n < |digits|
      ensures digits[n] == DigitAt(bytes, n)
    {
      assert IsDigitAt(out[|out| - 1 - n], bytes, n);
    }
    DigitsAgree(bytes, digits);
  }

  lemma DigitsAgree(bytes: Bytes, digits: seq<nat>)
    requires AreBytes(bytes) && AllBelow(digits, 32) && |digits| == EncodedLength(|bytes|)
    requires forall n :: 0 <= n < |digits| ==> digits[n] == DigitAt(bytes, n)
    ensures Number(digits, 5) == Number(bytes, 8)
  {
    forall n: nat, t: nat | t < 5
      ensures DigitBit(digits, n, t) <==> BitAt(bytes, n * 5 + t)
    {
      DigitsReach(n, |bytes|);
      if n < |digits| {
        DigitAtBits(bytes, n, t);
      }
    }
    SameNumber(digits, bytes);
  }

  // ----- decoding -------------------------------------------------------------------------------------------

  /** One digit put into the bytes at bit `n * 5`. */
  function PutDigit(out: Bytes, n: nat, digit: nat): (next: Bytes)
    requires n * 5 / 8 < |out|
    ensures |next| == |out|
  {
    var i, j := n * 5 / 8, n * 5 % 8;
    var low := out[i := Or(out[i], Mask(Shl(digit, j), 8))];
    if i + 1 < |out| then low[i + 1 := Or(low[i + 1], Shr(digit, 8 - j))] else low
  }

  lemma {:induction false} OrBelow(a: nat, b: nat, n: nat)
    requires a < Pow2(n) && b < Pow2(n)
    ensures Or(a, b) < Pow2(n)
    decreases n
  {
    if n > 0 {
      OrBelow(a / 2, b / 2, n - 1);
    }
  }

  lemma {:induction false} ShrBelow(x: nat, j: nat)
    ensures Shr(x, j) <= x
    decreases j
  {
    if j > 0 {
      ShrBelow(x / 2, j - 1);
    }
  }

  lemma PutDigitBytes(out: Bytes, n: nat, digit: nat)
    requires AreBytes(out) && n * 5 / 8 < |out| && digit < 32
    ensures AreBytes(PutDigit(out, n, digit))
  {
    ThirtyTwo();
    var i, j := n * 5 / 8, n * 5 % 8;
    MaskBound(Shl(digit, j), 8);
    OrBelow(out[i], Mask(Shl(digit, j), 8), 8);
    if i + 1 < |out| {
      ShrBelow(digit, 8 - j);
      OrBelow(out[i + 1], Shr(digit, 8 - j), 8);
    }
  }

  lemma PutDigitBits(out: Bytes, n: nat, digit: nat, p: nat)
    requires AreBytes(out) && n * 5 / 8 < |out| && digit < 32
    ensures BitAt(PutDigit(out, n, digit), p) <==>
      BitAt(out, p) || (p / 8 < |out| && n * 5 <= p < n * 5 + 5 && Bit(digit, p - n * 5))
  {
    ThirtyTwo();
    var i, j := n * 5 / 8, n * 5 % 8;
    var t := p % 8;
    BitOfOr(out[i], Mask(Shl(digit, j), 8), t);
    BitOfMask(Shl(digit, j), 8, t);
    BitOfShl(digit, j, t);
    if i + 1 < |out| {
      BitOfOr(out[i + 1], Shr(digit, 8 - j), t);
      BitOfShr(digit, 8 - j, t);
    }
    if p >= n * 5 + 5 {
      BitsBelow(digit, 5, p - n * 5);
    }
  }

  /** No bits carried past the end. */
  predicate CarryFits(len: nat, n: nat, digit: nat) {
    n * 5 / 8 + 1 < len || Shr(digit, 8 - n * 5 % 8) == 0
  }

  ghost predicate Placed(digits: seq<nat>, n: nat, out: Bytes) {
    forall p: nat :: BitAt(out, p) <==> p < n * 5 && p / 8 < |out| && DigitBit(digits, p / 5, p % 5)
  }

  lemma PlacedNext(digits: seq<nat>, n: nat, out: Bytes)
    requires AllBelow(digits, 32) && n < |digits| && AreBytes(out) && n * 5 / 8 < |out| && Placed(digits, n, out)
    ensures Placed(digits, n + 1, PutDigit(out, n, digits[n]))
  {
    forall p: nat
      ensures BitAt(PutDigit(out, n, digits[n]), p) <==>
        p < (n + 1) * 5 && p / 8 < |out| && DigitBit(digits, p / 5, p % 5)
    {
      PutDigitBits(out, n, digits[n], p);
      assert n * 5 <= p < n * 5 + 5 ==> p / 5 == n && p % 5 == p - n * 5;
    }
  }

  /** Bits carried past the end are those of the text's number that no byte string of that length
    * has.
    */
  lemma CarryLost(digits: seq<nat>, n: nat, len: nat)
    requires AllBelow(digits, 32) && n < |digits| && |digits| == EncodedLength(len)
    ensures CarryFits(len, n, digits[n]) <==> NoneLost(digits[n], n * 5, 8 * len)
  {
    DigitsReach(n, len);
    var over := 8 - n * 5 % 8;
    if n * 5 / 8 + 1 >= len {
      assert n * 5 + over == 8 * len;
      if CarryFits(len, n, digits[n]) {
        forall t: nat | over <= t < 5
          ensures !Bit(digits[n], t)
        {
          BitOfShr(digits[n], over, t - over);
          ZeroBit(t - over);
        }
      }
      if NoneLost(digits[n], n * 5, 8 * len) {
        NothingCarried(digits[n], over);
      }
    } else {
      assert n * 5 + 4 < 8 * len;
    }
  }

  predicate NoneLost(digit: nat, at: nat, end: nat) {
    forall t: nat :: t < 5 && at + t >= end ==> !Bit(digit, t)
  }

  lemma NothingCarried(digit: nat, over: nat)
    requires digit < 32 && forall t: nat :: over <= t < 5 ==> !Bit(digit, t)
    ensures Shr(digit, over) == 0
  {
    forall t: nat
      ensures Bit(Shr(digit, over), t) <==> Bit(0, t)
    {
      BitOfShr(digit, over, t);
      ZeroBit(t);
      if over + t >= 5 {
        ThirtyTwo();
        BitsBelow(digit, 5, over + t);
      }
    }
    SameBits(Shr(digit, over), 0);
  }

  /** The first `n` digits of a text of one of the lengths that texts have are put, none too far. */
  ghost predicate PutSoFar(digits: seq<nat>, n: nat, out: Bytes) {
    && n <= |digits| && |digits| == EncodedLength(|out|) && Placed(digits, n, out)
    && forall k :: 0 <= k < n ==> CarryFits(|out|, k, digits[k])
  }

  lemma PutNext(digits: seq<nat>, n: nat, out: Bytes)
    requires AllBelow(digits, 32) && n < |digits| && AreBytes(out) && PutSoFar(digits, n, out) &&
      CarryFits(|out|, n, digits[n])
    ensures n * 5 / 8 < |out| && PutSoFar(digits, n + 1, PutDigit(out, n, digits[n]))
  {
    DigitsReach(n, |out|);
    PlacedNext(digits, n, out);
  }

  /** One digit into the bytes, unless it carries past the end. */
  method Place(bytes: Bytes, n: nat, digit: nat) returns (r: Option<Bytes>)
    requires AreBytes(bytes) && digit < 32
    ensures r.Some? <==> CarryFits(|bytes|, n, digit)
    ensures r.Some? ==> AreBytes(r.value) && |r.value| == |bytes|
    ensures r.Some? && n * 5 / 8 < |bytes| ==> r.value == PutDigit(bytes, n, digit)
  {
    var out, len, b := bytes, |bytes|, n * 5;
    var i, j := b / 8, b % 8;
    if i < len {
      PutDigitBytes(out, n, digit);
      out := out[i := Or(out[i], Mask(Shl(digit, j), 8))];
    }
    var carry := Shr(digit, 8 - j);
    if i + 1 < len {
      out := out[i + 1 := Or(out[i + 1], carry)];
    } else if carry != 0 {
      return None;
    }
    return Some(out);
  }

  /** A text of one of the lengths that texts have decodes exactly when it is the text of bytes,
    * and to those.
    */
  method Base32Decode(s: string) returns (r: Option<Bytes>)
    ensures r.Some? ==> AreBytes(r.value) && |r.value| == |s| * 5 / 8 && ValidText(s)
    ensures |s| == EncodedLength(|s| * 5 / 8) && r.Some? ==> Encodes(r.value, s)
    ensures |s| == EncodedLength(|s| * 5 / 8) && r.None? ==> NotEncoded(s)
  {
    var len := |s| * 5 / 8;
    var out: Bytes := seq(len, _ => 0);
    ghost var digits := DigitsOf(s);
    ghost var canonical := |s| == EncodedLength(len);
    NothingPlaced(digits, out);
    for n := 0 to |s|
      invariant |out| == len && AreBytes(out)
      invariant forall k :: |s| - n <= k < |s| ==> IsDigit(s[k])
      invariant canonical ==> PutSoFar(digits, n, out)
    {
      var ch := s[|s| - 1 - n];
      var digit := Position(ch, 0);
      if digit.None? {
        assert !IsDigit(ch);
        return None;
      }
      assert digit.value == digits[n];
      var next := Place(out, n, digit.value);
      if next.None? {
        if canonical {
          Refused(s, len, n);
        }
        return None;
      }
      if canonical {
        PutNext(digits, n, out);
      }
      out := next.value;
    }
    if canonical {
      Decoded(s, out);
    }
    return Some(out);
  }

  lemma NothingPlaced(digits: seq<nat>, out: Bytes)
    requires forall i :: 0 <= i < |out| ==> out[i] == 0
    ensures Placed(digits, 0, out)
  {
    forall p: nat
      ensures !BitAt(out, p)
    {
      ZeroBit(p % 8);
    }
  }

  lemma Refused(s: string, len: nat, n: nat)
    requires n < |s| == EncodedLength(len) && !CarryFits(len, n, DigitsOf(s)[n])
    ensures NotEncoded(s)
  {
    var digits := DigitsOf(s);
    CarryLost(digits, n, len);
    var t: nat :| t < 5 && n * 5 + t >= 8 * len && Bit(digits[n], t);
    forall bytes | AreBytes(bytes) && |s| == EncodedLength(|bytes|)
      ensures Number(digits, 5) != Number(bytes, 8)
    {
      LengthInjective(|bytes|, len);
      DigitsBit(digits, n, t);
      BytesBit(bytes, n * 5 + t);
    }
  }

  lemma Decoded(s: string, out: Bytes)
    requires AreBytes(out) && ValidText(s) && PutSoFar(DigitsOf(s), |s|, out)
    ensures Encodes(out, s)
  {
    var digits := DigitsOf(s);
    forall n: nat, t: nat | t < 5
      ensures DigitBit(digits, n, t) <==> BitAt(out, n * 5 + t)
    {
      DigitsReach(n, |out|);
      var p := n * 5 + t;
      assert p / 5 == n && p % 5 == t;
      assert BitAt(out, p) <==> p < |digits| * 5 && p / 8 < |out| && DigitBit(digits, n, t);
      if n < |digits| {
        CarryLost(digits, n, |out|);
      }
    }
    SameNumber(digits, out);
  }

  /** Decoding undoes encoding. */
  method RoundTrip(bytes: Bytes) returns (text: string, back: Option<Bytes>)
    requires AreBytes(bytes)
    ensures back == Some(bytes)
  {
    text := Base32Encode(bytes);
    back := Base32Decode(text);
    if back.Some? {
      BytesUnique(bytes, back.value, text);
    }
  }
}
