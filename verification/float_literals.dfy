/** Which float literals underflow, decided on the digits; and the value those digits stand for. */
module FloatLiterals {
  import opened Texts
  import opened Wrappers

  // ----- arithmetic -----------------------------------------------------------------------------------

  function Pow(b: nat, n: nat): nat {
    if n == 0 then 1 else b * Pow(b, n - 1)
  }

  lemma {:induction false} PowPositive(b: nat, n: nat)
    requires b > 0
    ensures Pow(b, n) > 0
    decreases n
  {
    if n > 0 {
      PowPositive(b, n - 1);
      Positive(b, Pow(b, n - 1));
    }
  }

  lemma Positive(a: nat, b: nat)
    requires a > 0 && b > 0
    ensures a * b > 0
  {
  }

  lemma {:induction false} PowAdd(b: nat, m: nat, n: nat)
    ensures Pow(b, m + n) == Pow(b, m) * Pow(b, n)
    decreases m
  {
    if m > 0 {
      PowAdd(b, m - 1, n);
      MulAssoc(b, Pow(b, m - 1), Pow(b, n));
    }
  }

  lemma MulAssoc(a: int, b: int, c: int)
    ensures a * (b * c) == (a * b) * c
  {
  }

  lemma MulOrder(a: nat, b: nat, c: nat, d: nat)
    requires a <= b && c <= d
    ensures a * c <= b * d
  {
  }

  lemma {:induction false} PowTimes(b: nat, m: nat, n: nat)
    ensures Pow(Pow(b, m), n) == Pow(b, m * n)
    decreases n
  {
    if n > 0 {
      PowTimes(b, m, n - 1);
      PowAdd(b, m, m * (n - 1));
      assert m + m * (n - 1) == m * n;
    }
  }

  lemma {:induction false} PowOrder(a: nat, b: nat, n: nat)
    requires a <= b
    ensures Pow(a, n) <= Pow(b, n)
    decreases n
  {
    if n > 0 {
      PowOrder(a, b, n - 1);
      MulOrder(a, b, Pow(a, n - 1), Pow(b, n - 1));
    }
  }

  lemma PowGrows(b: nat, m: nat, n: nat)
    requires b > 0 && m <= n
    ensures Pow(b, m) <= Pow(b, n)
  {
    PowAdd(b, m, n - m);
    PowPositive(b, n - m);
    MulOrder(Pow(b, m), Pow(b, m), 1, Pow(b, n - m));
  }

  lemma TenTensBeat()
    ensures Pow(10, 10) > Pow(2, 33)
  {
    assert Pow(10, 5) == 100_000 && Pow(2, 8) == 256 && Pow(2, 16) == 65_536 by {
      assert Pow(10, 2) == 100;
      assert Pow(2, 4) == 16;
      PowAdd(2, 4, 4);
      PowAdd(2, 8, 8);
    }
    PowAdd(10, 5, 5);
    PowAdd(2, 16, 16);
    assert Pow(2, 33) == 2 * Pow(2, 32);
  }

  /** 10^330 is above 2^1074, as 10^10 is above 2^33. */
  lemma TenBeatsTwo(n: nat)
    requires n >= 330
    ensures Pow(2, 1074) < Pow(10, n)
  {
    TenTensBeat();
    PowTimes(10, 10, 33);
    PowTimes(2, 33, 33);
    PowOrder(Pow(2, 33), Pow(10, 10), 33);
    PowAdd(2, 1074, 15);
    PowPositive(2, 1074);
    assert Pow(2, 15) >= 2 by {
      PowGrows(2, 1, 15);
    }
    MulOrder(Pow(2, 1074), Pow(2, 1074), 2, Pow(2, 15));
    PowGrows(10, 330, n);
  }

  /** Two's complement in 64 bits. */
  function Wrap64(x: int): int {
    (x + 0x8000_0000_0000_0000) % 0x1_0000_0000_0000_0000 - 0x8000_0000_0000_0000
  }

  predicate Fits64(x: int) {
    -0x8000_0000_0000_0000 <= x < 0x8000_0000_0000_0000
  }

  // ----- digits -----------------------------------------------------------------------------------------

  predicate Digits(s: string) {
    forall i :: 0 <= i < |s| ==> '0' <= s[i] <= '9'
  }

  function Number(s: string): nat
    requires Digits(s)
  {
    if s == "" then 0 else Number(s[..|s| - 1]) * 10 + (s[|s| - 1] - '0') as nat
  }

  lemma {:induction false} NumberBound(s: string)
    requires Digits(s)
    ensures Number(s) < Pow(10, |s|)
    decreases |s|
  {
    if s != "" {
      NumberBound(s[..|s| - 1]);
    }
  }

  function Signed(negative: bool, n: int): int {
    if negative then -n else n
  }

  function TrimStart(s: string): string {
    if s != "" && s[0] == '0' then TrimStart(s[1..]) else s
  }

  function TrimEnd(s: string): string {
    if s != "" && s[|s| - 1] == '0' then TrimEnd(s[..|s| - 1]) else s
  }

  lemma {:induction false} LeadingZero(s: string)
    requires Digits(s) && s != "" && s[0] == '0'
    ensures Number(s) == Number(s[1..])
    decreases |s|
  {
    if |s| > 1 {
      var most := s[..|s| - 1];
      LeadingZero(most);
      assert most[1..] == s[1..][..|s| - 2];
    }
  }

  lemma {:induction false} TrimStartKeeps(s: string)
    requires Digits(s)
    ensures Digits(TrimStart(s)) && Number(TrimStart(s)) == Number(s)
    ensures TrimStart(s) != "" ==> TrimStart(s)[0] != '0'
    decreases |s|
  {
    if s != "" && s[0] == '0' {
      LeadingZero(s);
      TrimStartKeeps(s[1..]);
    }
  }

  lemma {:induction false} TrimEndScales(s: string)
    requires Digits(s)
    ensures |TrimEnd(s)| <= |s| && Digits(TrimEnd(s))
    ensures Number(s) == Number(TrimEnd(s)) * Pow(10, |s| - |TrimEnd(s)|)
    ensures TrimEnd(s) == s[..|TrimEnd(s)|]
    decreases |s|
  {
    if s != "" && s[|s| - 1] == '0' {
      var most := s[..|s| - 1];
      TrimEndScales(most);
      var zeros := |most| - |TrimEnd(most)|;
      MulAssoc(Number(TrimEnd(most)), Pow(10, zeros), 10);
      assert Pow(10, zeros + 1) == Pow(10, zeros) * 10;
    }
  }

  lemma {:induction false} NonZero(s: string)
    requires Digits(s) && s != "" && s[0] != '0'
    ensures Number(s) > 0
    decreases |s|
  {
    if |s| > 1 {
      NonZero(s[..|s| - 1]);
    }
  }

  // ----- literals -----------------------------------------------------------------------------------------

  datatype Exponent = Exponent(marker: char, sign: Option<char>, digits: string)

  /** What the lexer takes for a float: digits, perhaps a fraction, perhaps an exponent. */
  datatype Literal = Literal(whole: string, fraction: Option<string>, exponent: Option<Exponent>)

  ghost predicate WellFormed(l: Literal) {
    && Digits(l.whole) && (l.fraction.Some? ==> Digits(l.fraction.value))
    && (l.exponent.Some? ==>
      && l.exponent.value.marker in {'e', 'E'} &&
        (l.exponent.value.sign.Some? ==> l.exponent.value.sign.value in {'+', '-'})
      && l.exponent.value.digits != "" && Digits(l.exponent.value.digits))
    && |Text(l)| < 0x8000_0000
  }

  function FractionOf(l: Literal): string {
    if l.fraction.Some? then l.fraction.value else ""
  }

  function MantissaText(l: Literal): string {
    l.whole + if l.fraction.Some? then "." + l.fraction.value else ""
  }

  function ExponentText(e: Exponent): string {
    (if e.sign.Some? then [e.sign.value] else "") + e.digits
  }

  function Text(l: Literal): string {
    MantissaText(l) + if l.exponent.Some? then [l.exponent.value.marker] + ExponentText(l.exponent.value) else ""
  }

  ghost function ExponentValue(l: Literal): int
    requires WellFormed(l)
  {
    if l.exponent.None? then 0
    else Signed(l.exponent.value.sign == Some('-'), Number(l.exponent.value.digits))
  }

  /** `m` times ten to the power of `scale`. */
  ghost function Scaled(m: nat, scale: int): real {
    if scale >= 0 then (m * Pow(10, scale)) as real
    else
      PowPositive(10, -scale);
      m as real / Pow(10, -scale) as real
  }

  /** The number a literal stands for. */
  ghost function Value(l: Literal): real
    requires WellFormed(l)
  {
    Scaled(Number(l.whole + FractionOf(l)), ExponentValue(l) - |FractionOf(l)|)
  }

  ghost predicate IsInteger(x: real) {
    x.Floor as real == x
  }

  /** The smallest normal double is 2^-1022, and the smallest of all 2^-1074. */
  const MIN_EXPONENT := 1022

  /** Positive, below the smallest normal number 2^-e, and no multiple of the smallest number
    * 2^-(e+52). Where tininess is detected after rounding, the bound is 2^-e - 2^-(e+54).
    */
  ghost predicate TinyAndInexact(v: real, e: nat, afterRounding: bool) {
    Tiny(v, Times(v, Pow(2, e)), Times(v, Pow(2, e + 52)), Times(v, Pow(2, e + 54)), afterRounding)
  }

  ghost function Times(v: real, n: nat): real {
    v * n as real
  }

  /** A value in itself and in units of the three powers of two. */
  ghost predicate Tiny(v: real, normals: real, leasts: real, parts: real, afterRounding: bool) {
    v > 0.0 && normals < 1.0 && !IsInteger(leasts) && (afterRounding ==> parts < HALFWAY as real)
  }

  /** 2^54 - 1. */
  const HALFWAY := 0x3f_ffff_ffff_ffff

  // ----- what the compiler does -----------------------------------------------------------------------------

  function ParseInt64(s: string): Option<int> {
    var digits := if s != "" && s[0] in {'+', '-'} then s[1..] else s;
    if digits == "" || !Digits(digits) then None
    else
      var n := Signed(s[0] == '-', Number(digits));
      if Fits64(n) then Some(n) else None
  }

  datatype Decimal = Decimal(digits: string, scale: int)

  datatype Parts = Parts(whole: string, frac: string, exp: string)

  /** Around the first `e` and the first `.` before it. */
  function Split(text: string): Parts {
    var i := Find(text, {'e', 'E'});
    var mantissa, exp := text[..i], if i < |text| then text[i + 1..] else "0";
    var j := Find(mantissa, {'.'});
    Parts(mantissa[..j], if j < |mantissa| then mantissa[j + 1..] else "", exp)
  }

  /** Significant digits and the power of ten they are scaled by, none where the exponent does not
    * fit. The scale is computed in 64 bits.
    */
  function ToDecimal(text: string): Option<Decimal> {
    var parts := Split(text);
    Normalised(parts.whole, parts.frac, parts.exp)
  }

  function Normalised(whole: string, frac: string, exp: string): Option<Decimal> {
    var digits := TrimStart(whole + frac);
    DecimalWith(TrimEnd(digits), |digits|, |frac|, ParseInt64(exp))
  }

  function DecimalWith(significant: string, digits: nat, frac: nat, exp: Option<int>): Option<Decimal> {
    if significant == "" then Some(Decimal("", 0))
    else if exp.None? then None
    else Some(Decimal(significant, Wrap64(Wrap64(exp.value - frac) + (digits - |significant|))))
  }

  /** Whether a range error is reported for the literal, of a format whose smallest normal number
    * is 2^-e. The power of ten is cut to 32 bits.
    */
  function Underflows(text: string, e: nat, afterRounding: bool): bool {
    var decimal := ToDecimal(text);
    if decimal.None? then true
    else
      var Decimal(digits, scale) := decimal.value;
      if digits == "" then false
      else if !Digits(digits) then false // no literal has such digits
      else Decide(digits, scale, e, afterRounding)
  }

  function Decide(digits: string, scale: int, e: nat, afterRounding: bool): bool
    requires Digits(digits)
  {
    if Wrap64(|digits| + scale) < -330 then true
    else if scale >= 0 then false
    else TinyFraction(Number(digits), (-scale) % 0x1_0000_0000, e, afterRounding)
  }

  /** The comparisons for `d` over a power of ten, on whole numbers. */
  function TinyFraction(d: nat, tenth: nat, e: nat, afterRounding: bool): bool {
    PowPositive(10, tenth);
    var tens := Pow(10, tenth);
    if d * Pow(2, e) >= tens then false
    else if d * Pow(2, e + 52) % tens == 0 then false
    else !(afterRounding && d * Pow(2, e + 54) >= HALFWAY * tens)
  }

  // ----- reading a literal ------------------------------------------------------------------------------------

  function ExponentPart(l: Literal): string {
    if l.exponent.Some? then ExponentText(l.exponent.value) else "0"
  }

  lemma MantissaPlain(l: Literal)
    requires WellFormed(l)
    ensures forall i :: 0 <= i < |MantissaText(l)| ==> MantissaText(l)[i] !in {'e', 'E'}
    ensures forall i :: 0 <= i < |l.whole| ==> l.whole[i] !in {'.'}
  {
  }

  /** The parts the text is split into are those the literal is made of. */
  lemma PartsOf(l: Literal)
    requires WellFormed(l)
    ensures Split(Text(l)) == Parts(l.whole, FractionOf(l), ExponentPart(l))
  {
    MantissaPlain(l);
    var mantissa := MantissaText(l);
    var tail := if l.exponent.Some? then [l.exponent.value.marker] + ExponentText(l.exponent.value) else "";
    FindAfter(mantissa, tail, {'e', 'E'});
    assert l.exponent.Some? ==> tail[1..] == ExponentText(l.exponent.value);
    MantissaParts(l);
  }

  lemma MantissaParts(l: Literal)
    requires WellFormed(l)
    ensures var mantissa := MantissaText(l); var j := Find(mantissa, {'.'});
      && mantissa[..j] == l.whole && (if j < |mantissa| then mantissa[j + 1..] else "") == FractionOf(l)
  {
    MantissaPlain(l);
    var tail := if l.fraction.Some? then "." + l.fraction.value else "";
    FindAfter(l.whole, tail, {'.'});
    assert l.fraction.Some? ==> tail[1..] == l.fraction.value;
  }

  lemma ExponentParsed(l: Literal)
    requires WellFormed(l)
    ensures ParseInt64(ExponentPart(l)) == if Fits64(ExponentValue(l)) then Some(ExponentValue(l)) else None
  {
    if l.exponent.None? {
      assert "0"[..0] == "" && Number("0") == 0;
    } else {
      var e := l.exponent.value;
      if e.sign.Some? {
        SignedParsed(e.sign.value, e.digits);
      } else {
        assert ExponentText(e) == e.digits && '0' <= e.digits[0] <= '9';
      }
    }
  }

  lemma SignedParsed(sign: char, digits: string)
    requires sign in {'+', '-'} && digits != "" && Digits(digits)
    ensures var n := Signed(sign == '-', Number(digits));
      ParseInt64([sign] + digits) == if Fits64(n) then Some(n) else None
  {
    assert ([sign] + digits)[1..] == digits;
  }

  /** The digits that count, and the scale they have before it is cut to 64 bits. */
  function SignificantOf(l: Literal): string {
    TrimEnd(TrimStart(l.whole + FractionOf(l)))
  }

  ghost function TrueScale(l: Literal): int
    requires WellFormed(l)
  {
    ExponentValue(l) - |FractionOf(l)| + (|TrimStart(l.whole + FractionOf(l))| - |SignificantOf(l)|)
  }

  lemma WrapTwice(a: int, b: int)
    ensures Wrap64(Wrap64(a) + b) == Wrap64(a + b)
  {
  }

  function DecimalFrom(significant: string, exponent: int, scale: int): Option<Decimal> {
    if significant == "" then Some(Decimal("", 0))
    else if Fits64(exponent) then Some(Decimal(significant, Wrap64(scale)))
    else None
  }

  lemma DecimalOf(l: Literal)
    requires WellFormed(l)
    ensures ToDecimal(Text(l)) == DecimalFrom(SignificantOf(l), ExponentValue(l), TrueScale(l))
  {
    PartsOf(l);
    NormalisedOf(l);
  }

  lemma NormalisedOf(l: Literal)
    requires WellFormed(l)
    ensures Normalised(l.whole, FractionOf(l), ExponentPart(l)) ==
      DecimalFrom(SignificantOf(l), ExponentValue(l), TrueScale(l))
  {
    ExponentParsed(l);
    DecimalWithScale(SignificantOf(l), |TrimStart(l.whole + FractionOf(l))|, |FractionOf(l)|, ExponentValue(l));
  }

  lemma DecimalWithScale(significant: string, digits: nat, frac: nat, exponent: int)
    ensures DecimalWith(significant, digits, frac, if Fits64(exponent) then Some(exponent) else None) ==
      DecimalFrom(significant, exponent, exponent - frac + (digits - |significant|))
  {
    WrapTwice(exponent - frac, digits - |significant|);
  }

  /** Normalising keeps the value. */
  lemma ScaledShift(m: nat, zeros: nat, scale: int)
    ensures Scaled(m * Pow(10, zeros), scale) == Scaled(m, scale + zeros)
  {
    PowPositive(10, zeros);
    if scale >= 0 {
      PowAdd(10, zeros, scale);
      MulAssoc(m, Pow(10, zeros), Pow(10, scale));
    } else if scale + zeros >= 0 {
      PowAdd(10, scale + zeros, -scale);
      PowPositive(10, -scale);
      MulAssoc(m, Pow(10, scale + zeros), Pow(10, -scale));
      Cancels(m * Pow(10, scale + zeros), Pow(10, -scale));
    } else {
      PowAdd(10, zeros, -scale - zeros);
      PowPositive(10, -scale - zeros);
      Reduces(m, Pow(10, zeros), Pow(10, -scale - zeros));
    }
  }

  lemma Cancels(a: int, b: int)
    requires b > 0
    ensures (a * b) as real / b as real == a as real
  {
    assert (a * b) as real == a as real * b as real;
  }

  lemma Reduces(m: int, z: int, d: int)
    requires z > 0 && d > 0
    ensures z * d > 0 && (m * z) as real / (z * d) as real == m as real / d as real
  {
    Positive(z, d);
    var x := m as real / d as real;
    assert x * d as real == m as real;
    assert (m * z) as real == m as real * z as real && (z * d) as real == z as real * d as real;
    assert x * (z * d) as real == (m * z) as real;
  }

  lemma SignificantDigits(l: Literal)
    requires WellFormed(l)
    ensures var all := l.whole + FractionOf(l);
      && |TrimStart(all)| <= |all| && |SignificantOf(l)| <= |TrimStart(all)| && Digits(SignificantOf(l))
      && Number(all) == Number(SignificantOf(l)) * Pow(10, |TrimStart(all)| - |SignificantOf(l)|)
      && (SignificantOf(l) == "" || Number(SignificantOf(l)) > 0)
  {
    var all := l.whole + FractionOf(l);
    TrimStartKeeps(all);
    TrimStartShorter(all);
    TrimEndScales(TrimStart(all));
    if SignificantOf(l) != "" {
      assert SignificantOf(l)[0] == TrimStart(all)[0];
      NonZero(SignificantOf(l));
    }
  }

  lemma NormalisedValue(l: Literal)
    requires WellFormed(l)
    ensures Digits(SignificantOf(l)) &&
      |SignificantOf(l)| <= |TrimStart(l.whole + FractionOf(l))| <= |l.whole + FractionOf(l)|
    ensures Value(l) == Scaled(Number(SignificantOf(l)), TrueScale(l))
    ensures SignificantOf(l) == "" || Number(SignificantOf(l)) > 0
  {
    SignificantDigits(l);
    var zeros := |TrimStart(l.whole + FractionOf(l))| - |SignificantOf(l)|;
    ScaledShift(Number(SignificantOf(l)), zeros, ExponentValue(l) - |FractionOf(l)|);
  }

  lemma {:induction false} TrimStartShorter(s: string)
    ensures |TrimStart(s)| <= |s|
    decreases |s|
  {
    if s != "" && s[0] == '0' {
      TrimStartShorter(s[1..]);
    }
  }

  // ----- comparing exactly ----------------------------------------------------------------------------------

  lemma FractionBelow(m: nat, d: nat, c: nat, k: nat)
    requires d > 0
    ensures Times(m as real / d as real, c) < k as real <==> m * c < k * d
  {
    var x := m as real / d as real;
    assert x * d as real == m as real;
    assert (m * c) as real == x * c as real * d as real;
    assert (k * d) as real == k as real * d as real;
    RealOrder(x * c as real, k as real, d as real);
  }

  lemma RealOrder(a: real, b: real, d: real)
    requires d > 0.0
    ensures a < b <==> a * d < b * d
  {
  }

  lemma FractionInteger(m: nat, d: nat, c: nat)
    requires d > 0
    ensures IsInteger(Times(m as real / d as real, c)) <==> (m * c) % d == 0
  {
    var y := Times(m as real / d as real, c);
    FractionProduct(m, d, c);
    if IsInteger(y) {
      assert (y.Floor * d) as real == y.Floor as real * d as real;
      Multiple(m * c, y.Floor, d);
    }
    if (m * c) % d == 0 {
      var k := m * c / d;
      assert m * c == k * d;
      assert (k * d) as real == k as real * d as real;
      RealCancel(y, k as real, d as real);
    }
  }

  lemma FractionProduct(m: nat, d: nat, c: nat)
    requires d > 0
    ensures (m * c) as real == Times(m as real / d as real, c) * d as real
  {
    var x := m as real / d as real;
    assert x * d as real == m as real;
    assert (m * c) as real == m as real * c as real;
    Swap(x, d as real, c as real);
  }

  lemma Swap(x: real, d: real, c: real)
    ensures (x * d) * c == (x * c) * d
  {
  }

  lemma RealCancel(a: real, b: real, d: real)
    requires d > 0.0 && a * d == b * d
    ensures a == b
  {
  }

  lemma Multiple(a: int, k: int, d: nat)
    requires d > 0 && a == k * d
    ensures a % d == 0
  {
    var q, r := a / d, a % d;
    assert a == q * d + r;
    assert (k - q) * d == r;
    if k - q >= 1 {
      MulOrder(1, k - q, d, d);
    } else if k - q <= -1 {
      MulOrder(1, q - k, d, d);
    }
  }

  /** Below 10^-330, a value is tiny and inexact. */
  lemma FarBelow(m: nat, len: nat, scale: int, e: nat, afterRounding: bool)
    requires 0 < m < Pow(10, len) && len + scale < -330 && e <= MIN_EXPONENT
    ensures TinyAndInexact(Scaled(m, scale), e, afterRounding)
  {
    var rest: nat := -scale - len;
    ProductBelow(m, len, rest, e + 52);
    PowPositive(10, len + rest);
    FractionFarBelow(m, Pow(10, len + rest), e, afterRounding);
  }

  lemma FractionFarBelow(m: nat, d: nat, e: nat, afterRounding: bool)
    requires m > 0 && d > 0 && m * Pow(2, e + 52) < d
    ensures TinyAndInexact(m as real / d as real, e, afterRounding)
  {
    var v, least := m as real / d as real, Pow(2, e + 52);
    FractionBelow(m, d, least, 1);
    PositiveFraction(m, d);
    PowPositive(2, e);
    PowGrows(2, e, e + 52);
    TimesOrder(v, Pow(2, e), least);
    TimesFour(v, least);
    PowTwoMore(e + 52);
    BelowSmallest(v, Times(v, Pow(2, e)), Times(v, least), Times(v, Pow(2, e + 54)), afterRounding);
  }

  lemma PowTwoMore(e: nat)
    ensures Pow(2, e + 2) == 4 * Pow(2, e)
  {
    assert Pow(2, e + 2) == 2 * Pow(2, e + 1);
  }

  lemma ProductBelow(m: nat, len: nat, rest: nat, e: nat)
    requires m < Pow(10, len) && rest >= 330 && e <= 1074
    ensures m * Pow(2, e) < Pow(10, len + rest)
  {
    PowAdd(10, len, rest);
    SmallestAboveTen(e, rest);
    PowPositive(2, e);
    SmallProduct(m, Pow(10, len), Pow(2, e), Pow(10, rest));
  }

  lemma SmallestAboveTen(e: nat, n: nat)
    requires e <= 1074 && n >= 330
    ensures Pow(2, e) < Pow(10, n)
  {
    TenBeatsTwo(n);
    PowGrows(2, e, 1074);
  }

  lemma SmallProduct(a: nat, b: nat, c: nat, d: nat)
    requires a < b && 0 < c < d
    ensures a * c < b * d
  {
    MulOrder(a, b, c, c);
    assert b * d == b * c + b * (d - c);
    Positive(b, d - c);
  }

  lemma PositiveFraction(m: nat, d: nat)
    requires m > 0 && d > 0
    ensures m as real / d as real > 0.0
  {
  }

  lemma TimesFour(v: real, n: nat)
    ensures Times(v, 4 * n) == 4.0 * Times(v, n)
  {
    assert (4 * n) as real == 4.0 * n as real;
    Swap(4.0, n as real, v);
  }

  lemma TimesOrder(v: real, a: nat, b: nat)
    requires v > 0.0 && 0 < a <= b
    ensures 0.0 < Times(v, a) <= Times(v, b)
  {
    RealProducts(v, a as real, b as real);
    RealPositive(v, a as real);
  }

  lemma BelowSmallest(v: real, normals: real, leasts: real, parts: real, afterRounding: bool)
    requires v > 0.0 && 0.0 < normals <= leasts < 1.0 && parts == 4.0 * leasts
    ensures Tiny(v, normals, leasts, parts, afterRounding)
  {
  }

  lemma RealPositive(a: real, b: real)
    requires a > 0.0 && b > 0.0
    ensures a * b > 0.0
  {
  }

  lemma RealProducts(v: real, a: real, b: real)
    requires v > 0.0 && a <= b
    ensures v * a <= v * b
  {
  }

  /** At a scale of zero or more, a value is one or more. */
  lemma NotTiny(m: nat, scale: nat, e: nat, afterRounding: bool)
    requires m > 0
    ensures !TinyAndInexact(Scaled(m, scale), e, afterRounding)
  {
    PowPositive(10, scale);
    Positive(m, Pow(10, scale));
    PowPositive(2, e);
    var v, normal := Scaled(m, scale), Pow(2, e) as real;
    assert v >= 1.0;
    RealProducts(normal, 1.0, v);
    assert Times(v, Pow(2, e)) == normal * v;
  }

  /** In between, the comparisons on whole numbers are those on values. */
  lemma Compared(m: nat, tenth: nat, e: nat, afterRounding: bool)
    requires m > 0 && tenth > 0
    ensures TinyAndInexact(Scaled(m, 0 - tenth), e, afterRounding) <==> TinyFraction(m, tenth, e, afterRounding)
  {
    PowPositive(10, tenth);
    ComparedNumbers(m, Pow(10, tenth), Pow(2, e), Pow(2, e + 52), Pow(2, e + 54), afterRounding);
  }

  lemma ComparedNumbers(m: nat, tens: nat, normal: nat, least: nat, past: nat, afterRounding: bool)
    requires m > 0 && tens > 0
    ensures var v := m as real / tens as real;
      Tiny(v, Times(v, normal), Times(v, least), Times(v, past), afterRounding) <==>
        m * normal < tens && m * least % tens != 0 && (afterRounding ==> m * past < HALFWAY * tens)
  {
    FractionBelow(m, tens, normal, 1);
    FractionBelow(m, tens, past, HALFWAY);
    FractionInteger(m, tens, least);
    PositiveFraction(m, tens);
  }

  // ----- the decision -----------------------------------------------------------------------------------------

  /** The power of ten above the leading digit fits 64 bits. */
  ghost predicate InRange(l: Literal)
    requires WellFormed(l)
  {
    Fits64(|SignificantOf(l)| + TrueScale(l))
  }

  lemma Sizes(l: Literal)
    requires WellFormed(l)
    ensures |l.whole + FractionOf(l)| + |FractionOf(l)| < 0x1_0000_0000 && |l.whole + FractionOf(l)| < 0x8000_0000
  {
  }

  /** Literals whose exponent fits are decided exactly as long as the leading digit's power of ten
    * does too; otherwise the sum wraps around, and the answer is wrong.
    */
  lemma UnderflowDecided(l: Literal, e: nat, afterRounding: bool)
    requires WellFormed(l) && e <= MIN_EXPONENT && Fits64(ExponentValue(l)) && SignificantOf(l) != ""
    ensures Underflows(Text(l), e, afterRounding) == TinyAndInexact(Value(l), e, afterRounding) <==> InRange(l)
  {
    var digits, scale := SignificantOf(l), TrueScale(l);
    NormalisedValue(l);
    UnderflowsAs(l, e, afterRounding);
    ScaleBounds(l);
    NumberBound(digits);
    Decided(digits, scale, e, afterRounding);
  }

  lemma UnderflowsAs(l: Literal, e: nat, afterRounding: bool)
    requires WellFormed(l) && Fits64(ExponentValue(l)) && SignificantOf(l) != "" && Digits(SignificantOf(l))
    ensures Underflows(Text(l), e, afterRounding) == Decide(SignificantOf(l), Wrap64(TrueScale(l)), e, afterRounding)
  {
    DecimalOf(l);
  }

  lemma ScaleBounds(l: Literal)
    requires WellFormed(l) && Fits64(ExponentValue(l))
    ensures |SignificantOf(l)| < 0x8000_0000 && -0x8000_0001_0000_0000 < TrueScale(l) < 0x8000_0001_0000_0000
  {
    NormalisedValue(l);
    Sizes(l);
  }

  lemma Decided(digits: string, scale: int, e: nat, afterRounding: bool)
    requires Digits(digits) && 0 < Number(digits) < Pow(10, |digits|) && 0 < |digits| < 0x8000_0000 && e <= MIN_EXPONENT
    requires -0x8000_0001_0000_0000 < scale < 0x8000_0001_0000_0000
    ensures Decide(digits, Wrap64(scale), e, afterRounding) ==
      TinyAndInexact(Scaled(Number(digits), scale), e, afterRounding)
      <==> Fits64(|digits| + scale)
  {
    DecideCases(digits, scale, e, afterRounding);
    var m := Number(digits);
    if scale >= 0 {
      NotTiny(m, scale, e, afterRounding);
    } else if |digits| + scale < -330 {
      FarBelow(m, |digits|, scale, e, afterRounding);
    } else {
      Compared(m, -scale, e, afterRounding);
    }
  }

  lemma DecideCases(digits: string, scale: int, e: nat, afterRounding: bool)
    requires Digits(digits) && 0 < |digits| < 0x8000_0000 && -0x8000_0001_0000_0000 < scale < 0x8000_0001_0000_0000
    ensures var above, decided := |digits| + scale, Decide(digits, Wrap64(scale), e, afterRounding);
      if !Fits64(above) then decided == (above >= 0)
      else if above < -330 then decided
      else if scale >= 0 then !decided
      else decided == TinyFraction(Number(digits), -scale, e, afterRounding)
  {
    SumCases(scale, |digits|);
    assert 0 < -scale < 0x1_0000_0000 ==> (-scale) % 0x1_0000_0000 == -scale;
  }

  /** The sum of a scale and a length, each of which may wrap around. */
  lemma SumCases(scale: int, n: nat)
    requires 0 < n < 0x8000_0000 && -0x8000_0001_0000_0000 < scale < 0x8000_0001_0000_0000
    ensures var above, sum := n + scale, Wrap64(n + Wrap64(scale));
      && (Fits64(above) ==> sum == above && (above >= -330 ==> Wrap64(scale) == scale))
      && (!Fits64(above) && above >= 0 ==> sum < -330)
      && (!Fits64(above) && above < 0 ==> sum >= -330 && Wrap64(scale) >= 0)
  {
    WrapTwice(scale, n);
    WrapNear(scale);
    WrapNear(n + scale);
  }

  lemma WrapNear(x: int)
    requires -0x1_0000_0000_0000_0000 <= x < 0x1_0000_0000_0000_0000
    ensures Wrap64(x) ==
      if Fits64(x) then x else if x < 0 then x + 0x1_0000_0000_0000_0000 else x - 0x1_0000_0000_0000_0000
  {
  }

  /** A literal that is zero does not underflow, whatever its exponent. */
  lemma ZeroIsExact(l: Literal, e: nat, afterRounding: bool)
    requires WellFormed(l) && SignificantOf(l) == ""
    ensures !Underflows(Text(l), e, afterRounding) && Value(l) == 0.0 && !TinyAndInexact(Value(l), e, afterRounding)
  {
    DecimalOf(l);
    NormalisedValue(l);
    ScaledZero(TrueScale(l));
    ZeroIsNotTiny(e, afterRounding);
  }

  lemma ScaledZero(scale: int)
    ensures Scaled(0, scale) == 0.0
  {
    if scale < 0 {
      PowPositive(10, -scale);
    }
  }

  lemma ZeroIsNotTiny(e: nat, afterRounding: bool)
    ensures !TinyAndInexact(0.0, e, afterRounding)
  {
  }

  /** An exponent that does not fit counts as an underflow: rightly when it is negative. */
  lemma ExponentOutOfRange(l: Literal, e: nat, afterRounding: bool)
    requires WellFormed(l) && e <= MIN_EXPONENT && !Fits64(ExponentValue(l)) && SignificantOf(l) != ""
    ensures Underflows(Text(l), e, afterRounding)
    ensures TinyAndInexact(Value(l), e, afterRounding) <==> ExponentValue(l) < 0
  {
    DecimalOf(l);
    NormalisedValue(l);
    Sizes(l);
    var digits, scale := SignificantOf(l), TrueScale(l);
    NumberBound(digits);
    if ExponentValue(l) < 0 {
      FarBelow(Number(digits), |digits|, scale, e, afterRounding);
    } else {
      NotTiny(Number(digits), scale, e, afterRounding);
    }
  }

  /** Where the sum wraps around from below, a value as small as can be is not reported. */
  lemma WrapsAround(l: Literal, e: nat, afterRounding: bool)
    requires WellFormed(l) && e <= MIN_EXPONENT && Fits64(ExponentValue(l)) && SignificantOf(l) != ""
    requires |SignificantOf(l)| + TrueScale(l) < -0x8000_0000_0000_0000
    ensures !Underflows(Text(l), e, afterRounding) && TinyAndInexact(Value(l), e, afterRounding)
  {
    NormalisedValue(l);
    NumberBound(SignificantOf(l));
    FarBelow(Number(SignificantOf(l)), |SignificantOf(l)|, TrueScale(l), e, afterRounding);
    UnderflowDecided(l, e, afterRounding);
  }

  predicate IsDigit(c: char) {
    '0' <= c <= '9'
  }

  lemma OneMoreDigit(s: string, c: char)
    requires Digits(s) && IsDigit(c)
    ensures Digits(s + [c]) && Number(s + [c]) == Number(s) * 10 + (c - '0') as nat
  {
    assert (s + [c])[..|s + [c]| - 1] == s;
  }

  lemma FourMoreDigits(s: string, a: char, b: char, c: char, d: char)
    requires Digits(s) && IsDigit(a) && IsDigit(b) && IsDigit(c) && IsDigit(d)
    ensures Digits(s + [a, b, c, d])
    ensures Number(s + [a, b, c, d]) ==
      Number(s) * 10000 + (a - '0') as nat * 1000 + (b - '0') as nat * 100 + (c - '0') as nat * 10 + (d - '0') as nat
  {
    OneMoreDigit(s, a);
    OneMoreDigit(s + [a], b);
    OneMoreDigit(s + [a] + [b], c);
    OneMoreDigit(s + [a] + [b] + [c], d);
    assert s + [a, b, c, d] == s + [a] + [b] + [c] + [d];
  }

  lemma ThreeDigits(a: char, b: char, c: char)
    requires IsDigit(a) && IsDigit(b) && IsDigit(c)
    ensures Digits([a, b, c]) && Number([a, b, c]) == (a - '0') as nat * 100 + (b - '0') as nat * 10 + (c - '0') as nat
  {
    OneMoreDigit([], a);
    OneMoreDigit([] + [a], b);
    OneMoreDigit([] + [a] + [b], c);
    assert [a, b, c] == [] + [a] + [b] + [c];
  }

  const LOWEST := "9223372036854775808"

  lemma LowestFrom(s: string)
    requires Digits(s) && Number(s) == 922
    ensures var t := s + ['3', '3', '7', '2'] + ['0', '3', '6', '8'] + ['5', '4', '7', '7'] + ['5', '8', '0', '8'];
      Digits(t) && Number(t) == 0x8000_0000_0000_0000
  {
    FourMoreDigits(s, '3', '3', '7', '2');
    FourMoreDigits(s + ['3', '3', '7', '2'], '0', '3', '6', '8');
    FourMoreDigits(s + ['3', '3', '7', '2'] + ['0', '3', '6', '8'], '5', '4', '7', '7');
    FourMoreDigits(s + ['3', '3', '7', '2'] + ['0', '3', '6', '8'] + ['5', '4', '7', '7'], '5', '8', '0', '8');
  }

  /** The digits of 2^63. */
  lemma LowestNumber(lowest: string)
    requires lowest == LOWEST
    ensures Digits(lowest) && Number(lowest) == 0x8000_0000_0000_0000
  {
    var s := ['9', '2', '2'];
    ThreeDigits('9', '2', '2');
    LowestFrom(s);
    assert lowest == s + ['3', '3', '7', '2'] + ['0', '3', '6', '8'] + ['5', '4', '7', '7'] + ['5', '8', '0', '8'];
  }

  predicate IsWrapping(l: Literal) {
    l.whole == "0" && l.fraction == Some("01") && l.exponent.Some?
    && l.exponent.value == Exponent('e', Some('-'), LOWEST)
  }

  lemma WrappingParts(l: Literal)
    requires IsWrapping(l)
    ensures WellFormed(l) && Fits64(ExponentValue(l)) && SignificantOf(l) == "1"
    ensures |SignificantOf(l)| + TrueScale(l) < -0x8000_0000_0000_0000
  {
    LowestNumber(l.exponent.value.digits);
    assert l.whole + FractionOf(l) == "001";
    assert TrimStart("001") == "1" by {
      assert "001"[1..] == "01" && "01"[1..] == "1";
    }
    assert TrimEnd("1") == "1";
  }

  /** The literal 0.01e-9223372036854775808 is as small as can be, and not reported. */
  lemma WrappingLiteral(l: Literal, e: nat, afterRounding: bool)
    requires IsWrapping(l) && e <= MIN_EXPONENT
    ensures WellFormed(l) && !Underflows(Text(l), e, afterRounding) && TinyAndInexact(Value(l), e, afterRounding)
  {
    WrappingParts(l);
    WrapsAround(l, e, afterRounding);
  }
}
