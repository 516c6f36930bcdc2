/** What a float literal means, said outright: positional digits, the point, the exponent's sign, and
  * what it is to be tiny and inexact.
  */
module FloatValues {
  import opened Wrappers
  import opened FloatLiterals

  /** Each digit has its value, and those before it count ten times as much. */
  lemma NumberOfDigits(s: string, c: char)
    requires Digits(s) && '0' <= c <= '9'
    ensures Number(s + [c]) == 10 * Number(s) + (c as int - '0' as int)
  {
    assert (s + [c])[..|s|] == s;
  }

  lemma {:induction false} NumberOfBoth(a: string, b: string)
    requires Digits(a) && Digits(b)
    ensures Number(a + b) == Number(a) * Pow(10, |b|) + Number(b)
    decreases |b|
  {
    if b == "" {
      assert a + b == a;
    } else {
      var most := b[..|b| - 1];
      NumberOfBoth(a, most);
      assert (a + b)[..|a + b| - 1] == a + most;
      MulAssoc(Number(a), Pow(10, |most|), 10);
      assert Pow(10, |b|) == 10 * Pow(10, |most|);
    }
  }

  lemma FractionApart(a: nat, d: nat, f: nat)
    requires d > 0
    ensures (a * d + f) as real / d as real == a as real + f as real / d as real
  {
    var x := f as real / d as real;
    assert x * d as real == f as real;
    assert (a * d + f) as real == a as real * d as real + f as real;
    assert (a as real + x) * d as real == (a * d + f) as real;
  }

  /** Digits after the point count tenths, hundredths and so on. */
  lemma ValueOfPoint(l: Literal)
    requires WellFormed(l) && l.exponent.None?
    ensures Pow(10, |FractionOf(l)|) > 0
    ensures Value(l) ==
      Number(l.whole) as real + Number(FractionOf(l)) as real / Pow(10, |FractionOf(l)|) as real
  {
    var n := |FractionOf(l)|;
    PowPositive(10, n);
    NumberOfBoth(l.whole, FractionOf(l));
    FractionApart(Number(l.whole), Pow(10, n), Number(FractionOf(l)));
  }

  lemma WithoutExponent(l: Literal)
    requires WellFormed(l)
    ensures WellFormed(l.(exponent := None))
    ensures Value(l.(exponent := None)) == Scaled(Number(l.whole + FractionOf(l)), -|FractionOf(l)|)
  {
  }

  lemma ExponentShifts(l: Literal)
    requires WellFormed(l) && l.exponent.Some?
    ensures var m, n: int := Number(l.whole + FractionOf(l)), Number(l.exponent.value.digits);
      Value(l) == Scaled(m, -|FractionOf(l)| + if l.exponent.value.sign == Some('-') then -n else n)
  {
  }

  /** An exponent multiplies by a power of ten, or divides by it after a `-`. */
  lemma ValueOfExponent(l: Literal)
    requires WellFormed(l) && l.exponent.Some?
    ensures var plain, shift := l.(exponent := None), Pow(10, Number(l.exponent.value.digits));
      && WellFormed(plain)
      && (l.exponent.value.sign == Some('-') ==> Times(Value(l), shift) == Value(plain))
      && (l.exponent.value.sign != Some('-') ==> Value(l) == Times(Value(plain), shift))
  {
    WithoutExponent(l);
    ExponentShifts(l);
    var n, m, scale := Number(l.exponent.value.digits), Number(l.whole + FractionOf(l)), -|FractionOf(l)|;
    if l.exponent.value.sign == Some('-') {
      ScaledTimes(m, scale - n, n);
    } else {
      ScaledTimes(m, scale, n);
    }
  }

  lemma ScaledTimes(m: nat, scale: int, n: nat)
    ensures Scaled(m, scale + n) == Times(Scaled(m, scale), Pow(10, n))
  {
    if scale >= 0 {
      PowAdd(10, scale, n);
      Above(m, Pow(10, scale), Pow(10, n));
    } else if scale + n >= 0 {
      PowPositive(10, -scale);
      PowAdd(10, -scale, scale + n);
      Across(m, Pow(10, -scale), Pow(10, scale + n));
    } else {
      PowPositive(10, -scale);
      PowPositive(10, -scale - n);
      PowAdd(10, n, -scale - n);
      Under(m, Pow(10, n), Pow(10, -scale - n));
    }
  }

  lemma Above(m: nat, a: nat, b: nat)
    ensures (m * (a * b)) as real == Times((m * a) as real, b)
  {
    assert m * (a * b) == m * a * b;
  }

  lemma Across(m: nat, d: nat, p: nat)
    requires d > 0
    ensures (m * p) as real == Times(m as real / d as real, d * p)
  {
    var x := m as real / d as real;
    assert x * d as real == m as real;
    assert (d * p) as real == d as real * p as real;
    assert x * (d as real * p as real) == x * d as real * p as real;
  }

  lemma Under(m: nat, p: nat, d: nat)
    requires d > 0 && p * d > 0
    ensures m as real / d as real == Times(m as real / (p * d) as real, p)
  {
    var x := m as real / (p * d) as real;
    assert x * (p * d) as real == m as real;
    assert (p * d) as real == p as real * d as real;
    assert x * (p as real * d as real) == x * p as real * d as real;
    RealCancel(m as real / d as real, x * p as real, d as real);
  }

  /** The digits that count start and end with none that does not. */
  lemma NoIdleZeros(l: Literal)
    requires WellFormed(l) && SignificantOf(l) != ""
    ensures SignificantOf(l)[0] != '0' && SignificantOf(l)[|SignificantOf(l)| - 1] != '0'
  {
    var digits := TrimStart(l.whole + FractionOf(l));
    TrimStartKeeps(l.whole + FractionOf(l));
    TrimEndScales(digits);
    assert SignificantOf(l)[0] == digits[0];
    TrimEndStops(digits);
  }

  lemma {:induction false} TrimEndStops(s: string)
    ensures TrimEnd(s) == "" || TrimEnd(s)[|TrimEnd(s)| - 1] != '0'
    decreases |s|
  {
    if s != "" && s[|s| - 1] == '0' {
      TrimEndStops(s[..|s| - 1]);
    }
  }

  // ----- tininess ----------------------------------------------------------------------------------------

  /** The smallest number that is not subnormal. */
  ghost function Normal(e: nat): real {
    PowPositive(2, e);
    1.0 / Pow(2, e) as real
  }

  lemma UnitIs(v: real, n: nat)
    ensures Normal(n) > 0.0
    ensures Times(v, Pow(2, n)) * Normal(n) == v
  {
    PowPositive(2, n);
    var p := Pow(2, n) as real;
    assert Normal(n) * p == 1.0;
    assert v * p * Normal(n) == v * (p * Normal(n));
  }

  /** How far below the smallest normal number a value rounds up to it. */
  lemma HalfwayIs(e: nat)
    ensures HALFWAY as real * Normal(e + 54) == Normal(e) - Normal(e + 54)
  {
    PowAdd(2, e, 54);
    PowTwoFiftyFour();
    PowPositive(2, e);
    Parts(Pow(2, e), Pow(2, 54));
    LessOne(HALFWAY, Normal(e + 54));
  }

  lemma Parts(a: nat, p: nat)
    requires a > 0 && p > 0
    ensures a * p > 0 && p as real * (1.0 / (a * p) as real) == 1.0 / a as real
  {
    Positive(a, p);
    var whole, x, y := a as real, 1.0 / (a * p) as real, 1.0 / a as real;
    assert (a * p) as real * x == 1.0 && whole * y == 1.0;
    assert (a * p) as real == whole * p as real;
    Swap(whole, p as real, x);
    assert p as real * x * whole == y * whole;
    RealCancel(p as real * x, y, whole);
  }

  lemma LessOne(n: nat, x: real)
    ensures n as real * x == (n + 1) as real * x - x
  {
  }

  lemma PowTwoFiftyFour()
    ensures Pow(2, 54) == 0x40_0000_0000_0000
  {
    assert Pow(2, 6) == 64 && Pow(2, 8) == 256;
    PowAdd(2, 8, 8);
    PowAdd(2, 16, 16);
    PowAdd(2, 32, 16);
    PowAdd(2, 48, 6);
  }

  function Units(k: int, unit: real): real {
    k as real * unit
  }

  ghost predicate IsMultiple(v: real, unit: real) {
    exists k: int :: Units(k, unit) == v
  }

  /** A value is tiny and inexact where it is positive, below the smallest normal number, and no multiple
    * of the smallest number of all; where tininess is detected after rounding, it also has to be below
    * what rounds up to the smallest normal number when two more bits are kept.
    */
  lemma TinyAndInexactIs(v: real, e: nat, afterRounding: bool)
    ensures TinyAndInexact(v, e, afterRounding) <==>
      && 0.0 < v < Normal(e)
      && !IsMultiple(v, Normal(e + 52))
      && (afterRounding ==> v < Normal(e) - Normal(e + 54))
  {
    BelowNormal(v, e);
    Inexact(v, e);
    RoundsUp(v, e);
  }

  lemma BelowNormal(v: real, e: nat)
    ensures Times(v, Pow(2, e)) < 1.0 <==> v < Normal(e)
  {
    UnitIs(v, e);
    Ordered(Times(v, Pow(2, e)), 1.0, Normal(e), v, Normal(e));
  }

  lemma RoundsUp(v: real, e: nat)
    ensures Times(v, Pow(2, e + 54)) < HALFWAY as real <==> v < Normal(e) - Normal(e + 54)
  {
    UnitIs(v, e + 54);
    HalfwayIs(e);
    Ordered(Times(v, Pow(2, e + 54)), HALFWAY as real, Normal(e + 54), v, Normal(e) - Normal(e + 54));
  }

  lemma Inexact(v: real, e: nat)
    ensures IsInteger(Times(v, Pow(2, e + 52))) <==> IsMultiple(v, Normal(e + 52))
  {
    UnitIs(v, e + 52);
    WholeUnits(Times(v, Pow(2, e + 52)), Normal(e + 52), v);
  }

  lemma Ordered(a: real, b: real, unit: real, x: real, y: real)
    requires unit > 0.0 && a * unit == x && b * unit == y
    ensures a < b <==> x < y
  {
  }

  lemma WholeUnits(a: real, unit: real, v: real)
    requires unit > 0.0 && a * unit == v
    ensures IsInteger(a) <==> IsMultiple(v, unit)
  {
    if IsInteger(a) {
      assert Units(a.Floor, unit) == v;
    }
    if IsMultiple(v, unit) {
      var k: int :| Units(k, unit) == v;
      RealCancel(a, k as real, unit);
    }
  }
}
