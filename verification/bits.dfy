/** Shifts, masks and alternatives of natural numbers, one bit at a time, and the little-endian
  * number that a list of digits of some width denotes.
  */
module Bits {
  predicate Bit(x: nat, t: nat) {
    if t == 0 then x % 2 == 1 else Bit(x / 2, t - 1)
  }

  function Shr(x: nat, j: nat): nat {
    if j == 0 then x else Shr(x / 2, j - 1)
  }

  function Shl(x: nat, j: nat): nat {
    if j == 0 then x else 2 * Shl(x, j - 1)
  }

  function Or(a: nat, b: nat): nat {
    if a == 0 && b == 0 then 0 else 2 * Or(a / 2, b / 2) + if a % 2 == 1 || b % 2 == 1 then 1 else 0
  }

  /** The low `n` bits. */
  function Mask(x: nat, n: nat): nat {
    if n == 0 then 0 else 2 * Mask(x / 2, n - 1) + x % 2
  }

  function Pow2(n: nat): nat {
    Shl(1, n)
  }

  lemma {:induction false} ZeroBit(t: nat)
    ensures !Bit(0, t)
    decreases t
  {
    if t > 0 {
      ZeroBit(t - 1);
    }
  }

  lemma {:induction false} BitOfShr(x: nat, j: nat, t: nat)
    ensures Bit(Shr(x, j), t) <==> Bit(x, j + t)
    decreases j
  {
    if j > 0 {
      BitOfShr(x / 2, j - 1, t);
    }
  }

  lemma {:induction false} BitOfShl(x: nat, j: nat, t: nat)
    ensures Bit(Shl(x, j), t) <==> t >= j && Bit(x, t - j)
    decreases j
  {
    if j > 0 && t > 0 {
      BitOfShl(x, j - 1, t - 1);
    }
  }

  lemma OrHalves(a: nat, b: nat)
    ensures Or(a, b) / 2 == Or(a / 2, b / 2)
    ensures Or(a, b) % 2 == 1 <==> a % 2 == 1 || b % 2 == 1
  {
    if a == 0 && b == 0 {
      assert Or(a / 2, b / 2) == 0;
    }
  }

  lemma {:induction false} BitOfOr(a: nat, b: nat, t: nat)
    ensures Bit(Or(a, b), t) <==> Bit(a, t) || Bit(b, t)
    decreases t
  {
    OrHalves(a, b);
    if t > 0 {
      BitOfOr(a / 2, b / 2, t - 1);
    }
  }

  lemma {:induction false} BitOfMask(x: nat, n: nat, t: nat)
    ensures Bit(Mask(x, n), t) <==> t < n && Bit(x, t)
    decreases n
  {
    if n == 0 {
      ZeroBit(t);
    } else if t > 0 {
      BitOfMask(x / 2, n - 1, t - 1);
    }
  }

  lemma {:induction false} MaskBound(x: nat, n: nat)
    ensures Mask(x, n) < Pow2(n)
    decreases n
  {
    if n > 0 {
      MaskBound(x / 2, n - 1);
    }
  }

  lemma {:induction false} BitsBelow(x: nat, n: nat, t: nat)
    requires x < Pow2(n) && t >= n
    ensures !Bit(x, t)
    decreases n
  {
    if n == 0 {
      ZeroBit(t);
    } else {
      BitsBelow(x / 2, n - 1, t - 1);
    }
  }

  /** Numbers with the same bits are the same. */
  lemma {:induction false} SameBits(x: nat, y: nat)
    requires forall t: nat :: Bit(x, t) <==> Bit(y, t)
    ensures x == y
    decreases x + y
  {
    assert Bit(x, 0) <==> Bit(y, 0);
    if x != y {
      forall t: nat
        ensures Bit(x / 2, t) <==> Bit(y / 2, t)
      {
        assert Bit(x, t + 1) <==> Bit(y, t + 1);
      }
      SameBits(x / 2, y / 2);
    }
  }

  lemma {:induction false} BitOfSum(d: nat, n: nat, width: nat, t: nat)
    requires d < Pow2(width)
    ensures Bit(d + Shl(n, width), t) <==> if t < width then Bit(d, t) else Bit(n, t - width)
    decreases width
  {
    if width > 0 && t > 0 {
      BitOfSum(d / 2, n, width - 1, t - 1);
      assert (d + Shl(n, width)) / 2 == d / 2 + Shl(n, width - 1);
    }
  }

  // ----- lists of digits -------------------------------------------------------------------------------

  predicate AllBelow(digits: seq<nat>, bound: nat) {
    forall i :: 0 <= i < |digits| ==> digits[i] < bound
  }

  /** The number of `digits`, the least significant first, each of `width` bits. */
  function Number(digits: seq<nat>, width: nat): nat {
    if digits == [] then 0 else digits[0] + Shl(Number(digits[1..], width), width)
  }

  /** Bit `t` of the digit `i`, or no bit past the digits. */
  predicate DigitBit(digits: seq<nat>, i: nat, t: nat) {
    i < |digits| && Bit(digits[i], t)
  }

  lemma {:induction false} BitOfNumber(digits: seq<nat>, width: nat, i: nat, t: nat)
    requires AllBelow(digits, Pow2(width)) && t < width
    ensures Bit(Number(digits, width), i * width + t) <==> DigitBit(digits, i, t)
    decreases |digits|
  {
    if digits == [] {
      ZeroBit(i * width + t);
    } else {
      BitOfSum(digits[0], Number(digits[1..], width), width, i * width + t);
      if i == 0 {
        assert i * width == 0;
      } else {
        assert i * width == (i - 1) * width + width;
        NonNegative(i - 1, width);
        BitOfNumber(digits[1..], width, i - 1, t);
      }
    }
  }

  lemma NonNegative(i: nat, width: nat)
    ensures i * width >= 0
  {
  }

  /** As many digits with the same number are the same digits. */
  lemma {:induction false} NumberInjective(a: seq<nat>, b: seq<nat>, width: nat)
    requires |a| == |b| && AllBelow(a, Pow2(width)) && AllBelow(b, Pow2(width)) && Number(a, width) == Number(b, width)
    ensures a == b
    decreases |a|
  {
    if a != [] {
      forall t: nat
        ensures Bit(a[0], t) <==> Bit(b[0], t)
        ensures Bit(Number(a[1..], width), t) <==> Bit(Number(b[1..], width), t)
      {
        FirstBits(a, width, t);
        FirstBits(b, width, t);
      }
      SameBits(a[0], b[0]);
      SameBits(Number(a[1..], width), Number(b[1..], width));
      NumberInjective(a[1..], b[1..], width);
    }
  }

  lemma FirstBits(a: seq<nat>, width: nat, t: nat)
    requires a != [] && AllBelow(a, Pow2(width))
    ensures Bit(a[0], t) <==> t < width && Bit(Number(a, width), t)
    ensures Bit(Number(a[1..], width), t) <==> Bit(Number(a, width), t + width)
  {
    BitOfSum(a[0], Number(a[1..], width), width, t);
    BitOfSum(a[0], Number(a[1..], width), width, t + width);
    if t >= width {
      BitsBelow(a[0], width, t);
    }
  }
}
