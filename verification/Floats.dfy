/**
 The numbers that 32-bit float patterns stand for, IEEE 754 section 3.4: a sign bit, eight exponent bits and
 23 fraction bits.
 */
module Floats {
  import opened Bytes

  /** The patterns of 1.0 and of the largest finite float. */
  const ONE: u32 := 0x3F80_0000
  const LARGEST: u32 := 0x7F7F_FFFF

  function Exponent(w: u32): nat {
    w / 0x80_0000 % 0x100
  }

  function Fraction(w: u32): nat {
    w % 0x80_0000
  }

  function Pow2(n: nat): (r: nat)
    ensures r >= 1
  {
    if n == 0 then 1 else 2 * Pow2(n - 1)
  }

  /** The magnitude in units of the smallest positive float. */
  function Units(w: u32): nat {
    if Exponent(w) == 0 then Fraction(w) else (0x80_0000 + Fraction(w)) * Pow2(Exponent(w) - 1)
  }

  /** How many smallest positive floats make up 1. */
  function UnitsInOne(): (r: nat)
    ensures r >= 1
  {
    Pow2(149)
  }

  /** The number a pattern stands for; infinities and NaNs, which stand for none, are given 0. */
  function Value(w: u32): real {
    if Exponent(w) == 0xFF then 0.0
    else (if w < 0x8000_0000 then Units(w) as real else -(Units(w) as real)) / UnitsInOne() as real
  }

  function Values(v: Vec): (r: seq<real>)
    ensures |r| == |v|
    ensures forall i :: 0 <= i < |v| ==> r[i] == Value(v[i])
  {
    seq(|v|, i requires 0 <= i < |v| => Value(v[i]))
  }

  // ---------- order ----------

  lemma {:induction false} PowGrows(m: nat, n: nat)
    requires m <= n
    ensures Pow2(m) <= Pow2(n)
  {
    if m < n { PowGrows(m, n - 1); }
  }

  lemma {:induction false} PowAdd(m: nat, n: nat)
    ensures Pow2(m + n) == Pow2(m) * Pow2(n)
  {
    if m > 0 {
      PowAdd(m - 1, n);
      assert Pow2(m) == 2 * Pow2(m - 1) && Pow2(m + n) == 2 * Pow2(m - 1 + n);
      hide Pow2;
      DoubleFirst(Pow2(m - 1), Pow2(n));
    }
  }

  lemma DoubleFirst(p: nat, q: nat)
    ensures 2 * (p * q) == (2 * p) * q
  {
  }

  /** The pattern of a finite positive float is its exponent followed by its fraction. */
  lemma Parts(w: u32)
    requires w <= LARGEST
    ensures w == Exponent(w) * 0x80_0000 + Fraction(w) && Exponent(w) < 0xFF && Fraction(w) < 0x80_0000
  {
  }

  /** A number with exponent `e` lies between `2^(e - 1)` and `2^e`, in units of `2^23`. */
  lemma Binade(w: u32)
    ensures Units(w) < 0x80_0000 * Pow2(Exponent(w))
    ensures Exponent(w) > 0 ==> Units(w) >= 0x80_0000 * Pow2(Exponent(w) - 1)
  {
    var e, fraction := Exponent(w), Fraction(w);
    assert fraction < 0x80_0000;
    hide Exponent, Fraction;
    if e > 0 {
      Scaled(0x80_0000, 0x80_0000 + fraction, Pow2(e - 1));
      Scaled(0x80_0000 + fraction, 0x100_0000, Pow2(e - 1));
    }
  }

  lemma Scaled(x: nat, y: nat, p: nat)
    requires p >= 1
    ensures x <= y ==> x * p <= y * p
    ensures x < y ==> x * p < y * p
  {
    if x < y { AtLeastOne(y - x, p); }
    assert y * p == x * p + (y - x) * p;
  }

  lemma AtLeastOne(x: nat, y: nat)
    requires x >= 1 && y >= 1
    ensures x * y >= 1
  {
  }

  lemma UnitsGrow(v: u32, w: u32)
    requires v < w <= LARGEST
    ensures Units(v) < Units(w)
  {
    Parts(v);
    Parts(w);
    hide Exponent, Fraction;
    var d, e := Exponent(v), Exponent(w);
    if d < e {
      Binade(v);
      Binade(w);
      PowGrows(d, e - 1);
    } else if e > 0 {
      Scaled(0x80_0000 + Fraction(v), 0x80_0000 + Fraction(w), Pow2(e - 1));
    }
  }

  /** Positive finite floats are ordered like their patterns. */
  lemma FloatOrder(v: u32, w: u32)
    requires v < w <= LARGEST
    ensures 0.0 <= Value(v) < Value(w)
  {
    UnitsGrow(v, w);
    Parts(v);
    Parts(w);
    hide Units, UnitsInOne, Exponent, Fraction;
    Divided(Units(v) as real, Units(w) as real, UnitsInOne() as real);
  }

  lemma Divided(x: real, y: real, d: real)
    requires 0.0 <= x < y && d > 0.0
    ensures 0.0 <= x / d < y / d
  {
    assert x / d * d == x && y / d * d == y;
  }

  // ---------- zero and one ----------

  lemma PowOf23()
    ensures Pow2(23) == 0x80_0000
  {
    assert Pow2(8) == 256;
    PowAdd(8, 8);
    PowAdd(16, 7);
  }

  lemma WholePower(w: u32, e: nat)
    requires 1 <= e == Exponent(w) && Fraction(w) == 0
    ensures Units(w) == Pow2(22 + e)
  {
    hide Exponent, Fraction;
    PowOf23();
    PowAdd(23, e - 1);
  }

  lemma ValueOfUnits(w: u32)
    requires w <= LARGEST
    ensures Units(w) == 0 ==> Value(w) == 0.0
    ensures Units(w) == UnitsInOne() ==> Value(w) == 1.0
  {
    Parts(w);
    hide Units, UnitsInOne, Exponent, Fraction;
    ZeroOrWhole(Units(w) as real, UnitsInOne() as real);
  }

  lemma ZeroOrWhole(x: real, d: real)
    requires d > 0.0
    ensures x == 0.0 ==> x / d == 0.0
    ensures x == d ==> x / d == 1.0
  {
    assert x / d * d == x;
  }

  lemma PartsOfZeroAndOne()
    ensures Exponent(0) == 0 && Fraction(0) == 0 && Exponent(ONE) == 127 && Fraction(ONE) == 0
  {
  }

  lemma ZeroAndOne()
    ensures Value(0) == 0.0 && Value(ONE) == 1.0
  {
    hide Value, Pow2, Exponent, Fraction;
    PartsOfZeroAndOne();
    WholePower(ONE, 127);
    assert Units(0) == 0 && Units(ONE) == UnitsInOne();
    hide Units, UnitsInOne;
    ValueOfUnits(0);
    ValueOfUnits(ONE);
  }
}
