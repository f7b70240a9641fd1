/** Inner products over exact reals: what the distance kernels compute, and the laws it obeys. */
module InnerProduct {
  function Times(x: real, y: real): real {
    x * y
  }

  /** The inner product of the first `n` components, summed left to right. */
  function Dot(a: seq<real>, b: seq<real>, n: nat): real
    requires n <= |a| && n <= |b|
  {
    if n == 0 then 0.0 else Dot(a, b, n - 1) + Times(a[n - 1], b[n - 1])
  }

  function Minus(a: seq<real>, b: seq<real>): (d: seq<real>)
    requires |a| == |b|
    ensures |d| == |a|
  {
    seq(|a|, i requires 0 <= i < |a| => a[i] - b[i])
  }

  /** Squared Euclidean distance. */
  function L2(a: seq<real>, b: seq<real>): real
    requires |a| == |b|
  {
    Dot(Minus(a, b), Minus(a, b), |a|)
  }

  /** `s` copies of `a` plus `t` copies of `b`. */
  function Combine(s: real, a: seq<real>, t: real, b: seq<real>): (c: seq<real>)
    requires |a| == |b|
    ensures |c| == |a|
  {
    seq(|a|, i requires 0 <= i < |a| => s * a[i] + t * b[i])
  }

  lemma {:induction false} DotSymmetric(a: seq<real>, b: seq<real>, n: nat)
    requires n <= |a| && n <= |b|
    ensures Dot(a, b, n) == Dot(b, a, n)
  {
    if n > 0 { DotSymmetric(a, b, n - 1); }
  }

  /** The inner product with a unit vector along axis `i` is component `i`. */
  lemma {:induction false} DotWithAxis(a: seq<real>, axis: seq<real>, i: nat, n: nat)
    requires i < |a| == |axis| && n <= |a| && axis[i] == 1.0
    requires forall j :: 0 <= j < |axis| && j != i ==> axis[j] == 0.0
    ensures Dot(a, axis, n) == if i < n then a[i] else 0.0
  {
    if n > 0 { DotWithAxis(a, axis, i, n - 1); }
  }

  lemma {:induction false} NormNonNegative(a: seq<real>, n: nat)
    requires n <= |a|
    ensures Dot(a, a, n) >= 0.0
  {
    if n > 0 {
      NormNonNegative(a, n - 1);
    }
  }

  lemma PositiveProduct(x: real, y: real)
    requires (x > 0.0 && y > 0.0) || (x < 0.0 && y < 0.0)
    ensures Times(x, y) > 0.0
  {
    if x < 0.0 {
      assert x * y == -x * -y;
    }
  }

  lemma {:induction false} ZeroTimesAnything(a: seq<real>, b: seq<real>, n: nat)
    requires n <= |a| && n <= |b| && forall i :: 0 <= i < n ==> a[i] == 0.0
    ensures Dot(a, b, n) == 0.0
  {
    if n > 0 { ZeroTimesAnything(a, b, n - 1); }
  }

  lemma {:induction false} NormPositive(a: seq<real>, n: nat, i: nat)
    requires i < n <= |a| && a[i] != 0.0
    ensures Dot(a, a, n) > 0.0
  {
    NormNonNegative(a, n - 1);
    if i == n - 1 {
      PositiveProduct(a[i], a[i]);
    } else {
      NormPositive(a, n - 1, i);
    }
  }

  /** A vector of norm zero is the zero vector. */
  lemma NormZeroIff(a: seq<real>, n: nat)
    requires n <= |a|
    ensures Dot(a, a, n) == 0.0 <==> forall i :: 0 <= i < n ==> a[i] == 0.0
  {
    if i :| 0 <= i < n && a[i] != 0.0 {
      NormPositive(a, n, i);
    } else {
      ZeroTimesAnything(a, a, n);
    }
  }

  /** The norm of `s` times one vector plus `t` times another, from their norms and inner product. */
  function Quadratic(s: real, t: real, aa: real, ab: real, bb: real): real {
    s * s * aa + 2.0 * s * t * ab + t * t * bb
  }

  lemma {:induction false} NormOfCombination(s: real, a: seq<real>, t: real, b: seq<real>, n: nat)
    requires |a| == |b| && n <= |a|
    ensures
      var c := Combine(s, a, t, b);
      Dot(c, c, n) == Quadratic(s, t, Dot(a, a, n), Dot(a, b, n), Dot(b, b, n))
  {
    hide Times, Quadratic;
    if n == 0 {
      QuadraticZero(s, t);
    } else {
      NormOfCombination(s, a, t, b, n - 1);
      var c := Combine(s, a, t, b);
      ExpandStep(s, t, a[n - 1], b[n - 1], c[n - 1], Dot(a, a, n - 1), Dot(a, b, n - 1), Dot(b, b, n - 1),
                 Dot(a, a, n), Dot(a, b, n), Dot(b, b, n));
    }
  }

  lemma QuadraticZero(s: real, t: real)
    ensures Quadratic(s, t, 0.0, 0.0, 0.0) == 0.0
  {
  }

  lemma ExpandStep(s: real, t: real, x: real, y: real, z: real, aa: real, ab: real, bb: real, aa': real, ab': real, bb': real)
    requires z == s * x + t * y && aa' == aa + Times(x, x) && ab' == ab + Times(x, y) && bb' == bb + Times(y, y)
    ensures Quadratic(s, t, aa', ab', bb') == Quadratic(s, t, aa, ab, bb) + Times(z, z)
  {
    SquareOfSum(s * x, t * y);
    Regroup(s, s, x, x);
    Regroup(s, t, x, y);
    Regroup(t, t, y, y);
    Distribute(s * s, aa, x * x);
    Distribute(2.0 * s * t, ab, x * y);
    Distribute(t * t, bb, y * y);
    assert 2.0 * s * t * (x * y) == 2.0 * (s * t * (x * y));
  }

  lemma SquareOfSum(u: real, v: real)
    ensures (u + v) * (u + v) == u * u + 2.0 * (u * v) + v * v
  {
  }

  lemma Regroup(s: real, t: real, x: real, y: real)
    ensures (s * x) * (t * y) == s * t * (x * y)
  {
  }

  lemma Distribute(c: real, x: real, y: real)
    ensures c * (x + y) == c * x + c * y
  {
  }

  /** The square of the inner product is at most the product of the norms. */
  lemma CauchySchwarz(a: seq<real>, b: seq<real>)
    requires |a| == |b|
    ensures Dot(a, b, |a|) * Dot(a, b, |a|) <= Dot(a, a, |a|) * Dot(b, b, |a|)
  {
    var n := |a|;
    var aa, ab, bb := Dot(a, a, n), Dot(a, b, n), Dot(b, b, n);
    hide Quadratic, Dot;
    NormNonNegative(a, n);
    NormNonNegative(b, n);
    if aa == 0.0 {
      NormZeroIff(a, n);
      ZeroTimesAnything(a, b, n);
    } else {
      NormOfCombination(aa, b, -ab, a, n);
      NormNonNegative(Combine(aa, b, -ab, a), n);
      DotSymmetric(a, b, n);
      Discriminant(aa, ab, bb);
    }
  }

  lemma Discriminant(aa: real, ab: real, bb: real)
    requires aa > 0.0
    requires Quadratic(aa, -ab, bb, ab, aa) >= 0.0
    ensures ab * ab <= aa * bb
  {
    assert Quadratic(aa, -ab, bb, ab, aa) == aa * (aa * bb - ab * ab);
    if aa * bb - ab * ab < 0.0 { NegativeProduct(aa, aa * bb - ab * ab); }
  }

  lemma NegativeProduct(x: real, y: real)
    requires x > 0.0 && y < 0.0
    ensures x * y < 0.0
  {
  }

  /** Squared distance is the two norms less twice the inner product. */
  lemma L2Expansion(a: seq<real>, b: seq<real>)
    requires |a| == |b|
    ensures L2(a, b) == Dot(a, a, |a|) + Dot(b, b, |a|) - 2.0 * Dot(a, b, |a|)
  {
    NormOfDifference(a, b, |a|);
  }

  lemma {:induction false} NormOfDifference(a: seq<real>, b: seq<real>, n: nat)
    requires |a| == |b| && n <= |a|
    ensures Dot(Minus(a, b), Minus(a, b), n) == Dot(a, a, n) + Dot(b, b, n) - 2.0 * Dot(a, b, n)
  {
    hide Times;
    if n > 0 {
      NormOfDifference(a, b, n - 1);
      SquareOfDifference(a[n - 1], b[n - 1]);
    }
  }

  lemma SquareOfDifference(x: real, y: real)
    ensures Times(x - y, x - y) == Times(x, x) + Times(y, y) - 2.0 * Times(x, y)
  {
    SquareOfSum(x, -y);
    assert x * -y == -(x * y) && -y * -y == y * y;
  }

  /** Squared distance is symmetric, never negative, and zero only between equal vectors. */
  lemma L2IsDistance(a: seq<real>, b: seq<real>)
    requires |a| == |b|
    ensures L2(a, b) == L2(b, a) && L2(a, b) >= 0.0
    ensures L2(a, b) == 0.0 <==> a == b
  {
    L2Expansion(a, b);
    L2Expansion(b, a);
    DotSymmetric(a, b, |a|);
    var d := Minus(a, b);
    NormNonNegative(d, |a|);
    NormZeroIff(d, |a|);
    if forall i :: 0 <= i < |a| ==> d[i] == 0.0 {
      forall i | 0 <= i < |a| ensures a[i] == b[i] { assert d[i] == 0.0; }
    }
  }

  // ---------- cosine ----------

  const TINY: real := 0.000000000001

  ghost predicate IsSqrt(sqrt: real -> real) {
    forall x :: x >= 0.0 ==> sqrt(x) >= 0.0 && sqrt(x) * sqrt(x) == x
  }

  /** The product of the two vector lengths. */
  function Lengths(a: seq<real>, b: seq<real>, sqrt: real -> real): real
    requires |a| == |b|
  {
    sqrt(Dot(a, a, |a|)) * sqrt(Dot(b, b, |a|))
  }

  /** `r` is `dot` over `lengths`, or zero where the lengths multiply to less than a millionth of a millionth. */
  ghost predicate Guarded(dot: real, lengths: real, r: real) {
    && (lengths < 0.000000000001 ==> r == 0.0)
    && (lengths >= 0.000000000001 ==> Times(r, lengths) == dot)
  }

  /** Cosine similarity; zero when a vector is too short to have a direction. */
  function Cosine(a: seq<real>, b: seq<real>, sqrt: real -> real): (r: real)
    requires |a| == |b|
    ensures Guarded(Dot(a, b, |a|), Lengths(a, b, sqrt), r)
  {
    if Lengths(a, b, sqrt) < TINY then 0.0 else Dot(a, b, |a|) / Lengths(a, b, sqrt)
  }

  lemma LengthsSquared(a: seq<real>, b: seq<real>, sqrt: real -> real)
    requires |a| == |b| && IsSqrt(sqrt)
    ensures Lengths(a, b, sqrt) >= 0.0
    ensures Lengths(a, b, sqrt) * Lengths(a, b, sqrt) == Dot(a, a, |a|) * Dot(b, b, |a|)
  {
    RootsSquared(a, b, sqrt);
    hide IsSqrt, Dot;
    ProductOfRoots(sqrt(Dot(a, a, |a|)), sqrt(Dot(b, b, |a|)));
  }

  lemma ProductOfRoots(x: real, y: real)
    requires x >= 0.0 && y >= 0.0
    ensures x * y >= 0.0 && (x * y) * (x * y) == (x * x) * (y * y)
  {
  }

  lemma SquareOrder(x: real, y: real)
    requires y >= 0.0 && x * x <= y * y
    ensures -y <= x <= y
  {
    if x > y {
      Larger(x, y);
    } else if -x > y {
      assert -x * -x == x * x;
      Larger(-x, y);
    }
  }

  lemma Larger(x: real, y: real)
    requires x > y >= 0.0
    ensures x * x > y * y
  {
    assert x * x - y * y == (x - y) * (x + y);
    NonZeroProduct(x - y, x + y);
  }

  lemma Quotient(x: real, y: real)
    requires y > 0.0
    ensures -y <= x <= y ==> -1.0 <= x / y <= 1.0
    ensures x / y == 1.0 <==> x == y
  {
    assert x / y * y == x;
  }

  /** Cosine similarity lies between -1 and 1, for every pair of vectors. */
  lemma CosineBounded(a: seq<real>, b: seq<real>, sqrt: real -> real)
    requires |a| == |b| && IsSqrt(sqrt)
    ensures -1.0 <= Cosine(a, b, sqrt) <= 1.0
    ensures Cosine(a, b, sqrt) == Cosine(b, a, sqrt)
  {
    CauchySchwarz(a, b);
    LengthsSquared(a, b, sqrt);
    SquareOrder(Dot(a, b, |a|), Lengths(a, b, sqrt));
    DotSymmetric(a, b, |a|);
    if Lengths(a, b, sqrt) >= TINY { Quotient(Dot(a, b, |a|), Lengths(a, b, sqrt)); }
  }

  /** A vector is fully similar to itself exactly when the guard does not fire, and not at all when it does. */
  lemma SelfSimilarity(a: seq<real>, sqrt: real -> real)
    requires IsSqrt(sqrt)
    ensures Dot(a, a, |a|) >= 0.000000000001 ==> Cosine(a, a, sqrt) == 1.0
    ensures Dot(a, a, |a|) < 0.000000000001 ==> Cosine(a, a, sqrt) == 0.0
  {
    NormNonNegative(a, |a|);
    assert Lengths(a, a, sqrt) == Dot(a, a, |a|);
    if Dot(a, a, |a|) >= TINY { Quotient(Dot(a, a, |a|), Dot(a, a, |a|)); }
  }

  function Scaled(c: real, a: seq<real>): (r: seq<real>)
    ensures |r| == |a|
  {
    seq(|a|, i requires 0 <= i < |a| => c * a[i])
  }

  lemma {:induction false} DotScaled(c: real, a: seq<real>, b: seq<real>, n: nat)
    requires n <= |a| && n <= |b|
    ensures Dot(Scaled(c, a), b, n) == c * Dot(a, b, n)
  {
    hide Times;
    if n > 0 {
      DotScaled(c, a, b, n - 1);
      var long := Scaled(c, a);
      ScaledStep(c, Dot(a, b, n - 1), a[n - 1], b[n - 1], long[n - 1]);
    }
  }

  lemma ScaledStep(c: real, sum: real, x: real, y: real, z: real)
    requires z == c * x
    ensures c * (sum + Times(x, y)) == c * sum + Times(z, y)
  {
    Distribute(c, sum, x * y);
    assert c * (x * y) == (c * x) * y;
  }

  lemma RootUnique(x: real, y: real)
    requires x >= 0.0 && y >= 0.0 && x * x == y * y
    ensures x == y
  {
    if x > y {
      Larger(x, y);
    } else if y > x {
      Larger(y, x);
    }
  }

  /** Scaling one vector by a positive factor scales the product of the lengths. */
  lemma LengthsScaled(c: real, a: seq<real>, b: seq<real>, sqrt: real -> real)
    requires |a| == |b| && IsSqrt(sqrt) && c > 0.0
    ensures Lengths(Scaled(c, a), b, sqrt) == c * Lengths(a, b, sqrt)
  {
    hide Dot, Scaled, IsSqrt;
    var long := Scaled(c, a);
    RootsSquared(a, b, sqrt);
    RootsSquared(long, b, sqrt);
    NormScaled(c, a);
    RootScaled(c, sqrt(Dot(a, a, |a|)), Dot(a, a, |a|), sqrt(Dot(long, long, |a|)), Dot(long, long, |a|));
    Reassociate(c, sqrt(Dot(a, a, |a|)), sqrt(Dot(b, b, |a|)));
  }

  lemma NormScaled(c: real, a: seq<real>)
    ensures Dot(Scaled(c, a), Scaled(c, a), |a|) == c * (c * Dot(a, a, |a|))
  {
    hide Dot, Scaled;
    DotScaled(c, a, Scaled(c, a), |a|);
    DotSymmetric(a, Scaled(c, a), |a|);
    DotScaled(c, a, a, |a|);
  }

  lemma RootScaled(c: real, r: real, norm: real, r': real, norm': real)
    requires c > 0.0 && r >= 0.0 && r * r == norm && r' >= 0.0 && r' * r' == norm' && norm' == c * (c * norm)
    ensures r' == c * r
  {
    SquareScaled(c, r, norm);
    RootUnique(r', c * r);
  }

  lemma SquareScaled(c: real, r: real, norm: real)
    requires c > 0.0 && r >= 0.0 && r * r == norm
    ensures c * r >= 0.0 && (c * r) * (c * r) == c * (c * norm)
  {
    Regroup(c, c, r, r);
  }

  lemma Reassociate(c: real, x: real, y: real)
    ensures (c * x) * y == c * (x * y)
  {
  }

  lemma SameQuotient(c: real, x: real, y: real)
    requires c > 0.0 && y > 0.0
    ensures c * y > 0.0 && (c * x) / (c * y) == x / y
  {
    var q := x / y;
    assert q * y == x;
    assert c * x == q * (c * y);
    QuotientIs(q, c * y, c * x);
  }

  lemma QuotientIs(q: real, y: real, x: real)
    requires y > 0.0 && x == q * y
    ensures x / y == q
  {
  }

  /** Only directions count: scaling a vector by any positive factor leaves its similarities as they are. */
  lemma ScalingKeepsCosine(c: real, a: seq<real>, b: seq<real>, sqrt: real -> real)
    requires |a| == |b| && IsSqrt(sqrt) && c > 0.0
    requires Lengths(a, b, sqrt) >= 0.000000000001 && Lengths(Scaled(c, a), b, sqrt) >= 0.000000000001
    ensures Cosine(Scaled(c, a), b, sqrt) == Cosine(a, b, sqrt)
    ensures Cosine(b, Scaled(c, a), sqrt) == Cosine(b, a, sqrt)
  {
    CosineBounded(a, b, sqrt);
    CosineBounded(Scaled(c, a), b, sqrt);
    DotScaled(c, a, b, |a|);
    LengthsScaled(c, a, b, sqrt);
    hide Dot, Scaled, IsSqrt, Lengths;
    SameQuotient(c, Dot(a, b, |a|), Lengths(a, b, sqrt));
  }

  /** Full similarity means the same direction: each vector, scaled by the other's length, is the other. */
  lemma FullSimilarityIff(a: seq<real>, b: seq<real>, sqrt: real -> real)
    requires |a| == |b| && IsSqrt(sqrt) && Lengths(a, b, sqrt) >= TINY
    ensures
      var ra, rb := sqrt(Dot(a, a, |a|)), sqrt(Dot(b, b, |a|));
      Cosine(a, b, sqrt) == 1.0 <==> forall i :: 0 <= i < |a| ==> rb * a[i] == ra * b[i]
  {
    hide Dot, Cosine, IsSqrt;
    RootsSquared(a, b, sqrt);
    CosineOneIff(a, b, sqrt);
    FullProductIff(a, b, sqrt(Dot(a, a, |a|)), sqrt(Dot(b, b, |a|)));
  }

  lemma RootsSquared(a: seq<real>, b: seq<real>, sqrt: real -> real)
    requires |a| == |b| && IsSqrt(sqrt)
    ensures
      var ra, rb := sqrt(Dot(a, a, |a|)), sqrt(Dot(b, b, |a|));
      ra >= 0.0 && rb >= 0.0 && ra * ra == Dot(a, a, |a|) && rb * rb == Dot(b, b, |a|)
  {
    NormNonNegative(a, |a|);
    NormNonNegative(b, |a|);
  }

  lemma CosineOneIff(a: seq<real>, b: seq<real>, sqrt: real -> real)
    requires |a| == |b| && Lengths(a, b, sqrt) >= TINY
    ensures Cosine(a, b, sqrt) == 1.0 <==> Dot(a, b, |a|) == Lengths(a, b, sqrt)
  {
    hide Dot, Lengths;
    Quotient(Dot(a, b, |a|), Lengths(a, b, sqrt));
  }

  /** The equality case of the Cauchy-Schwarz inequality. */
  lemma FullProductIff(a: seq<real>, b: seq<real>, ra: real, rb: real)
    requires |a| == |b| && ra * ra == Dot(a, a, |a|) && rb * rb == Dot(b, b, |a|) && ra * rb > 0.0
    ensures Dot(a, b, |a|) == ra * rb <==> forall i :: 0 <= i < |a| ==> rb * a[i] == ra * b[i]
  {
    var n := |a|;
    hide Dot, Combine, Quadratic;
    ZeroCombinationIff(ra, a, rb, b);
    NormZeroIff(Combine(rb, a, -ra, b), n);
    NormOfCombination(rb, a, -ra, b, n);
    Gap(ra, rb, Dot(a, a, n), Dot(a, b, n), Dot(b, b, n));
  }

  lemma ZeroCombinationIff(ra: real, a: seq<real>, rb: real, b: seq<real>)
    requires |a| == |b|
    ensures
      var c := Combine(rb, a, -ra, b);
      (forall i :: 0 <= i < |a| ==> c[i] == 0.0) <==> (forall i :: 0 <= i < |a| ==> rb * a[i] == ra * b[i])
  {
    var c := Combine(rb, a, -ra, b);
    forall i | 0 <= i < |a| ensures c[i] == 0.0 <==> rb * a[i] == ra * b[i] {
      assert c[i] == rb * a[i] + -ra * b[i];
      assert -ra * b[i] == -(ra * b[i]);
    }
    if forall i :: 0 <= i < |a| ==> c[i] == 0.0 {
      forall i | 0 <= i < |a| ensures rb * a[i] == ra * b[i] { assert c[i] == 0.0; }
    }
  }

  lemma Gap(ra: real, rb: real, aa: real, ab: real, bb: real)
    requires ra * ra == aa && rb * rb == bb && ra * rb > 0.0
    ensures Quadratic(rb, -ra, aa, ab, bb) == 0.0 <==> ab == ra * rb
  {
    var p := ra * rb;
    var norm := rb * rb * aa + 2.0 * rb * -ra * ab + -ra * -ra * bb;
    assert rb * rb * aa == p * p;
    assert -ra * -ra * bb == p * p;
    assert 2.0 * rb * -ra * ab == -2.0 * p * ab;
    assert norm == 2.0 * (p * (p - ab));
    if p != ab { NonZeroProduct(p, p - ab); }
  }

  lemma NonZeroProduct(x: real, y: real)
    requires x != 0.0 && y != 0.0
    ensures x * y != 0.0
  {
  }

  /** Between vectors of length one, more similar means closer. */
  lemma UnitVectorsAgree(a: seq<real>, b: seq<real>, sqrt: real -> real)
    requires |a| == |b| && IsSqrt(sqrt) && Dot(a, a, |a|) == 1.0 && Dot(b, b, |a|) == 1.0
    ensures L2(a, b) == 2.0 - 2.0 * Cosine(a, b, sqrt)
  {
    L2Expansion(a, b);
    RootOfOne(sqrt(1.0));
    assert Lengths(a, b, sqrt) == 1.0;
  }

  lemma RootOfOne(r: real)
    requires r >= 0.0 && r * r == 1.0
    ensures r == 1.0
  {
    if r > 1.0 {
      Larger(r, 1.0);
    } else if r < 1.0 {
      Larger(1.0, r);
    }
  }
}
