/**
 The scalar, eight-lane and four-lane distance kernels, over exact reals: strided accumulation, lane
 reduction and scalar tail compute the left-to-right sums.
 */
module Kernels {
  import opened InnerProduct

  // ---------- vector registers ----------

  /** Lane-wise multiply and add. */
  function Fma(x: seq<real>, y: seq<real>, acc: seq<real>): (r: seq<real>)
    requires |x| == |y| == |acc|
    ensures |r| == |x|
  {
    seq(|x|, i requires 0 <= i < |x| => x[i] * y[i] + acc[i])
  }

  function AddPs(x: seq<real>, y: seq<real>): (r: seq<real>)
    requires |x| == |y| == 4
    ensures |r| == 4
  {
    [x[0] + y[0], x[1] + y[1], x[2] + y[2], x[3] + y[3]]
  }

  /** Copies each odd lane onto the even lane before it. */
  function MoveHdup(x: seq<real>): (r: seq<real>)
    requires |x| == 4
    ensures |r| == 4
  {
    [x[1], x[1], x[3], x[3]]
  }

  /** The upper half of `y`, then the upper half of `x`. */
  function MoveHl(x: seq<real>, y: seq<real>): (r: seq<real>)
    requires |x| == |y| == 4
    ensures |r| == 4
  {
    [y[2], y[3], x[2], x[3]]
  }

  /** Adds lane 0 only. */
  function AddSs(x: seq<real>, y: seq<real>): (r: seq<real>)
    requires |x| == |y| == 4
    ensures |r| == 4
  {
    [x[0] + y[0], x[1], x[2], x[3]]
  }

  /** The lanes summed left to right. */
  function Total(v: seq<real>, n: nat): real
    requires n <= |v|
  {
    if n == 0 then 0.0 else Total(v, n - 1) + v[n - 1]
  }

  /** The shuffle-and-add reduction of eight lanes is their sum. */
  function Hsum256(v: seq<real>): (sum: real)
    requires |v| == 8
    ensures sum == Total(v, 8)
  {
    var lo := AddPs(v[..4], v[4..]);
    var sums := AddPs(lo, MoveHdup(lo));
    var result := AddSs(sums, MoveHl(MoveHdup(lo), sums))[0];
    EightLanes(v);
    result
  }

  lemma EightLanes(v: seq<real>)
    requires |v| == 8
    ensures Total(v, 8) == v[0] + v[1] + v[2] + v[3] + v[4] + v[5] + v[6] + v[7]
  {
    assert Total(v, 4) == v[0] + v[1] + v[2] + v[3] by { FourLanes(v); }
    assert Total(v, 6) == Total(v, 4) + v[4] + v[5];
    assert Total(v, 8) == Total(v, 6) + v[6] + v[7];
  }

  lemma FourLanes(v: seq<real>)
    requires |v| >= 4
    ensures Total(v, 4) == v[0] + v[1] + v[2] + v[3]
  {
    assert Total(v, 1) == v[0];
    assert Total(v, 2) == v[0] + v[1];
    assert Total(v, 4) == Total(v, 2) + v[2] + v[3];
  }

  /** The pairwise reduction of four lanes is their sum. */
  function Vaddvq(v: seq<real>): (sum: real)
    requires |v| == 4
    ensures sum == Total(v, 4)
  {
    FourLanes(v);
    (v[0] + v[1]) + (v[2] + v[3])
  }

  // ---------- strided accumulation ----------

  /** Multiply-and-add raises the lanes' total by the inner product of the two registers. */
  lemma {:induction false} FmaTotal(x: seq<real>, y: seq<real>, acc: seq<real>, n: nat)
    requires |x| == |y| == |acc| && n <= |x|
    ensures Total(Fma(x, y, acc), n) == Total(acc, n) + Dot(x, y, n)
  {
    if n > 0 { FmaTotal(x, y, acc, n - 1); }
  }

  /** A block of `width` components, loaded at `i`, carries their share of the inner product. */
  lemma {:induction false} DotBlock(a: seq<real>, b: seq<real>, i: nat, width: nat)
    requires |a| == |b| && i + width <= |a|
    ensures Dot(a, b, i + width) == Dot(a, b, i) + Dot(a[i..i + width], b[i..i + width], width)
  {
    if width > 0 {
      DotBlock(a, b, i, width - 1);
      SamePrefix(a[i..i + width], a[i..i + width - 1], b[i..i + width], b[i..i + width - 1], width - 1);
    }
  }

  lemma {:induction false} SamePrefix(a: seq<real>, a': seq<real>, b: seq<real>, b': seq<real>, n: nat)
    requires n <= |a| && n <= |a'| && n <= |b| && n <= |b'|
    requires a[..n] == a'[..n] && b[..n] == b'[..n]
    ensures Dot(a, b, n) == Dot(a', b', n)
  {
    if n > 0 {
      assert a[n - 1] == a[..n][n - 1] == a'[n - 1] && b[n - 1] == b[..n][n - 1] == b'[n - 1];
      assert a[..n - 1] == a[..n][..n - 1] == a'[..n - 1] && b[..n - 1] == b[..n][..n - 1] == b'[..n - 1];
      SamePrefix(a, a', b, b', n - 1);
    }
  }

  /** One strided step: the lanes held the sum of the first `i` products and now hold `width` more. */
  lemma StridedStep(a: seq<real>, b: seq<real>, acc: seq<real>, i: nat, width: nat)
    requires |a| == |b| && |acc| == width && i + width <= |a|
    requires Total(acc, width) == Dot(a, b, i)
    ensures Total(Fma(a[i..i + width], b[i..i + width], acc), width) == Dot(a, b, i + width)
  {
    FmaTotal(a[i..i + width], b[i..i + width], acc, width);
    DotBlock(a, b, i, width);
  }

  lemma {:induction false} ZeroLanes(v: seq<real>, n: nat)
    requires n <= |v| && forall i :: 0 <= i < |v| ==> v[i] == 0.0
    ensures Total(v, n) == 0.0
  {
    if n > 0 { ZeroLanes(v, n - 1); }
  }

  lemma NothingSummed(a: seq<real>, b: seq<real>)
    ensures Dot(a, b, 0) == Dot(a, a, 0) == Dot(b, b, 0) == 0.0
  {
  }

  /** Registers of differences are blocks of the difference. */
  lemma MinusBlock(a: seq<real>, b: seq<real>, i: nat, width: nat)
    requires |a| == |b| && i + width <= |a|
    ensures Minus(a[i..i + width], b[i..i + width]) == Minus(a, b)[i..i + width]
  {
  }

  // ---------- the kernels ----------

  method CosineNaive(a: seq<real>, b: seq<real>, sqrt: real -> real) returns (r: real)
    requires |a| == |b|
    ensures r == Cosine(a, b, sqrt)
    ensures Lengths(a, b, sqrt) < 0.000000000001 ==> r == 0.0
    ensures Lengths(a, b, sqrt) >= 0.000000000001 ==> Times(r, Lengths(a, b, sqrt)) == Dot(a, b, |a|)
  {
    var dot, normA, normB := 0.0, 0.0, 0.0;
    for i := 0 to |a|
      invariant dot == Dot(a, b, i) && normA == Dot(a, a, i) && normB == Dot(b, b, i)
    {
      dot := dot + a[i] * b[i];
      normA := normA + a[i] * a[i];
      normB := normB + b[i] * b[i];
    }
    var denom := sqrt(normA) * sqrt(normB);
    if denom < TINY { return 0.0; }
    return dot / denom;
  }

  method L2Naive(a: seq<real>, b: seq<real>) returns (acc: real)
    requires |a| == |b|
    ensures acc == L2(a, b)
  {
    acc := 0.0;
    for i := 0 to |a|
      invariant acc == Dot(Minus(a, b), Minus(a, b), i)
    {
      var d := a[i] - b[i];
      acc := acc + d * d;
    }
  }

  /** The body of the strided loops: three fused multiply-adds on registers of `width` lanes. */
  method CosineStep(a: seq<real>, b: seq<real>, i: nat, width: nat, dotAcc: seq<real>, normAAcc: seq<real>, normBAcc: seq<real>)
    returns (dot: seq<real>, normA: seq<real>, normB: seq<real>)
    requires i + width <= |a| == |b| && |dotAcc| == |normAAcc| == |normBAcc| == width
    requires Total(dotAcc, width) == Dot(a, b, i)
    requires Total(normAAcc, width) == Dot(a, a, i) && Total(normBAcc, width) == Dot(b, b, i)
    ensures |dot| == |normA| == |normB| == width && Total(dot, width) == Dot(a, b, i + width)
    ensures Total(normA, width) == Dot(a, a, i + width) && Total(normB, width) == Dot(b, b, i + width)
  {
    hide Dot, Total, Fma;
    var va, vb := a[i..i + width], b[i..i + width];
    StridedStep(a, b, dotAcc, i, width);
    StridedStep(a, a, normAAcc, i, width);
    StridedStep(b, b, normBAcc, i, width);
    dot, normA, normB := Fma(va, vb, dotAcc), Fma(va, va, normAAcc), Fma(vb, vb, normBAcc);
  }

  method CosineAvx2(a: seq<real>, b: seq<real>, sqrt: real -> real) returns (r: real)
    requires |a| == |b|
    ensures r == Cosine(a, b, sqrt)
    ensures Lengths(a, b, sqrt) < 0.000000000001 ==> r == 0.0
    ensures Lengths(a, b, sqrt) >= 0.000000000001 ==> Times(r, Lengths(a, b, sqrt)) == Dot(a, b, |a|)
  {
    var zero := [0.0, 0.0, 0.0, 0.0, 0.0, 0.0, 0.0, 0.0];
    ZeroLanes(zero, 8);
    NothingSummed(a, b);
    hide Dot, Total, Fma, Cosine, Hsum256, Vaddvq;
    var dotAcc, normAAcc, normBAcc := zero, zero, zero;
    var dim, i := |a|, 0;
    while i + 8 <= dim
      invariant i <= dim && |dotAcc| == |normAAcc| == |normBAcc| == 8
      invariant Total(dotAcc, 8) == Dot(a, b, i)
      invariant Total(normAAcc, 8) == Dot(a, a, i)
      invariant Total(normBAcc, 8) == Dot(b, b, i)
    {
      dotAcc, normAAcc, normBAcc := CosineStep(a, b, i, 8, dotAcc, normAAcc, normBAcc);
      i := i + 8;
    }
    var dot, normA, normB := Hsum256(dotAcc), Hsum256(normAAcc), Hsum256(normBAcc);
    r := CosineTail(a, b, sqrt, i, dot, normA, normB);
  }

  /** The scalar tail and the guarded division the vector kernels share. */
  method CosineTail(a: seq<real>, b: seq<real>, sqrt: real -> real, from: nat, dot0: real, normA0: real, normB0: real)
    returns (r: real)
    requires from <= |a| == |b|
    requires dot0 == Dot(a, b, from) && normA0 == Dot(a, a, from) && normB0 == Dot(b, b, from)
    ensures r == Cosine(a, b, sqrt)
    ensures Lengths(a, b, sqrt) < 0.000000000001 ==> r == 0.0
    ensures Lengths(a, b, sqrt) >= 0.000000000001 ==> Times(r, Lengths(a, b, sqrt)) == Dot(a, b, |a|)
  {
    var dot, normA, normB := dot0, normA0, normB0;
    for i := from to |a|
      invariant dot == Dot(a, b, i) && normA == Dot(a, a, i) && normB == Dot(b, b, i)
    {
      dot := dot + a[i] * b[i];
      normA := normA + a[i] * a[i];
      normB := normB + b[i] * b[i];
    }
    var denom := sqrt(normA) * sqrt(normB);
    if denom < TINY { return 0.0; }
    return dot / denom;
  }

  /** The scalar tail of the vector distance kernels. */
  method L2Tail(a: seq<real>, b: seq<real>, from: nat, acc0: real) returns (acc: real)
    requires from <= |a| == |b| && acc0 == Dot(Minus(a, b), Minus(a, b), from)
    ensures acc == L2(a, b)
  {
    acc := acc0;
    for i := from to |a|
      invariant acc == Dot(Minus(a, b), Minus(a, b), i)
    {
      var d := a[i] - b[i];
      acc := acc + d * d;
    }
  }

  method L2Step(a: seq<real>, b: seq<real>, i: nat, width: nat, acc: seq<real>) returns (r: seq<real>)
    requires i + width <= |a| == |b| && |acc| == width
    requires Total(acc, width) == Dot(Minus(a, b), Minus(a, b), i)
    ensures |r| == width && Total(r, width) == Dot(Minus(a, b), Minus(a, b), i + width)
  {
    hide Dot, Total, Fma, Minus;
    var diff := Minus(a[i..i + width], b[i..i + width]);
    MinusBlock(a, b, i, width);
    StridedStep(Minus(a, b), Minus(a, b), acc, i, width);
    r := Fma(diff, diff, acc);
  }

  method L2Avx2(a: seq<real>, b: seq<real>) returns (result: real)
    requires |a| == |b|
    ensures result == L2(a, b)
  {
    var acc := [0.0, 0.0, 0.0, 0.0, 0.0, 0.0, 0.0, 0.0];
    ZeroLanes(acc, 8);
    NothingSummed(Minus(a, b), Minus(a, b));
    hide Dot, Total, Fma, Minus, L2, Hsum256, Vaddvq;
    var dim, i := |a|, 0;
    while i + 8 <= dim
      invariant i <= dim && |acc| == 8
      invariant Total(acc, 8) == Dot(Minus(a, b), Minus(a, b), i)
    {
      acc := L2Step(a, b, i, 8, acc);
      i := i + 8;
    }
    result := L2Tail(a, b, i, Hsum256(acc));
  }

  method CosineNeon(a: seq<real>, b: seq<real>, sqrt: real -> real) returns (r: real)
    requires |a| == |b|
    ensures r == Cosine(a, b, sqrt)
    ensures Lengths(a, b, sqrt) < 0.000000000001 ==> r == 0.0
    ensures Lengths(a, b, sqrt) >= 0.000000000001 ==> Times(r, Lengths(a, b, sqrt)) == Dot(a, b, |a|)
  {
    var zero := [0.0, 0.0, 0.0, 0.0];
    ZeroLanes(zero, 4);
    NothingSummed(a, b);
    hide Dot, Total, Fma, Cosine, Hsum256, Vaddvq;
    var dotAcc, normAAcc, normBAcc := zero, zero, zero;
    var dim, i := |a|, 0;
    while i + 4 <= dim
      invariant i <= dim && |dotAcc| == |normAAcc| == |normBAcc| == 4
      invariant Total(dotAcc, 4) == Dot(a, b, i)
      invariant Total(normAAcc, 4) == Dot(a, a, i)
      invariant Total(normBAcc, 4) == Dot(b, b, i)
    {
      dotAcc, normAAcc, normBAcc := CosineStep(a, b, i, 4, dotAcc, normAAcc, normBAcc);
      i := i + 4;
    }
    var dot, normA, normB := Vaddvq(dotAcc), Vaddvq(normAAcc), Vaddvq(normBAcc);
    r := CosineTail(a, b, sqrt, i, dot, normA, normB);
  }

  method L2Neon(a: seq<real>, b: seq<real>) returns (result: real)
    requires |a| == |b|
    ensures result == L2(a, b)
  {
    var acc := [0.0, 0.0, 0.0, 0.0];
    ZeroLanes(acc, 4);
    NothingSummed(Minus(a, b), Minus(a, b));
    hide Dot, Total, Fma, Minus, L2, Hsum256, Vaddvq;
    var dim, i := |a|, 0;
    while i + 4 <= dim
      invariant i <= dim && |acc| == 4
      invariant Total(acc, 4) == Dot(Minus(a, b), Minus(a, b), i)
    {
      acc := L2Step(a, b, i, 4, acc);
      i := i + 4;
    }
    result := L2Tail(a, b, i, Vaddvq(acc));
  }
}
