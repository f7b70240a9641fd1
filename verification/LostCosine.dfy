/**
 Vectors for which cosine similarity makes earlier vectors more similar than later ones, seen from any of them:
 each has a component of its own, and they share a first component that falls from vector to vector.  They bring
 out the loss described in module HnswLost for the similarity that the index really uses.
 */
module LostCosine {
  import opened Bytes
  import opened Floats
  import opened Hnsw
  import opened HnswSearch
  import opened HnswExact
  import opened HnswTheorems
  import opened HnswLost
  import opened Flat
  import P = InnerProduct

  /** Cosine similarity of two float vectors of the same length, over the numbers they stand for. */
  function CosineSim(sqrt: real -> real): Similarity {
    (a: Vec, b: Vec) => if |a| == |b| then P.Cosine(Values(a), Values(b), sqrt) else 0.0
  }

  /** Positive finite floats, each smaller than the one before. */
  ghost predicate Falling(ws: seq<u32>) {
    && (forall i :: 0 <= i < |ws| ==> 0 < ws[i] <= LARGEST)
    && forall i, j :: 0 <= i < j < |ws| ==> ws[j] < ws[i]
  }

  /** Vector `i` has first component `ws[i]`, a 1 of its own, and zeros elsewhere. */
  function Spoke(ws: seq<u32>, i: nat): (v: Vec)
    requires i < |ws|
    ensures |v| == |ws| + 1 && v[0] == ws[i]
    ensures forall k :: 1 <= k <= |ws| ==> v[k] == if k == i + 1 then ONE else 0
  {
    [ws[i]] + seq(|ws|, k => if k == i then ONE else 0)
  }

  function Spokes(ws: seq<u32>): (pts: seq<Vec>)
    ensures |pts| == |ws| && forall i :: 0 <= i < |ws| ==> pts[i] == Spoke(ws, i)
  {
    seq(|ws|, i requires 0 <= i < |ws| => Spoke(ws, i))
  }

  // ---------- their cosines ----------

  lemma SpokeValues(ws: seq<u32>, i: nat)
    requires i < |ws|
    ensures Values(Spoke(ws, i))[0] == Value(ws[i])
    ensures forall k :: 1 <= k <= |ws| ==> Values(Spoke(ws, i))[k] == if k == i + 1 then 1.0 else 0.0
  {
    ZeroAndOne();
    hide Value;
  }

  /** Two different spokes share only the first component. */
  lemma {:induction false} SpokeDot(a: seq<real>, b: seq<real>, i: nat, j: nat, n: nat)
    requires 1 <= n <= |a| == |b|
    requires forall k :: 1 <= k < |a| ==> a[k] == if k == i + 1 then 1.0 else 0.0
    requires forall k :: 1 <= k < |b| ==> b[k] == if k == j + 1 then 1.0 else 0.0
    ensures P.Dot(a, b, n) == a[0] * b[0] + if i == j && i + 1 < n then 1.0 else 0.0
  {
    if n == 1 {
      assert P.Dot(a, b, 0) == 0.0;
    } else {
      SpokeDot(a, b, i, j, n - 1);
    }
  }

  /** The length of a spoke. */
  function Reach(x: real, sqrt: real -> real): real {
    sqrt(x * x + 1.0)
  }

  lemma RootAboveOne(x: real, r: real)
    requires r >= 0.0 && r * r == x * x + 1.0
    ensures r >= 1.0
  {
    if r < 1.0 { P.Larger(1.0, r); }
  }

  lemma ReachSquared(x: real, sqrt: real -> real)
    requires P.IsSqrt(sqrt)
    ensures Reach(x, sqrt) >= 1.0 && Reach(x, sqrt) * Reach(x, sqrt) == x * x + 1.0
  {
    assert x * x + 1.0 >= 0.0;
    RootAboveOne(x, Reach(x, sqrt));
  }

  /** The cosine of two vectors of this shape. */
  lemma CosineOfSpokes(a: seq<real>, b: seq<real>, i: nat, j: nat, sqrt: real -> real)
    requires i != j && i + 1 < |a| == |b| && j + 1 < |b| && P.IsSqrt(sqrt)
    requires forall k :: 1 <= k < |a| ==> a[k] == if k == i + 1 then 1.0 else 0.0
    requires forall k :: 1 <= k < |b| ==> b[k] == if k == j + 1 then 1.0 else 0.0
    ensures Reach(a[0], sqrt) * Reach(b[0], sqrt) >= 1.0
    ensures P.Cosine(a, b, sqrt) == a[0] * b[0] / (Reach(a[0], sqrt) * Reach(b[0], sqrt))
  {
    ReachSquared(a[0], sqrt);
    ReachSquared(b[0], sqrt);
    hide P.Dot, P.IsSqrt;
    SpokeDot(a, b, i, j, |a|);
    SpokeDot(a, a, i, i, |a|);
    SpokeDot(b, b, j, j, |a|);
    AtLeastOne(Reach(a[0], sqrt), Reach(b[0], sqrt));
  }

  lemma SpokeCosine(ws: seq<u32>, i: nat, j: nat, sqrt: real -> real)
    requires i < |ws| && j < |ws| && i != j && P.IsSqrt(sqrt)
    ensures
      var x, y := Value(ws[i]), Value(ws[j]);
      && Reach(x, sqrt) * Reach(y, sqrt) >= 1.0
      && CosineSim(sqrt)(Spoke(ws, i), Spoke(ws, j)) == x * y / (Reach(x, sqrt) * Reach(y, sqrt))
  {
    hide Value, P.Cosine, P.IsSqrt, Reach, Values, Spoke;
    var a, b := Values(Spoke(ws, i)), Values(Spoke(ws, j));
    SpokeValues(ws, i);
    SpokeValues(ws, j);
    assert CosineSim(sqrt)(Spoke(ws, i), Spoke(ws, j)) == P.Cosine(a, b, sqrt);
    hide CosineSim;
    CosineOfSpokes(a, b, i, j, sqrt);
  }

  lemma AtLeastOne(x: real, y: real)
    requires x >= 1.0 && y >= 1.0
    ensures x * y >= 1.0
  {
    assert x * y >= x;
  }

  // ---------- their order ----------

  lemma RatioGrows(p: real, q: real, rp: real, rq: real)
    requires p > q > 0.0 && rp >= 1.0 && rq >= 1.0 && rp * rp == p * p + 1.0 && rq * rq == q * q + 1.0
    ensures p * rq > q * rp
  {
    P.Larger(p, q);
    P.ProductOfRoots(p, rq);
    P.ProductOfRoots(q, rp);
    assert (p * p) * (q * q + 1.0) == (q * q) * (p * p + 1.0) + p * p - q * q;
    if p * rq <= q * rp { SquaresKeepOrder(p * rq, q * rp); }
  }

  lemma SquaresKeepOrder(x: real, y: real)
    requires 0.0 <= x <= y
    ensures x * x <= y * y
  {
  }

  lemma QuotientOrder(x: real, c: real, y: real, d: real)
    requires c > 0.0 && d > 0.0 && x * d > y * c
    ensures x / c > y / d
  {
    assert x / c * c == x && y / d * d == y;
    if x / c <= y / d { SameFactors(x / c, y / d, c, d); }
  }

  lemma SameFactors(u: real, v: real, c: real, d: real)
    requires u <= v && c > 0.0 && d > 0.0
    ensures u * c * d <= v * d * c
  {
    assert c * d > 0.0;
    assert v * (c * d) - u * (c * d) == (v - u) * (c * d);
  }

  /** Seen along `t`, the larger first component is the more similar. */
  lemma CosineOrder(t: real, p: real, q: real, rt: real, rp: real, rq: real)
    requires t > 0.0 && p > q > 0.0 && rt >= 1.0 && rp >= 1.0 && rq >= 1.0
    requires rp * rp == p * p + 1.0 && rq * rq == q * q + 1.0 && rt * rp >= 1.0 && rt * rq >= 1.0
    ensures t * p / (rt * rp) > t * q / (rt * rq)
  {
    RatioGrows(p, q, rp, rq);
    Factored(t * rt, p * rq, q * rp);
    assert t * p * (rt * rq) == t * rt * (p * rq);
    assert t * q * (rt * rp) == t * rt * (q * rp);
    QuotientOrder(t * p, rt * rp, t * q, rt * rq);
  }

  lemma Factored(f: real, x: real, y: real)
    requires f > 0.0 && x > y
    ensures f * x > f * y
  {
    assert f * x - f * y == f * (x - y);
  }

  lemma ReachOrder(t: real, p: real, q: real, sqrt: real -> real)
    requires t > 0.0 && p > q > 0.0 && P.IsSqrt(sqrt)
    requires Reach(t, sqrt) * Reach(p, sqrt) >= 1.0 && Reach(t, sqrt) * Reach(q, sqrt) >= 1.0
    ensures t * p / (Reach(t, sqrt) * Reach(p, sqrt)) > t * q / (Reach(t, sqrt) * Reach(q, sqrt))
  {
    ReachSquared(t, sqrt);
    ReachSquared(p, sqrt);
    ReachSquared(q, sqrt);
    hide Reach, P.IsSqrt;
    CosineOrder(t, p, q, Reach(t, sqrt), Reach(p, sqrt), Reach(q, sqrt));
  }

  lemma SpokeOrder(ws: seq<u32>, v: nat, a: nat, b: nat, sqrt: real -> real)
    requires Falling(ws) && v < |ws| && a < b < |ws| && a != v && b != v && P.IsSqrt(sqrt)
    ensures CosineSim(sqrt)(Spoke(ws, v), Spoke(ws, a)) > CosineSim(sqrt)(Spoke(ws, v), Spoke(ws, b))
  {
    hide Value, CosineSim, Spoke, Reach, P.IsSqrt;
    ZeroAndOne();
    FloatOrder(0, ws[v]);
    FloatOrder(0, ws[b]);
    FloatOrder(ws[b], ws[a]);
    SpokeCosine(ws, v, a, sqrt);
    SpokeCosine(ws, v, b, sqrt);
    ReachOrder(Value(ws[v]), Value(ws[a]), Value(ws[b]), sqrt);
  }

  /** Whatever square root is used, the spokes make earlier vectors more similar. */
  lemma SpokesEarlierCloser(ws: seq<u32>, sqrt: real -> real)
    requires Falling(ws) && P.IsSqrt(sqrt)
    ensures EarlierCloser(CosineSim(sqrt), Spokes(ws))
  {
    hide CosineSim;
    var sim, pts := CosineSim(sqrt), Spokes(ws);
    forall v, a, b | 0 <= v < |pts| && 0 <= a < b < |pts| && a != v && b != v ensures sim(pts[v], pts[a]) > sim(pts[v], pts[b]) {
      SpokeOrder(ws, v, a, b, sqrt);
    }
  }

  // ---------- the loss ----------

  /** With cosine similarity, one slot past the bound is live and no search finds it. */
  lemma CosineLosesLast(cfg: Config, ws: seq<u32>, sqrt: real -> real, s: Index, query: Vec)
    requires cfg.M >= 1 && cfg.efConstruction >= |ws| == 2 * cfg.M + 2 && Falling(ws) && P.IsSqrt(sqrt)
    requires |ws| <= 0x1_0000_0000 && Run(CosineSim(sqrt), cfg, |ws| + 1, HubOps(Spokes(ws)), s)
    ensures |s.ids| == |s.tomb| == |ws| && forall v :: 0 <= v < |ws| ==> s.ids[v] == v && !s.tomb[v]
    ensures Reached(CosineSim(sqrt), s, query) <= Below(|ws| - 1)
  {
    hide CosineSim, Admissible, Run, HubOps, Reached, Below, Falling, P.IsSqrt, Spokes;
    SpokesAdmissible(cfg, ws, sqrt);
    LastSlotLost(CosineSim(sqrt), cfg, |ws| + 1, Spokes(ws), s, query);
  }

  /** So `2M + 1` slots is the best possible bound: one more, and even the widest search can disagree with a scan. */
  lemma BoundIsTight(cfg: Config, ws: seq<u32>, sqrt: real -> real, s: Index, ef: int, query: Vec)
    requires cfg.M >= 1 && cfg.efConstruction >= |ws| == 2 * cfg.M + 2 && Falling(ws) && P.IsSqrt(sqrt)
    requires |ws| <= 0x1_0000_0000 && Run(CosineSim(sqrt), cfg, |ws| + 1, HubOps(Spokes(ws)), s) && ef >= |ws|
    ensures !AlwaysMatchesFlat(CosineSim(sqrt), ef, s, FlatRun(|ws| + 1, HubOps(Spokes(ws))), query)
  {
    hide CosineSim, Admissible, Run, HubOps, AlwaysMatchesFlat, FlatRun, Falling, P.IsSqrt, Spokes;
    SpokesAdmissible(cfg, ws, sqrt);
    LastSlotMissed(CosineSim(sqrt), cfg, |ws| + 1, Spokes(ws), s, ef, query);
  }

  lemma SpokesAdmissible(cfg: Config, ws: seq<u32>, sqrt: real -> real)
    requires cfg.M >= 1 && cfg.efConstruction >= |ws| == 2 * cfg.M + 2 && Falling(ws) && P.IsSqrt(sqrt)
    requires |ws| <= 0x1_0000_0000
    ensures Admissible(CosineSim(sqrt), cfg, |ws| + 1, Spokes(ws))
  {
    SpokesEarlierCloser(ws, sqrt);
  }

  /** Evenly spread floats above 1: falling first components for any number of vectors that the patterns allow. */
  function Spread(n: nat, step: nat): (ws: seq<u32>)
    requires n * step <= LARGEST - ONE
    ensures |ws| == n && forall i :: 0 <= i < n ==> ws[i] == ONE + (n - i) * step
  {
    seq(n, i requires 0 <= i < n => SpreadAt(n, step, i))
  }

  function SpreadAt(n: nat, step: nat, i: nat): (w: u32)
    requires i < n && n * step <= LARGEST - ONE
    ensures w == ONE + (n - i) * step
  {
    StepsBelow(n - i, n, step);
    ONE + (n - i) * step
  }

  lemma StepsBelow(k: nat, n: nat, step: nat)
    requires k <= n
    ensures k * step <= n * step
    ensures k < n && step >= 1 ==> k * step < n * step
  {
    assert n * step == k * step + (n - k) * step;
  }

  lemma SpreadFalls(n: nat, step: nat)
    requires step >= 1 && n * step <= LARGEST - ONE
    ensures Falling(Spread(n, step))
  {
    forall i | 0 <= i < n ensures 0 < Spread(n, step)[i] <= LARGEST { StepsBelow(n - i, n, step); }
    forall i, j | 0 <= i < j < n ensures Spread(n, step)[j] < Spread(n, step)[i] { StepsBelow(n - j, n - i, step); }
  }

  // ---------- the loss by overlap ----------

  /** Two orthogonal directions: what module Overlap needs to lose a slot, for cosine similarity. */
  lemma Orthogonal(sqrt: real -> real)
    requires P.IsSqrt(sqrt)
    ensures CosineSim(sqrt)([0, ONE], [0, ONE]) == 1.0 && CosineSim(sqrt)([0, ONE], [ONE, 0]) == 0.0
  {
    ZeroAndOne();
    hide Value;
    var up, right := Values([0, ONE]), Values([ONE, 0]);
    assert up == [0.0, 1.0] && right == [1.0, 0.0];
    UnitDots();
    P.SelfSimilarity(up, sqrt);
    hide P.Dot;
    NothingShared(up, right, sqrt);
  }

  lemma UnitDots()
    ensures P.Dot([0.0, 1.0], [0.0, 1.0], 2) == 1.0 && P.Dot([0.0, 1.0], [1.0, 0.0], 2) == 0.0
  {
    assert P.Dot([0.0, 1.0], [0.0, 1.0], 1) == 0.0 && P.Dot([0.0, 1.0], [1.0, 0.0], 1) == 0.0;
  }

  lemma NothingShared(a: seq<real>, b: seq<real>, sqrt: real -> real)
    requires |a| == |b| && P.Dot(a, b, |a|) == 0.0
    ensures P.Cosine(a, b, sqrt) == 0.0
  {
    hide P.Dot;
  }
}
