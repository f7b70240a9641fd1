/** The brute-force index: a list of vectors with deletion flags, and an exact top-k scan. */
module Flat {
  import opened Bytes
  import opened Ranking
  import opened Selection
  import opened Hnsw

  datatype Vector = Vector(id: u64, metadata: Data, data: Vec, deleted: bool)

  datatype SearchResult = SearchResult(id: u64, score: real, metadata: Data)

  // ---------- specification ----------

  function DataOf(vs: seq<Vector>): (r: seq<Vec>)
    ensures |r| == |vs| && forall i :: 0 <= i < |vs| ==> r[i] == vs[i].data
  {
    seq(|vs|, i requires 0 <= i < |vs| => vs[i].data)
  }

  function LiveFlags(vs: seq<Vector>): (r: seq<bool>)
    ensures |r| == |vs| && forall i :: 0 <= i < |vs| ==> r[i] == !vs[i].deleted
  {
    seq(|vs|, i requires 0 <= i < |vs| => !vs[i].deleted)
  }

  /** Live vectors whose metadata passes the filter. */
  function MatchFlags(vs: seq<Vector>, filter: Data -> bool): (r: seq<bool>)
    ensures |r| == |vs| && forall i :: 0 <= i < |vs| ==> r[i] == (!vs[i].deleted && filter(vs[i].metadata))
  {
    seq(|vs|, i requires 0 <= i < |vs| => !vs[i].deleted && filter(vs[i].metadata))
  }

  /** All scores of the kept vectors, best first. */
  function KeptRanking(sim: Similarity, vs: seq<Vector>, keep: seq<bool>, query: Vec): seq<real>
    requires |keep| == |vs|
  {
    Ranked(KeepWhere(ScoresTo(sim, DataOf(vs), query), keep))
  }

  /** First vector with the id is flagged; an unknown id changes nothing. */
  function Flagged(vs: seq<Vector>, id: u64): (r: seq<Vector>)
    ensures |r| == |vs|
  {
    if vs == [] then []
    else if vs[0].id == id then [vs[0].(deleted := true)] + vs[1..]
    else [vs[0]] + Flagged(vs[1..], id)
  }

  lemma {:induction false} FlaggedAt(vs: seq<Vector>, id: u64, i: nat)
    requires i <= |vs| && (i < |vs| ==> vs[i].id == id)
    requires forall j :: 0 <= j < i ==> vs[j].id != id
    ensures Flagged(vs, id) == if i < |vs| then vs[i := vs[i].(deleted := true)] else vs
  {
    if i > 0 {
      FlaggedAt(vs[1..], id, i - 1);
    }
  }

  /** Effect of an operation on the flat index; the level of an insertion is ignored. */
  function FlatStep(dim: nat, vs: seq<Vector>, op: Op): seq<Vector> {
    match op
    case OpInsert(id, vec, meta, _) => if |vec| == dim then vs + [Vector(id, meta, vec, false)] else vs
    case OpDelete(id) => Flagged(vs, id)
  }

  function FlatRun(dim: nat, ops: seq<Op>): seq<Vector> {
    if ops == [] then []
    else
      var last := |ops| - 1;
      FlatStep(dim, FlatRun(dim, ops[..last]), ops[last])
  }

  function ResultScores(out: seq<SearchResult>): (r: seq<real>)
    ensures |r| == |out| && forall i :: 0 <= i < |out| ==> r[i] == out[i].score
  {
    seq(|out|, i requires 0 <= i < |out| => out[i].score)
  }

  /** `out` is a best-first list of `min(k, kept)` different kept vectors, none of the others scoring better. */
  ghost predicate TopK(sim: Similarity, vs: seq<Vector>, keep: seq<bool>, query: Vec, k: nat, out: seq<SearchResult>) {
    && |keep| == |vs|
    && ResultScores(out) == TakeUpTo(KeptRanking(sim, vs, keep, query), k)
    && exists slots :: FromSlots(sim, vs, keep, query, slots, out)
  }

  /** Each result is the vector of its own kept slot, with its own similarity. */
  ghost predicate FromSlots(sim: Similarity, vs: seq<Vector>, keep: seq<bool>, query: Vec, slots: seq<nat>,
                            out: seq<SearchResult>)
    requires |keep| == |vs|
  {
    && |slots| == |out| && NoDuplicates(slots)
    && forall i :: 0 <= i < |slots| ==>
         && slots[i] < |vs| && keep[slots[i]]
         && out[i] == SearchResult(vs[slots[i]].id, sim(query, vs[slots[i]].data), vs[slots[i]].metadata)
  }

  /** Kept slots by descending score. */
  lemma SortedKept(sim: Similarity, vs: seq<Vector>, keep: seq<bool>, query: Vec) returns (sorted: seq<Scored>)
    requires |keep| == |vs|
    ensures ScoresOf(sorted) == KeptRanking(sim, vs, keep, query) && NoDuplicates(Nodes(sorted))
    ensures forall i :: 0 <= i < |sorted| ==>
      sorted[i].node < |vs| && keep[sorted[i].node] && sorted[i].score == sim(query, vs[sorted[i].node].data)
  {
    var scores, slots := ScoresTo(sim, DataOf(vs), query), KeptSlots(keep);
    var rated := seq(|slots|, i requires 0 <= i < |slots| => Scored(scores[slots[i]], slots[i]));
    sorted := SortDescending(rated);
    assert Nodes(rated) == slots;
    NodesDistinctAfterSort(sorted, rated);
    SortedCopyElements(sorted, rated);
    forall i | 0 <= i < |sorted|
      ensures sorted[i].node < |vs| && keep[sorted[i].node] && sorted[i].score == sim(query, vs[sorted[i].node].data)
    {
      RatedEntry(rated, sorted[i]);
    }
    SameNodes(sorted, rated);
    RankedSlots(scores, keep, sorted);
  }

  lemma RatedEntry(rated: seq<Scored>, e: Scored)
    requires e in rated
    ensures exists j :: 0 <= j < |rated| && rated[j] == e && Nodes(rated)[j] in Nodes(rated)
  {
    var j :| 0 <= j < |rated| && rated[j] == e;
    assert Nodes(rated)[j] in Nodes(rated);
  }

  /** Every search has a possible result. */
  lemma TopKExists(sim: Similarity, vs: seq<Vector>, keep: seq<bool>, query: Vec, k: nat) returns (out: seq<SearchResult>)
    requires |keep| == |vs|
    ensures TopK(sim, vs, keep, query, k, out)
  {
    var sorted := SortedKept(sim, vs, keep, query);
    var slots := TakeUpTo(Nodes(sorted), k);
    out := seq(|slots|, i requires 0 <= i < |slots| => SearchResult(vs[slots[i]].id, sorted[i].score, vs[slots[i]].metadata));
    assert FromSlots(sim, vs, keep, query, slots, out);
    assert ResultScores(out) == TakeUpTo(ScoresOf(sorted), k);
  }

  // ---------- the scores array ----------

  /** A score, or the bottom value that deleted and filtered-out entries get. */
  datatype Score = Bottom | Finite(value: real)

  datatype Entry = Entry(score: Score, slot: nat)

  predicate NotBelow(a: Score, b: Score) {
    b.Bottom? || (a.Finite? && a.value >= b.value)
  }

  /** What `partial_sort` promises: the first `m` are in order and no later entry beats them. */
  ghost predicate PartiallySorted(xs: seq<Entry>, m: nat) {
    m <= |xs| && forall i, j :: 0 <= i < j < |xs| && i < m ==> NotBelow(xs[i].score, xs[j].score)
  }

  method PartialSort(xs: seq<Entry>, m: nat) returns (out: seq<Entry>)
    requires m <= |xs|
    ensures multiset(out) == multiset(xs) && PartiallySorted(out, m)
  {
    out := [];
    for n := 0 to |xs|
      invariant multiset(out) == multiset(xs[..n]) && PartiallySorted(out, |out|)
    {
      out := InsertEntry(out, xs[n]);
      assert xs[..n + 1] == xs[..n] + [xs[n]];
    }
    assert xs[..|xs|] == xs;
    assert |out| == |multiset(out)| == |multiset(xs)| == |xs|;
  }

  method InsertEntry(xs: seq<Entry>, e: Entry) returns (out: seq<Entry>)
    requires PartiallySorted(xs, |xs|)
    ensures multiset(out) == multiset(xs + [e]) && PartiallySorted(out, |out|)
  {
    var at := 0;
    while at < |xs| && NotBelow(xs[at].score, e.score)
      invariant 0 <= at <= |xs|
      invariant at > 0 ==> NotBelow(xs[at - 1].score, e.score)
    {
      at := at + 1;
    }
    out := xs[..at] + [e] + xs[at..];
    SplicedIsCopy(xs, e, at);
  }

  /** The scores array filled from the kept slots. */
  function Entries(scores: seq<real>, keep: seq<bool>): (r: seq<Entry>)
    requires |scores| == |keep|
    ensures |r| == |keep|
    ensures forall i :: 0 <= i < |r| ==> r[i] == Entry(if keep[i] then Finite(scores[i]) else Bottom, i)
  {
    seq(|keep|, i requires 0 <= i < |keep| => Entry(if keep[i] then Finite(scores[i]) else Bottom, i))
  }

  /** The proper scores of an array, in order. */
  function Finites(xs: seq<Entry>): seq<real> {
    if xs == [] then []
    else
      var last := |xs| - 1;
      Finites(xs[..last]) + if xs[last].score.Finite? then [xs[last].score.value] else []
  }

  lemma {:induction false} FinitesOfEntries(scores: seq<real>, keep: seq<bool>)
    requires |scores| == |keep|
    ensures Finites(Entries(scores, keep)) == KeepWhere(scores, keep)
  {
    if keep != [] {
      var last := |keep| - 1;
      FinitesOfEntries(scores[..last], keep[..last]);
      assert Entries(scores, keep)[..last] == Entries(scores[..last], keep[..last]);
    }
  }

  lemma {:induction false} FinitesConcat(a: seq<Entry>, b: seq<Entry>)
    ensures Finites(a + b) == Finites(a) + Finites(b)
  {
    if b == [] {
      assert a + b == a;
    } else {
      var last := |b| - 1;
      FinitesConcat(a, b[..last]);
      assert (a + b)[..|a + b| - 1] == a + b[..last];
    }
  }

  /** Reordering the array reorders its proper scores. */
  lemma {:induction false} FinitesPermuted(a: seq<Entry>, b: seq<Entry>)
    requires multiset(a) == multiset(b)
    ensures multiset(Finites(a)) == multiset(Finites(b))
  {
    if a == [] {
      assert |b| == |multiset(b)| == 0;
    } else {
      assert a[0] in multiset(b);
      var at :| 0 <= at < |b| && b[at] == a[0];
      var front, back := b[..at], b[at + 1..];
      assert b == front + [a[0]] + back;
      TailOfPermuted(a, front, back);
      FinitesPermuted(a[1..], front + back);
      FinitesSplit(a[..0], a[0], a[1..]);
      assert a == a[..0] + [a[0]] + a[1..] && a[..0] + a[1..] == a[1..];
      FinitesSplit(front, a[0], back);
    }
  }

  lemma FinitesSplit(front: seq<Entry>, e: Entry, back: seq<Entry>)
    ensures multiset(Finites(front + [e] + back)) == multiset(Finites(front + back)) + multiset(Finites([e]))
  {
    FinitesConcat(front + [e], back);
    FinitesConcat(front, [e]);
    FinitesConcat(front, back);
  }

  lemma {:induction false} AllFinite(xs: seq<Entry>)
    requires forall i :: 0 <= i < |xs| ==> xs[i].score.Finite?
    ensures |Finites(xs)| == |xs| && forall i :: 0 <= i < |xs| ==> Finites(xs)[i] == xs[i].score.value
  {
    if xs != [] { AllFinite(xs[..|xs| - 1]); }
  }

  lemma {:induction false} AllBottom(xs: seq<Entry>)
    requires forall i :: 0 <= i < |xs| ==> xs[i].score.Bottom?
    ensures Finites(xs) == []
  {
    if xs != [] { AllBottom(xs[..|xs| - 1]); }
  }

  /** The proper scores at the front of a partially sorted array are the top of the ranking. */
  lemma FrontIsTop(orig: seq<Entry>, sorted: seq<Entry>, m: nat, taken: nat, k: nat)
    requires multiset(sorted) == multiset(orig) && PartiallySorted(sorted, m)
    requires m == if k <= |sorted| then k else |sorted|
    requires taken <= m && forall i :: 0 <= i < taken ==> sorted[i].score.Finite?
    requires taken < m ==> sorted[taken].score.Bottom?
    ensures Finites(sorted[..taken]) == TakeUpTo(Ranked(Finites(orig)), k)
  {
    hide Finites, Ranked, PartiallySorted;
    var best, rest := Finites(sorted[..taken]), Ranked(Finites(sorted[taken..]));
    RankedSplits(orig, sorted, m, taken);
    AllFinite(sorted[..taken]);
    if taken < m {
      BottomTail(sorted, m, taken);
      NothingRanked();
    } else if m < k {
      assert sorted[taken..] == [];
      AllBottom([]);
      NothingRanked();
    }
    TakeOfConcat(best, rest, k);
  }

  lemma BottomTail(sorted: seq<Entry>, m: nat, taken: nat)
    requires PartiallySorted(sorted, m) && taken < m && sorted[taken].score.Bottom?
    ensures Finites(sorted[taken..]) == []
  {
    forall i | 0 <= i < |sorted[taken..]| ensures sorted[taken..][i].score.Bottom? {
      assert i > 0 ==> NotBelow(sorted[taken].score, sorted[taken + i].score);
    }
    AllBottom(sorted[taken..]);
  }

  lemma NothingRanked()
    ensures Ranked([]) == []
  {
  }

  lemma TakeOfConcat<T>(a: seq<T>, b: seq<T>, k: nat)
    requires |a| == k || (|a| < k && b == [])
    ensures TakeUpTo(a + b, k) == a
  {
  }

  lemma SplitMultiset(orig: seq<Entry>, sorted: seq<Entry>, taken: nat)
    requires multiset(sorted) == multiset(orig) && taken <= |sorted|
    ensures multiset(Finites(sorted[..taken]) + Ranked(Finites(sorted[taken..]))) == multiset(Finites(orig))
  {
    assert sorted == sorted[..taken] + sorted[taken..];
    FinitesConcat(sorted[..taken], sorted[taken..]);
    FinitesPermuted(sorted, orig);
  }

  lemma RankedSplits(orig: seq<Entry>, sorted: seq<Entry>, m: nat, taken: nat)
    requires multiset(sorted) == multiset(orig) && PartiallySorted(sorted, m) && taken <= m
    requires forall i :: 0 <= i < taken ==> sorted[i].score.Finite?
    ensures Ranked(Finites(orig)) == Finites(sorted[..taken]) + Ranked(Finites(sorted[taken..]))
  {
    FrontDescends(sorted, m, taken);
    SplitMultiset(orig, sorted, taken);
    RankedUnique(Finites(sorted[..taken]) + Ranked(Finites(sorted[taken..])), Finites(orig));
  }

  lemma FrontDescends(sorted: seq<Entry>, m: nat, taken: nat)
    requires PartiallySorted(sorted, m) && taken <= m
    requires forall i :: 0 <= i < taken ==> sorted[i].score.Finite?
    ensures DescendingReals(Finites(sorted[..taken]) + Ranked(Finites(sorted[taken..])))
  {
    var best, rest := Finites(sorted[..taken]), Ranked(Finites(sorted[taken..]));
    AllFinite(sorted[..taken]);
    forall i, j | 0 <= i < j < taken ensures best[i] >= best[j] {
      assert NotBelow(sorted[i].score, sorted[j].score);
    }
    RankedIsDescending(Finites(sorted[taken..]));
    forall i, j | 0 <= i < taken && 0 <= j < |rest| ensures best[i] >= rest[j] {
      assert rest[j] in multiset(rest);
      BackIsNoBetter(sorted, m, taken, i, rest[j]);
    }
    DescendingConcat(best, rest);
  }

  lemma BackIsNoBetter(sorted: seq<Entry>, m: nat, taken: nat, i: nat, x: real)
    requires PartiallySorted(sorted, m) && i < taken <= m && sorted[i].score.Finite?
    requires x in Finites(sorted[taken..])
    ensures sorted[i].score.value >= x
  {
    FiniteCameFrom(sorted[taken..], x);
    var n :| 0 <= n < |sorted[taken..]| && sorted[taken..][n].score == Finite(x);
    assert NotBelow(sorted[i].score, sorted[taken + n].score);
  }

  lemma DescendingConcat(a: seq<real>, b: seq<real>)
    requires DescendingReals(a) && DescendingReals(b)
    requires forall i, j :: 0 <= i < |a| && 0 <= j < |b| ==> a[i] >= b[j]
    ensures DescendingReals(a + b)
  {
  }

  lemma {:induction false} FiniteCameFrom(xs: seq<Entry>, value: real)
    requires value in Finites(xs)
    ensures exists i :: 0 <= i < |xs| && xs[i].score == Finite(value)
  {
    if xs != [] {
      var last := |xs| - 1;
      if value in Finites(xs[..last]) {
        FiniteCameFrom(xs[..last], value);
        var i :| 0 <= i < last && xs[..last][i].score == Finite(value);
        assert xs[i].score == Finite(value);
      } else {
        assert xs[last].score == Finite(value);
      }
    }
  }
}
