/** Scores of the slots that are kept (live, or live and matching), shared by both indexes. */
module Selection {
  import opened Bytes
  import opened Ranking
  import opened Hnsw

  /** The entries of the kept slots, in slot order. */
  function KeepWhere<T>(xs: seq<T>, keep: seq<bool>): (r: seq<T>)
    requires |xs| == |keep|
  {
    if keep == [] then []
    else
      var last := |keep| - 1;
      KeepWhere(xs[..last], keep[..last]) + if keep[last] then [xs[last]] else []
  }

  ghost predicate Within(slots: seq<nat>, n: nat) {
    forall i :: 0 <= i < |slots| ==> slots[i] < n
  }

  function KeptSlots(keep: seq<bool>): (r: seq<nat>)
    ensures Within(r, |keep|) && NoDuplicates(r)
    ensures forall i :: i in r <==> 0 <= i < |keep| && keep[i]
  {
    if keep == [] then []
    else
      var last := |keep| - 1;
      KeptSlots(keep[..last]) + if keep[last] then [last] else []
  }

  function Negated(flags: seq<bool>): (r: seq<bool>)
    ensures |r| == |flags| && forall i :: 0 <= i < |flags| ==> r[i] == !flags[i]
  {
    seq(|flags|, i requires 0 <= i < |flags| => !flags[i])
  }

  ghost function ScoresAt(scores: seq<real>, slots: seq<nat>): (r: seq<real>)
    requires Within(slots, |scores|)
    ensures |r| == |slots| && forall i :: 0 <= i < |slots| ==> r[i] == scores[slots[i]]
  {
    seq(|slots|, i requires 0 <= i < |slots| => scores[slots[i]])
  }

  lemma {:induction false} KeepWhereIsScoresAt(scores: seq<real>, keep: seq<bool>)
    requires |scores| == |keep|
    ensures KeepWhere(scores, keep) == ScoresAt(scores, KeptSlots(keep))
  {
    if keep != [] {
      var last := |keep| - 1;
      KeepWhereIsScoresAt(scores[..last], keep[..last]);
    }
  }

  lemma SameElementsSameMultiset<T>(a: seq<T>, b: seq<T>)
    requires NoDuplicates(a) && NoDuplicates(b)
    requires forall x :: x in a <==> x in b
    ensures multiset(a) == multiset(b)
  {
    MultiplicityOne(a);
    MultiplicityOne(b);
    forall x ensures multiset(a)[x] == multiset(b)[x] {
      assert x in a <==> x in multiset(a);
      assert x in b <==> x in multiset(b);
    }
  }

  /** Reordering the slots reorders the scores. */
  lemma {:induction false} PermutedSlots(scores: seq<real>, a: seq<nat>, b: seq<nat>)
    requires multiset(a) == multiset(b)
    requires Within(a, |scores|) && Within(b, |scores|)
    ensures multiset(ScoresAt(scores, a)) == multiset(ScoresAt(scores, b))
  {
    if a == [] {
      assert |b| == |multiset(b)| == 0;
    } else {
      assert a[0] in multiset(b);
      var at :| 0 <= at < |b| && b[at] == a[0];
      var front, back := b[..at], b[at + 1..];
      assert b == front + [a[0]] + back;
      SplicedScores(scores, front, a[0], back);
      TailOfPermuted(a, front, back);
      PermutedSlots(scores, a[1..], front + back);
      FirstScore(scores, a);
    }
  }

  lemma FirstScore(scores: seq<real>, slots: seq<nat>)
    requires slots != [] && Within(slots, |scores|)
    ensures multiset(ScoresAt(scores, slots)) == multiset{scores[slots[0]]} + multiset(ScoresAt(scores, slots[1..]))
  {
    assert ScoresAt(scores, slots) == [scores[slots[0]]] + ScoresAt(scores, slots[1..]);
  }

  lemma TailOfPermuted<T>(a: seq<T>, front: seq<T>, back: seq<T>)
    requires a != [] && multiset(a) == multiset(front + [a[0]] + back)
    ensures multiset(a[1..]) == multiset(front + back)
  {
    TailMultiset(a);
  }

  lemma SplicedScores(scores: seq<real>, front: seq<nat>, x: nat, back: seq<nat>)
    requires Within(front + [x] + back, |scores|)
    ensures x < |scores| && Within(front + back, |scores|)
    ensures multiset(ScoresAt(scores, front + [x] + back)) == multiset{scores[x]} + multiset(ScoresAt(scores, front + back))
  {
    var all := front + [x] + back;
    assert all[|front|] == x;
    forall i | 0 <= i < |front| ensures front[i] < |scores| { assert all[i] == front[i]; }
    forall i | 0 <= i < |back| ensures back[i] < |scores| { assert all[|front| + 1 + i] == back[i]; }
    assert ScoresAt(scores, all) == ScoresAt(scores, front) + [scores[x]] + ScoresAt(scores, back);
    assert ScoresAt(scores, front + back) == ScoresAt(scores, front) + ScoresAt(scores, back);
  }

  /** Scoring only the kept vectors gives the kept scores. */
  lemma {:induction false} KeptVectorScores(sim: Similarity, vecs: seq<Vec>, keep: seq<bool>, query: Vec)
    requires |keep| == |vecs|
    ensures ScoresTo(sim, KeepWhere(vecs, keep), query) == KeepWhere(ScoresTo(sim, vecs, query), keep)
  {
    if vecs != [] {
      var last := |vecs| - 1;
      var front := KeepWhere(vecs[..last], keep[..last]);
      var tail := if keep[last] then [vecs[last]] else [];
      KeptVectorScores(sim, vecs[..last], keep[..last], query);
      assert ScoresTo(sim, vecs, query)[..last] == ScoresTo(sim, vecs[..last], query);
      assert ScoresTo(sim, front + tail, query) == ScoresTo(sim, front, query) + ScoresTo(sim, tail, query);
    }
  }

  lemma {:induction false} AllKept(scores: seq<real>, keep: seq<bool>)
    requires |scores| == |keep| && forall i :: 0 <= i < |keep| ==> keep[i]
    ensures KeepWhere(scores, keep) == scores
  {
    if keep != [] { AllKept(scores[..|keep| - 1], keep[..|keep| - 1]); }
  }

  /** Listing the kept slots by descending score gives the ranking of the kept scores. */
  lemma RankedSlots(scores: seq<real>, keep: seq<bool>, sorted: seq<Scored>)
    requires |scores| == |keep| && Descending(sorted) && NoDuplicates(Nodes(sorted))
    requires forall v :: v in Nodes(sorted) <==> v in KeptSlots(keep)
    requires forall i :: 0 <= i < |sorted| ==> sorted[i].node < |scores| && sorted[i].score == scores[sorted[i].node]
    ensures ScoresOf(sorted) == Ranked(KeepWhere(scores, keep))
  {
    SameElementsSameMultiset(Nodes(sorted), KeptSlots(keep));
    PermutedSlots(scores, Nodes(sorted), KeptSlots(keep));
    KeepWhereIsScoresAt(scores, keep);
    assert ScoresOf(sorted) == ScoresAt(scores, Nodes(sorted));
    RankedUnique(ScoresOf(sorted), KeepWhere(scores, keep));
  }
}
