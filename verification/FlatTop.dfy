/** What an exact top-k is, said without sorting: which vectors are answered, in which order, and which are left out. */
module FlatTop {
  import opened Bytes
  import opened Ranking
  import opened Selection
  import opened Hnsw
  import opened Flat

  /**
   `out` answers `k` at most of the wanted vectors, each slot once, best first; a wanted vector is left out only if `k`
   others are answered, none of them worse.
   */
  ghost predicate BestAmong(sim: Similarity, vs: seq<Vector>, wanted: Vector -> bool, query: Vec, k: nat,
                            slots: seq<nat>, out: seq<SearchResult>) {
    && |slots| == |out| <= k && NoDuplicates(slots)
    && (forall i :: 0 <= i < |slots| ==>
          && slots[i] < |vs| && wanted(vs[slots[i]])
          && out[i] == SearchResult(vs[slots[i]].id, sim(query, vs[slots[i]].data), vs[slots[i]].metadata))
    && (forall i, j :: 0 <= i < j < |out| ==> out[i].score >= out[j].score)
    && forall v :: 0 <= v < |vs| && wanted(vs[v]) && v !in slots ==> LeftOut(sim(query, vs[v].data), k, out)
  }

  ghost predicate TopOf(sim: Similarity, vs: seq<Vector>, wanted: Vector -> bool, query: Vec, k: nat, out: seq<SearchResult>) {
    exists slots :: BestAmong(sim, vs, wanted, query, k, slots, out)
  }

  ghost predicate LeftOut(score: real, k: nat, out: seq<SearchResult>) {
    |out| == k && forall i :: 0 <= i < |out| ==> out[i].score >= score
  }

  ghost predicate Flags(vs: seq<Vector>, wanted: Vector -> bool, keep: seq<bool>) {
    |keep| == |vs| && forall v :: 0 <= v < |vs| ==> keep[v] == wanted(vs[v])
  }

  /** The first entries of a ranking of the wanted vectors, and exactly these, are such answers. */
  lemma TopKIff(sim: Similarity, vs: seq<Vector>, wanted: Vector -> bool, keep: seq<bool>, query: Vec, k: nat,
                out: seq<SearchResult>)
    requires Flags(vs, wanted, keep)
    ensures TopK(sim, vs, keep, query, k, out) <==> TopOf(sim, vs, wanted, query, k, out)
  {
    hide TopK, BestAmong;
    if TopK(sim, vs, keep, query, k, out) {
      var slots := TopIsBest(sim, vs, wanted, keep, query, k, out);
    }
    if slots :| BestAmong(sim, vs, wanted, query, k, slots, out) {
      BestIsTop(sim, vs, wanted, keep, query, k, slots, out);
    }
  }

  // ---------- the slots answered and the others ----------

  function Others(all: seq<nat>, slots: seq<nat>): (r: seq<nat>)
    requires NoDuplicates(all)
    ensures NoDuplicates(r) && forall v :: v in r <==> v in all && v !in slots
  {
    if all == [] then []
    else
      var rest := Others(all[1..], slots);
      OthersStep(all, slots, rest);
      if all[0] in slots then rest else [all[0]] + rest
  }

  lemma OthersStep(all: seq<nat>, slots: seq<nat>, rest: seq<nat>)
    requires all != [] && NoDuplicates(all) && NoDuplicates(rest)
    requires forall v :: v in rest <==> v in all[1..] && v !in slots
    ensures NoDuplicates(all[1..]) && all[0] !in all[1..] && forall v :: v in all <==> v == all[0] || v in all[1..]
    ensures all[0] !in slots ==> NoDuplicates([all[0]] + rest)
  {
    forall i | 0 <= i < |all[1..]| ensures all[1..][i] != all[0] { assert all[1..][i] == all[i + 1]; }
    if all[0] !in slots { ConsDistinct(all[0], rest); }
  }

  /** The kept scores are those of the answered slots and those of the others. */
  lemma KeptSplit(scores: seq<real>, keep: seq<bool>, slots: seq<nat>) returns (others: seq<nat>)
    requires |scores| == |keep| && NoDuplicates(slots)
    requires forall i :: 0 <= i < |slots| ==> slots[i] < |keep| && keep[slots[i]]
    ensures Within(slots, |scores|) && Within(others, |scores|)
    ensures forall v :: v in others <==> 0 <= v < |keep| && keep[v] && v !in slots
    ensures multiset(KeepWhere(scores, keep)) == multiset(ScoresAt(scores, slots)) + multiset(ScoresAt(scores, others))
  {
    var all := KeptSlots(keep);
    others := Others(all, slots);
    hide KeptSlots, Others, KeepWhere;
    forall v | v in slots ensures v in all { var i :| 0 <= i < |slots| && slots[i] == v; }
    forall i | 0 <= i < |others| ensures others[i] < |scores| { assert others[i] in others; }
    TwoParts(slots, others, all);
    ScoresOfBoth(scores, slots, others);
    PermutedSlots(scores, slots + others, all);
    KeepWhereIsScoresAt(scores, keep);
  }

  lemma TwoParts(slots: seq<nat>, others: seq<nat>, all: seq<nat>)
    requires NoDuplicates(slots) && NoDuplicates(others) && NoDuplicates(all)
    requires (forall v :: v in slots ==> v in all) && forall v :: v in others <==> v in all && v !in slots
    ensures multiset(slots + others) == multiset(all)
  {
    var both := slots + others;
    forall i, j | 0 <= i < j < |both| ensures both[i] != both[j] {
      if i < |slots| <= j { assert both[j] in others && both[i] in slots; }
    }
    assert forall v :: v in both <==> v in slots || v in others;
    SameElementsSameMultiset(both, all);
  }

  lemma ScoresOfBoth(scores: seq<real>, slots: seq<nat>, others: seq<nat>)
    requires Within(slots, |scores|) && Within(others, |scores|)
    ensures Within(slots + others, |scores|)
    ensures ScoresAt(scores, slots + others) == ScoresAt(scores, slots) + ScoresAt(scores, others)
  {
  }

  // ---------- both directions ----------

  lemma TopIsBest(sim: Similarity, vs: seq<Vector>, wanted: Vector -> bool, keep: seq<bool>, query: Vec, k: nat,
                  out: seq<SearchResult>) returns (slots: seq<nat>)
    requires Flags(vs, wanted, keep) && TopK(sim, vs, keep, query, k, out)
    ensures BestAmong(sim, vs, wanted, query, k, slots, out)
  {
    var scores := ScoresTo(sim, DataOf(vs), query);
    slots :| FromSlots(sim, vs, keep, query, slots, out);
    var others := KeptSplit(scores, keep, slots);
    hide KeepWhere, Ranked, KeptSlots;
    assert ResultScores(out) == ScoresAt(scores, slots);
    var ranked := Ranked(KeepWhere(scores, keep));
    RankedIsDescending(KeepWhere(scores, keep));
    RestBehind(ranked, k, ScoresAt(scores, slots), ScoresAt(scores, others));
    forall v | 0 <= v < |vs| && wanted(vs[v]) && v !in slots ensures LeftOut(sim(query, vs[v].data), k, out) {
      var i :| 0 <= i < |others| && others[i] == v;
      assert Behind(ResultScores(out), k, ScoresAt(scores, others)[i]);
      assert ScoresAt(scores, others)[i] == sim(query, vs[v].data);
      forall j | 0 <= j < |out| ensures out[j].score >= sim(query, vs[v].data) {
        assert out[j].score == ResultScores(out)[j];
      }
    }
    forall i, j | 0 <= i < j < |out| ensures out[i].score >= out[j].score {
      assert out[i].score == ResultScores(out)[i] == ranked[i] && out[j].score == ResultScores(out)[j] == ranked[j];
    }
  }

  /** What is not among the first `k` of a descending list is no better than they are, and there are `k` of them. */
  lemma RestBehind(ranked: seq<real>, k: nat, first: seq<real>, rest: seq<real>)
    requires DescendingReals(ranked) && first == TakeUpTo(ranked, k)
    requires multiset(ranked) == multiset(first) + multiset(rest)
    ensures |first| <= k && forall i :: 0 <= i < |rest| ==> Behind(first, k, rest[i])
  {
    hide DescendingReals, Behind;
    var tail := ranked[|first|..];
    SplitRanking(ranked, k, first, tail);
    SameRest(first, rest, tail);
    forall i | 0 <= i < |rest| ensures Behind(first, k, rest[i]) {
      InBoth(rest, tail, i);
      BehindFirst(ranked, k, first, tail, rest[i]);
    }
  }

  lemma SplitRanking(ranked: seq<real>, k: nat, first: seq<real>, tail: seq<real>)
    requires first == TakeUpTo(ranked, k) && tail == ranked[|first|..]
    ensures ranked == first + tail && |first| <= k
  {
  }

  lemma InBoth<T>(a: seq<T>, b: seq<T>, i: nat)
    requires multiset(a) == multiset(b) && i < |a|
    ensures a[i] in b
  {
    assert a[i] in multiset(b);
  }

  lemma BehindFirst(ranked: seq<real>, k: nat, first: seq<real>, tail: seq<real>, x: real)
    requires DescendingReals(ranked) && first == TakeUpTo(ranked, k) && tail == ranked[|first|..] && x in tail
    ensures Behind(first, k, x)
  {
    var n :| 0 <= n < |tail| && tail[n] == x;
    assert ranked[|first| + n] == x;
  }

  ghost predicate Behind(first: seq<real>, k: nat, score: real) {
    |first| == k && forall j :: 0 <= j < |first| ==> first[j] >= score
  }

  lemma SameRest<T>(first: seq<T>, rest: seq<T>, tail: seq<T>)
    requires multiset(first + tail) == multiset(first) + multiset(rest)
    ensures multiset(rest) == multiset(tail)
  {
    forall x ensures multiset(rest)[x] == multiset(tail)[x] {
      assert multiset(first + tail)[x] == multiset(first)[x] + multiset(tail)[x];
    }
  }

  lemma BestIsTop(sim: Similarity, vs: seq<Vector>, wanted: Vector -> bool, keep: seq<bool>, query: Vec, k: nat,
                  slots: seq<nat>, out: seq<SearchResult>)
    requires Flags(vs, wanted, keep) && BestAmong(sim, vs, wanted, query, k, slots, out)
    ensures TopK(sim, vs, keep, query, k, out)
  {
    var scores := ScoresTo(sim, DataOf(vs), query);
    assert FromSlots(sim, vs, keep, query, slots, out);
    var others := KeptSplit(scores, keep, slots);
    assert ResultScores(out) == ScoresAt(scores, slots);
    forall i | 0 <= i < |others| ensures Behind(ResultScores(out), k, ScoresAt(scores, others)[i]) {
      assert others[i] in others;
      assert LeftOut(ScoresAt(scores, others)[i], k, out);
    }
    forall i, j | 0 <= i < j < |out| ensures ResultScores(out)[i] >= ResultScores(out)[j] {}
    hide KeepWhere, Ranked, KeptSlots, FromSlots, BestAmong;
    FirstOfRanking(ResultScores(out), ScoresAt(scores, others), KeepWhere(scores, keep), k);
  }

  lemma FirstOfRanking(first: seq<real>, rest: seq<real>, all: seq<real>, k: nat)
    requires DescendingReals(first) && |first| <= k && multiset(all) == multiset(first) + multiset(rest)
    requires forall i :: 0 <= i < |rest| ==> Behind(first, k, rest[i])
    ensures first == TakeUpTo(Ranked(all), k)
  {
    var tail := Ranked(rest);
    hide Ranked;
    RankedIsDescending(rest);
    assert |tail| == |multiset(tail)| == |multiset(rest)| == |rest|;
    forall i, j | 0 <= i < |first| && 0 <= j < |tail| ensures first[i] >= tail[j] {
      InBoth(tail, rest, j);
      var n :| 0 <= n < |rest| && rest[n] == tail[j];
      assert Behind(first, k, rest[n]);
    }
    assert multiset(first + tail) == multiset(all);
    assert DescendingReals(first + tail);
    RankedUnique(first + tail, all);
  }
}
