/** The brute-force index as an object, and what compaction and filtering mean for its rankings. */
module FlatIndex {
  import opened Bytes
  import opened Wrappers
  import opened Ranking
  import opened Selection
  import opened Hnsw
  import opened Flat
  import opened FlatTop

  // ---------- compaction and filtering ----------

  lemma {:induction false} DataOfKept(vs: seq<Vector>, keep: seq<bool>)
    requires |keep| == |vs|
    ensures DataOf(KeepWhere(vs, keep)) == KeepWhere(DataOf(vs), keep)
  {
    if vs != [] {
      var last := |vs| - 1;
      DataOfKept(vs[..last], keep[..last]);
      assert DataOf(vs)[..last] == DataOf(vs[..last]);
    }
  }

  lemma {:induction false} KeptElements(vs: seq<Vector>, keep: seq<bool>)
    requires |keep| == |vs|
    ensures forall v :: v in KeepWhere(vs, keep) <==> exists i :: 0 <= i < |vs| && keep[i] && vs[i] == v
  {
    if vs != [] {
      var last := |vs| - 1;
      KeptElements(vs[..last], keep[..last]);
      forall v ensures v in KeepWhere(vs, keep) <==> exists i :: 0 <= i < |vs| && keep[i] && vs[i] == v {
        if v in KeepWhere(vs[..last], keep[..last]) {
          var i :| 0 <= i < last && keep[..last][i] && vs[..last][i] == v;
          assert keep[i] && vs[i] == v;
        }
        if i :| 0 <= i < |vs| && keep[i] && vs[i] == v {
          if i < last { assert keep[..last][i] && vs[..last][i] == v; }
        }
      }
    }
  }

  lemma KeptAllLive(vs: seq<Vector>, keep: seq<bool>)
    requires |keep| == |vs| && forall i :: 0 <= i < |vs| && keep[i] ==> !vs[i].deleted
    ensures forall i :: 0 <= i < |KeepWhere(vs, keep)| ==> LiveFlags(KeepWhere(vs, keep))[i]
  {
    KeptElements(vs, keep);
    forall i | 0 <= i < |KeepWhere(vs, keep)| ensures LiveFlags(KeepWhere(vs, keep))[i] {
      assert KeepWhere(vs, keep)[i] in KeepWhere(vs, keep);
    }
  }

  /** A plain search over an index rebuilt from chosen live vectors ranks exactly the chosen ones. */
  lemma RebuiltRanking(sim: Similarity, vs: seq<Vector>, keep: seq<bool>, query: Vec)
    requires |keep| == |vs| && forall i :: 0 <= i < |vs| && keep[i] ==> !vs[i].deleted
    ensures KeptRanking(sim, KeepWhere(vs, keep), LiveFlags(KeepWhere(vs, keep)), query) == KeptRanking(sim, vs, keep, query)
  {
    var kept := KeepWhere(vs, keep);
    DataOfKept(vs, keep);
    KeptVectorScores(sim, DataOf(vs), keep, query);
    KeptAllLive(vs, keep);
    AllKept(ScoresTo(sim, DataOf(kept), query), LiveFlags(kept));
  }

  /** `compact` leaves the score sequence of every later search unchanged. */
  lemma CompactKeepsSearches(sim: Similarity, vs: seq<Vector>, query: Vec, k: nat, before: seq<SearchResult>,
                             after: seq<SearchResult>)
    requires TopK(sim, vs, LiveFlags(vs), query, k, before)
    requires
      var compacted := KeepWhere(vs, LiveFlags(vs));
      TopK(sim, compacted, LiveFlags(compacted), query, k, after)
    ensures ResultScores(after) == ResultScores(before)
  {
    RebuiltRanking(sim, vs, LiveFlags(vs), query);
  }

  /** A filtered search scores like a plain search on an index of only the live matching vectors. */
  lemma FilteredIsRebuilt(sim: Similarity, vs: seq<Vector>, filter: Data -> bool, query: Vec, k: nat,
                          filtered: seq<SearchResult>, plain: seq<SearchResult>)
    requires TopK(sim, vs, MatchFlags(vs, filter), query, k, filtered)
    requires
      var rebuilt := KeepWhere(vs, MatchFlags(vs, filter));
      TopK(sim, rebuilt, LiveFlags(rebuilt), query, k, plain)
    ensures ResultScores(filtered) == ResultScores(plain)
  {
    RebuiltRanking(sim, vs, MatchFlags(vs, filter), query);
  }

  // ---------- top-k ----------

  lemma SortedSlotsDistinct(scores: seq<real>, keep: seq<bool>, sorted: seq<Entry>)
    requires |scores| == |keep| && multiset(sorted) == multiset(Entries(scores, keep))
    ensures forall i :: 0 <= i < |sorted| ==> sorted[i].slot < |keep| && sorted[i] == Entries(scores, keep)[sorted[i].slot]
    ensures forall i, j :: 0 <= i < j < |sorted| ==> sorted[i].slot != sorted[j].slot
  {
    var orig := Entries(scores, keep);
    MultiplicityOne(orig);
    forall i | 0 <= i < |sorted| ensures sorted[i].slot < |keep| && sorted[i] == orig[sorted[i].slot] {
      assert sorted[i] in multiset(orig);
    }
    forall i, j | 0 <= i < j < |sorted| ensures sorted[i].slot != sorted[j].slot {
      if sorted[i].slot == sorted[j].slot {
        CountTwice(sorted, i, j);
      }
    }
  }

  /** The tail both searches share: partial sort, then copy until the first bottom entry. */
  method TakeTop(sim: Similarity, vs: seq<Vector>, query: Vec, k: nat, entries: seq<Entry>, ghost keep: seq<bool>)
    returns (out: seq<SearchResult>)
    requires |keep| == |vs| && entries == Entries(ScoresTo(sim, DataOf(vs), query), keep)
    ensures TopK(sim, vs, keep, query, k, out)
  {
    var actual := if k < |vs| then k else |vs|;
    var sorted := PartialSort(entries, actual);
    assert |sorted| == |multiset(sorted)| == |multiset(entries)| == |vs|;
    var i;
    out, i := CopyFront(sim, vs, query, sorted, actual, entries, keep);
    FrontIsTop(entries, sorted, actual, i, k);
    FinitesOfEntries(ScoresTo(sim, DataOf(vs), query), keep);
  }

  /** Copy the first `actual` sorted entries, stopping at the first bottom one. */
  method CopyFront(sim: Similarity, vs: seq<Vector>, query: Vec, sorted: seq<Entry>, actual: nat,
                   ghost entries: seq<Entry>, ghost keep: seq<bool>)
    returns (out: seq<SearchResult>, i: nat)
    requires |keep| == |vs| && entries == Entries(ScoresTo(sim, DataOf(vs), query), keep)
    requires multiset(sorted) == multiset(entries) && actual <= |sorted|
    ensures i <= actual && (forall j :: 0 <= j < i ==> sorted[j].score.Finite?)
    ensures i < actual ==> sorted[i].score.Bottom?
    ensures ResultScores(out) == Finites(sorted[..i])
    ensures exists slots :: FromSlots(sim, vs, keep, query, slots, out)
  {
    SortedSlotsDistinct(ScoresTo(sim, DataOf(vs), query), keep, sorted);
    out := [];
    ghost var slots: seq<nat> := [];
    i := 0;
    while i < actual
      invariant 0 <= i <= actual && |out| == |slots| == i
      invariant forall j :: 0 <= j < i ==> sorted[j].score.Finite? && slots[j] == sorted[j].slot
      invariant forall j :: 0 <= j < i ==> out[j] == SearchResult(vs[slots[j]].id, sorted[j].score.value, vs[slots[j]].metadata)
    {
      if sorted[i].score.Bottom? { break; }
      var v := vs[sorted[i].slot];
      out := out + [SearchResult(v.id, sorted[i].score.value, v.metadata)];
      slots := slots + [sorted[i].slot];
      i := i + 1;
    }
    AllFinite(sorted[..i]);
    CopiedSlots(sim, vs, query, sorted, i, keep, slots, out);
  }

  lemma CopiedSlots(sim: Similarity, vs: seq<Vector>, query: Vec, sorted: seq<Entry>, i: nat, keep: seq<bool>,
                    slots: seq<nat>, out: seq<SearchResult>)
    requires |keep| == |vs| && |out| == |slots| == i <= |sorted|
    requires forall j :: 0 <= j < |sorted| ==> sorted[j].slot < |vs| && sorted[j] == Entries(ScoresTo(sim, DataOf(vs), query), keep)[sorted[j].slot]
    requires forall j, k :: 0 <= j < k < |sorted| ==> sorted[j].slot != sorted[k].slot
    requires forall j :: 0 <= j < i ==> sorted[j].score.Finite? && slots[j] == sorted[j].slot
    requires forall j :: 0 <= j < i ==> out[j] == SearchResult(vs[slots[j]].id, sorted[j].score.value, vs[slots[j]].metadata)
    ensures FromSlots(sim, vs, keep, query, slots, out)
  {
  }

  class FlatIndex {
    const sim: Similarity
    const dim: nat
    var vectors: seq<Vector>

    constructor (sim: Similarity, dim: nat)
      ensures this.sim == sim && this.dim == dim && vectors == []
    {
      this.sim, this.dim, this.vectors := sim, dim, [];
    }

    method Insert(id: u64, vec: Vec, metadata: Data) returns (r: Result<(), Error>)
      modifies this
      ensures r == if |vec| == dim then Success(()) else Failure(DimensionMismatch)
      ensures forall level: nat :: vectors == FlatStep(dim, old(vectors), OpInsert(id, vec, metadata, level))
    {
      if |vec| != dim { return Failure(DimensionMismatch); }
      vectors := vectors + [Vector(id, metadata, vec, false)];
      return Success(());
    }

    method DeleteVector(id: u64)
      modifies this
      ensures vectors == FlatStep(dim, old(vectors), OpDelete(id))
    {
      for i := 0 to |vectors|
        invariant vectors == old(vectors)
        invariant forall j :: 0 <= j < i ==> vectors[j].id != id
      {
        if vectors[i].id == id {
          FlaggedAt(vectors, id, i);
          vectors := vectors[i := vectors[i].(deleted := true)];
          return;
        }
      }
      FlaggedAt(vectors, id, |vectors|);
    }

    /** Erase the flagged vectors, keeping the order of the others. */
    method Compact()
      modifies this
      ensures vectors == KeepWhere(old(vectors), LiveFlags(old(vectors)))
      ensures forall v :: v in vectors <==> v in old(vectors) && !v.deleted
    {
      var kept: seq<Vector> := [];
      for i := 0 to |vectors|
        invariant vectors == old(vectors)
        invariant kept == KeepWhere(vectors[..i], LiveFlags(vectors)[..i])
      {
        assert vectors[..i + 1][..i] == vectors[..i];
        assert LiveFlags(vectors)[..i + 1][..i] == LiveFlags(vectors)[..i];
        if !vectors[i].deleted { kept := kept + [vectors[i]]; }
      }
      assert vectors[..|vectors|] == vectors && LiveFlags(vectors)[..|vectors|] == LiveFlags(vectors);
      KeptElements(vectors, LiveFlags(vectors));
      vectors := kept;
    }

    /** `search`: the top `k` live vectors. */
    method Search(query: Vec, k: nat) returns (r: Result<seq<SearchResult>, Error>)
      ensures |query| != dim <==> r.Failure?
      ensures r.Success? ==> TopK(sim, vectors, LiveFlags(vectors), query, k, r.value)
      ensures r.Success? ==> TopOf(sim, vectors, (v: Vector) => !v.deleted, query, k, r.value)
    {
      if |query| != dim { return Failure(DimensionMismatch); }
      ghost var keep := LiveFlags(vectors);
      ghost var scores := ScoresTo(sim, DataOf(vectors), query);
      var entries: seq<Entry> := [];
      for i := 0 to |vectors|
        invariant entries == Entries(scores, keep)[..i]
      {
        var score := if !vectors[i].deleted then Finite(sim(query, vectors[i].data)) else Bottom;
        entries := entries + [Entry(score, i)];
      }
      var out := TakeTop(sim, vectors, query, k, entries, keep);
      TopKIff(sim, vectors, (v: Vector) => !v.deleted, keep, query, k, out);
      return Success(out);
    }

    /** `search_filtered`: the top `k` live vectors whose metadata passes the filter. */
    method SearchFiltered(query: Vec, k: nat, filter: Data -> bool) returns (out: seq<SearchResult>)
      ensures TopK(sim, vectors, MatchFlags(vectors, filter), query, k, out)
      ensures TopOf(sim, vectors, (v: Vector) => !v.deleted && filter(v.metadata), query, k, out)
    {
      ghost var keep := MatchFlags(vectors, filter);
      ghost var scores := ScoresTo(sim, DataOf(vectors), query);
      var entries: seq<Entry> := [];
      for i := 0 to |vectors|
        invariant entries == Entries(scores, keep)[..i]
      {
        var score := if !vectors[i].deleted && filter(vectors[i].metadata) then Finite(sim(query, vectors[i].data)) else Bottom;
        entries := entries + [Entry(score, i)];
      }
      out := TakeTop(sim, vectors, query, k, entries, keep);
      TopKIff(sim, vectors, (v: Vector) => !v.deleted && filter(v.metadata), keep, query, k, out);
    }
  }
}
