/** What saving, loading and compacting mean for a well-formed index. */
module HnswStorage {
  import opened Bytes
  import opened Ranking
  import opened BeamSearch
  import opened Selection
  import opened Codec
  import opened IndexFile
  import opened Hnsw
  import opened HnswInvariant
  import opened HnswSearch
  import opened HnswExact
  import opened HnswIndex

  /** The widths a caller can see; everything inside the graph then fits its field too. */
  ghost predicate WidthsFit(s: Index) {
    && s.dim < 0x1_0000_0000 && s.maxLayer < 0xFFFF_FFFF && |s.ids| < 0x1_0000_0000
    && forall i :: 0 <= i < |s.metas| ==> |s.metas[i]| < 0x1_0000_0000
  }

  lemma WidthsSuffice(sim: Similarity, cfg: Config, s: Index)
    requires Inv(sim, cfg, s) && WidthsFit(s)
    ensures FieldsFit(s)
  {
    forall v | 0 <= v < |s.graph| ensures NodeFits(s.graph[v]) {
      forall layer | 0 <= layer < |s.graph[v]| ensures ListFits(s.graph[v][layer]) {
        assert HasLayer(s, v, layer) && ListOk(sim, cfg, s, v, layer);
        ShortList(s.graph[v][layer], s.offered[v][layer], |s.ids|);
      }
    }
  }

  lemma ShortList(list: seq<nat>, pool: set<nat>, n: nat)
    requires NoDuplicates(list) && (forall x :: x in list ==> x in pool) && (forall x :: x in pool ==> x < n)
    requires n < 0x1_0000_0000
    ensures ListFits(list)
  {
    DistinctCount(list, SetOf(list));
    SubsetCount(SetOf(list), Below(n));
    forall i | 0 <= i < |list| ensures list[i] < 0x1_0000_0000 { assert list[i] in list; }
  }

  /** `load` after `save` restores a well-formed index entirely and consumes exactly the file. */
  lemma SaveLoadRoundTrip(sim: Similarity, cfg: Config, s: Index, before: Index, file: Data, rest: Data)
    requires Inv(sim, cfg, s) && WidthsFit(s) && Saved(s, file)
    ensures Decode(file + rest).Success?
    ensures
      var r := Decode(file + rest).value;
      FitsCounts(r.0, r.1) && r.2 == rest && Loaded(before, r.0, r.1, s.offered) == s
  {
    WidthsSuffice(sim, cfg, s);
    LoadUndoesSave(s, before, file, rest);
  }

  /** Loading the file gives back `s`. */
  ghost predicate Restores(s: Index, before: Index, file: Data) {
    && Decode(file).Success?
    && var r := Decode(file).value;
       FitsCounts(r.0, r.1) && Loaded(before, r.0, r.1, s.offered) == s
  }

  /** Save and load restore a well-formed index if and only if its sizes fit their fields; `save` does not check. */
  lemma RestoresIffWidthsFit(sim: Similarity, cfg: Config, s: Index, before: Index, file: Data)
    requires Inv(sim, cfg, s) && Saved(s, file) && |s.ids| < 0x1_0000_0000
    ensures Restores(s, before, file) <==> WidthsFit(s)
  {
    hide Decode, Saved;
    if WidthsFit(s) {
      SaveLoadRoundTrip(sim, cfg, s, before, file, []);
      assert file + [] == file;
    }
    if Restores(s, before, file) {
      DecodedFits(file);
      if s.graph != [] { assert NodeFits(s.graph[s.entry]); }
    }
  }

  // ---------- compaction ----------

  /** Rebuilding from the survivors changes no ranking of live vectors. */
  lemma SurvivorsRankAlike(sim: Similarity, s: Index, t: Index, query: Vec)
    requires Survivors(s, |s.ids|, t)
    ensures |t.vecs| == |t.tomb| && LiveRanking(sim, t, query) == LiveRanking(sim, s, query)
  {
    var live := Negated(s.tomb);
    assert live[..|s.ids|] == live && s.vecs[..|s.ids|] == s.vecs && s.ids[..|s.ids|] == s.ids;
    KeptVectorScores(sim, s.vecs, live, query);
    SameCount(s.vecs, s.ids, live);
    AllKept(ScoresTo(sim, t.vecs, query), Negated(t.tomb));
  }

  lemma {:induction false} SameCount<A, B>(xs: seq<A>, ys: seq<B>, keep: seq<bool>)
    requires |xs| == |ys| == |keep|
    ensures |KeepWhere(xs, keep)| == |KeepWhere(ys, keep)|
  {
    if keep != [] { SameCount(xs[..|keep| - 1], ys[..|keep| - 1], keep[..|keep| - 1]); }
  }

  /** What survives compaction fits if the original and the drawn layers do. */
  lemma SurvivorWidths(sim: Similarity, cfg: Config, s: Index, t: Index, draw: nat -> nat)
    requires WidthsFit(s) && Inv(sim, cfg, t) && Survivors(s, |s.ids|, t) && Drawn(t, draw, |s.ids|)
    requires forall i: nat :: draw(i) < 0xFFFF_FFFF
    ensures WidthsFit(t)
  {
    SurvivorCount(s, t);
    if t.graph != [] {
      assert DrawnHeight(|t.graph[t.entry]|, draw, |s.ids|);
    }
    KeptAmong(s.metas[..|s.ids|], Negated(s.tomb)[..|s.ids|]);
    forall i | 0 <= i < |t.metas| ensures |t.metas[i]| < 0x1_0000_0000 {
      assert t.metas[i] in t.metas;
    }
  }

  lemma {:induction false} KeptAmong<T>(xs: seq<T>, keep: seq<bool>)
    requires |xs| == |keep|
    ensures forall x :: x in KeepWhere(xs, keep) ==> x in xs
  {
    if keep != [] {
      var last := |keep| - 1;
      KeptAmong(xs[..last], keep[..last]);
      forall x | x in xs[..last] ensures x in xs {}
    }
  }

  /** `t` has exactly the live slots of `s`, in order, and no tombstone. */
  ghost predicate OnlyLive(s: Index, t: Index) {
    && |s.vecs| == |s.ids| == |s.metas| == |s.tomb|
    && var live := Negated(s.tomb);
       && t.ids == KeepWhere(s.ids, live) && t.vecs == KeepWhere(s.vecs, live) && t.metas == KeepWhere(s.metas, live)
       && forall i :: 0 <= i < |t.tomb| ==> !t.tomb[i]
  }

  ghost predicate SameLiveRanking(sim: Similarity, s: Index, t: Index, query: Vec) {
    |s.vecs| == |s.tomb| && |t.vecs| == |t.tomb| && LiveRanking(sim, t, query) == LiveRanking(sim, s, query)
  }

  /**
   Loading the file `compact` wrote yields a well-formed index of exactly the live ids, vectors and
   metadata in their original order, with no tombstone and the same live ranking for every query.
   */
  lemma CompactedFileLoads(sim: Similarity, cfg: Config, s: Index, rebuilt: Index, file: Data, before: Index, query: Vec)
    requires |s.vecs| == |s.ids| == |s.metas| == |s.tomb|
    requires Saved(rebuilt, file) && Inv(sim, cfg, rebuilt) && WidthsFit(rebuilt) && Survivors(s, |s.ids|, rebuilt)
    ensures Decode(file).Success? && FitsCounts(Decode(file).value.0, Decode(file).value.1)
    ensures
      var t := Loaded(before, Decode(file).value.0, Decode(file).value.1, rebuilt.offered);
      Inv(sim, cfg, t) && OnlyLive(s, t) && SameLiveRanking(sim, s, t, query)
  {
    hide Inv, Saved, Decode, Loaded, LiveRanking, Survivors;
    SaveLoadRoundTrip(sim, cfg, rebuilt, before, file, []);
    assert file + [] == file;
    AllSurvivors(s, rebuilt);
    SurvivorsRankAlike(sim, s, rebuilt, query);
  }

  lemma AllSurvivors(s: Index, t: Index)
    requires Survivors(s, |s.ids|, t)
    ensures
      var live := Negated(s.tomb);
      && t.ids == KeepWhere(s.ids, live) && t.vecs == KeepWhere(s.vecs, live) && t.metas == KeepWhere(s.metas, live)
      && forall i :: 0 <= i < |t.tomb| ==> !t.tomb[i]
  {
    var live := Negated(s.tomb);
    assert live[..|s.ids|] == live && s.vecs[..|s.ids|] == s.vecs && s.ids[..|s.ids|] == s.ids && s.metas[..|s.ids|] == s.metas;
  }
}
