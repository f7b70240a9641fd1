/** The main results about whole runs of an HNSW index. */
module HnswTheorems {
  import opened Bytes
  import opened Ranking
  import opened Reachability
  import opened BeamSearch
  import opened Selection
  import opened Hnsw
  import opened HnswInvariant
  import opened HnswInsert
  import opened HnswRuns
  import opened HnswSearch
  import opened HnswExact
  import opened Flat

  // ---------- the graph ----------

  /** A sound neighbour list: other nodes of the same layer, each once, at most `M`, or `2M` on layer 0. */
  ghost predicate SoundList(cfg: Config, s: Index, v: nat, layer: nat)
    requires HasLayer(s, v, layer)
  {
    var list := s.graph[v][layer];
    && NoDuplicates(list) && v !in list && |list| <= (if layer == 0 then 2 * cfg.M else cfg.M)
    && forall x :: x in list ==> x < |s.graph| && layer < |s.graph[x]|
  }

  /** In every run: arrays of one length, sound lists, a tallest entry point, no isolated node on layer 0. */
  lemma GraphWellFormed(sim: Similarity, cfg: Config, dim: nat, ops: seq<Op>, s: Index)
    requires cfg.M >= 1 && Run(sim, cfg, dim, ops, s)
    ensures |s.vecs| == |s.ids| == |s.metas| == |s.tomb| == |s.graph|
    ensures forall v: nat, layer: nat :: HasLayer(s, v, layer) ==> SoundList(cfg, s, v, layer)
    ensures s.ids != [] ==> s.entry < |s.graph| && |s.graph[s.entry]| == s.maxLayer + 1
    ensures forall v :: 0 <= v < |s.graph| ==> 1 <= |s.graph[v]| <= s.maxLayer + 1
    ensures |s.ids| >= 2 ==> forall v :: 0 <= v < |s.graph| ==> s.graph[v][0] != []
  {
    RunKeeps(sim, cfg, dim, ops, s);
    forall v: nat, layer: nat | HasLayer(s, v, layer) ensures SoundList(cfg, s, v, layer) {
      assert ListOk(sim, cfg, s, v, layer);
    }
    if |s.ids| >= 2 {
      forall v | 0 <= v < |s.graph| ensures s.graph[v][0] != [] {
        NotIsolated(sim, cfg, s, v, if v == 0 then 1 else 0);
      }
    }
  }

  lemma NotIsolated(sim: Similarity, cfg: Config, s: Index, v: nat, w: nat)
    requires cfg.M >= 1 && Inv(sim, cfg, s) && v < |s.graph| && w < |s.graph| && v != w
    ensures s.graph[v][0] != []
  {
    var adj := OfferedGraph(s, 0);
    assert v in Members(s, 0) && w in Members(s, 0);
    assert Reaches(adj, v, w);
    var p :| PathBetween(adj, p, v, w);
    assert p[1] in adj[p[0]];
    assert HasLayer(s, v, 0) && ListOk(sim, cfg, s, v, 0);
    assert p[1] in s.offered[v][0];
  }

  /**
   Pruning history of every run: each list holds the best of all nodes ever offered to it, exactly as many
   as there are or as fit, `M` or on layer 0 `2M`; offers are mutual, and the offers of a layer connect all of its nodes.
   */
  lemma PruningHistory(sim: Similarity, cfg: Config, dim: nat, ops: seq<Op>, s: Index)
    requires cfg.M >= 1 && Run(sim, cfg, dim, ops, s)
    ensures forall v: nat, layer: nat :: HasLayer(s, v, layer) ==> BestOffered(sim, cfg, s, v, layer)
    ensures forall v: nat, x: nat, layer: nat ::
      HasLayer(s, v, layer) && x in s.offered[v][layer] ==> HasLayer(s, x, layer) && v in s.offered[x][layer]
    ensures forall layer: nat :: Connected(OfferedGraph(s, layer), Members(s, layer))
  {
    RunKeeps(sim, cfg, dim, ops, s);
    forall v: nat, layer: nat | HasLayer(s, v, layer) ensures BestOffered(sim, cfg, s, v, layer) {
      assert ListOk(sim, cfg, s, v, layer);
    }
    forall v: nat, x: nat, layer: nat | HasLayer(s, v, layer) && x in s.offered[v][layer]
      ensures HasLayer(s, x, layer) && v in s.offered[x][layer]
    {
      assert ListOk(sim, cfg, s, v, layer);
      var adj := OfferedGraph(s, layer);
      assert Symmetric(adj) && x in adj[v];
      assert v in adj[x];
    }
  }

  /** The list is the best of what it was offered, and full if that is enough to fill it. */
  ghost predicate BestOffered(sim: Similarity, cfg: Config, s: Index, v: nat, layer: nat)
    requires HasLayer(s, v, layer)
  {
    var list, pool, cap := s.graph[v][layer], s.offered[v][layer], if layer == 0 then 2 * cfg.M else cfg.M;
    && v < |s.vecs| && NoDuplicates(list) && (forall x :: x in pool ==> x < |s.vecs|)
    && (forall x :: x in list ==> x in pool) && |list| == (if |pool| < cap then |pool| else cap)
    && forall x, y :: x in list && y in pool && y !in list ==> sim(s.vecs[v], s.vecs[y]) <= sim(s.vecs[v], s.vecs[x])
  }

  /** The entry point is the first of the tallest nodes. */
  lemma {:induction false} EntryIsFirstTallest(sim: Similarity, cfg: Config, dim: nat, ops: seq<Op>, s: Index)
    requires cfg.M >= 1 && Run(sim, cfg, dim, ops, s)
    ensures s.ids != [] ==> s.entry < |s.graph| && |s.graph[s.entry]| == s.maxLayer + 1
    ensures forall v :: 0 <= v < |s.graph| ==> |s.graph[v]| <= s.maxLayer + 1 && (v < s.entry ==> |s.graph[v]| <= s.maxLayer)
  {
    RunKeeps(sim, cfg, dim, ops, s);
    if ops != [] {
      hide Run, Step, ListsOk, LayersConnected;
      var before := RunBefore(sim, cfg, dim, ops, s);
      EntryIsFirstTallest(sim, cfg, dim, ops[..|ops| - 1], before);
      RunKeeps(sim, cfg, dim, ops[..|ops| - 1], before);
      EntryStep(sim, cfg, before, ops[|ops| - 1], s);
    }
  }

  lemma RunBefore(sim: Similarity, cfg: Config, dim: nat, ops: seq<Op>, s: Index) returns (before: Index)
    requires ops != [] && Run(sim, cfg, dim, ops, s)
    ensures Run(sim, cfg, dim, ops[..|ops| - 1], before) && Step(sim, cfg, before, ops[|ops| - 1], s)
  {
    hide Step;
    before :| Run(sim, cfg, dim, ops[..|ops| - 1], before) && Step(sim, cfg, before, ops[|ops| - 1], s);
  }

  ghost predicate FirstTallest(s: Index) {
    forall v :: 0 <= v < |s.graph| && v < s.entry ==> |s.graph[v]| <= s.maxLayer
  }

  lemma EntryStep(sim: Similarity, cfg: Config, s: Index, op: Op, t: Index)
    requires cfg.M >= 1 && Inv(sim, cfg, s) && FirstTallest(s) && Step(sim, cfg, s, op, t)
    ensures FirstTallest(t)
  {
    if op.OpInsert? && |op.vec| == s.dim {
      InsertKeeps(sim, cfg, s, op.id, op.vec, op.meta, op.level, t);
      if s.ids != [] { CrownedEntry(sim, cfg, s, op.id, op.vec, op.meta, op.level, t); }
    }
  }

  /** The entry point changes only to a newcomer that is strictly taller than every other node. */
  lemma CrownedEntry(sim: Similarity, cfg: Config, s: Index, id: u64, vec: Vec, meta: Data, level: nat, t: Index)
    requires cfg.M >= 1 && Inv(sim, cfg, s) && s.ids != [] && |vec| == s.dim && Insert(sim, cfg, s, id, vec, meta, level, t)
    ensures if level > s.maxLayer then t.entry == |s.ids| && t.maxLayer == level else t.entry == s.entry && t.maxLayer == s.maxLayer
  {
    hide Descend, LinkLayers, Halfway, ListsOk, LayersConnected;
    var ep, linked, last := InsertParts(sim, cfg, s, id, vec, meta, level, t);
    LinkedKeeps(sim, cfg, s, id, vec, meta, level, ep, linked, last);
  }

  /** No operation changes an existing slot's vector, id, metadata or number of layers, or clears a tombstone. */
  lemma StepKeepsSlots(sim: Similarity, cfg: Config, s: Index, op: Op, t: Index)
    requires cfg.M >= 1 && Inv(sim, cfg, s) && Step(sim, cfg, s, op, t)
    ensures s.vecs <= t.vecs && s.ids <= t.ids && s.metas <= t.metas && |s.graph| <= |t.graph|
    ensures forall v :: 0 <= v < |s.graph| ==> |t.graph[v]| == |s.graph[v]|
    ensures forall v :: 0 <= v < |s.tomb| ==> v < |t.tomb| && (s.tomb[v] ==> t.tomb[v])
    ensures |t.ids| <= |s.ids| + 1 && s.maxLayer <= t.maxLayer
  {
    match op
    case OpInsert(id, vec, meta, level) =>
      if |vec| == s.dim {
        InsertKeeps(sim, cfg, s, id, vec, meta, level, t);
        if s.ids != [] { assert |t.graph[s.entry]| == |s.graph[s.entry]|; }
      }
    case OpDelete(id) =>
  }

  // ---------- agreement with the flat index ----------

  /** Slot by slot the same id, metadata, vector and deletion flag. */
  ghost predicate SameSlotsAs(s: Index, vs: seq<Vector>) {
    && |vs| == |s.ids| == |s.metas| == |s.vecs| == |s.tomb|
    && forall i :: 0 <= i < |vs| ==> vs[i] == Vector(s.ids[i], s.metas[i], s.vecs[i], s.tomb[i])
  }

  lemma DeleteAgrees(s: Index, vs: seq<Vector>, id: u64)
    requires SameSlotsAs(s, vs)
    ensures SameSlotsAs(Delete(s, id), Flagged(vs, id))
  {
    var i := FirstSlot(s.ids, id);
    forall j | 0 <= j < i ensures vs[j].id != id { assert s.ids[j] != id; }
    FlaggedAt(vs, id, i);
  }

  lemma StepAgrees(sim: Similarity, cfg: Config, s: Index, vs: seq<Vector>, op: Op, t: Index)
    requires cfg.M >= 1 && Inv(sim, cfg, s) && Step(sim, cfg, s, op, t) && SameSlotsAs(s, vs)
    ensures SameSlotsAs(t, FlatStep(s.dim, vs, op))
  {
    hide Inv, Insert;
    match op
    case OpInsert(id, vec, meta, level) =>
      if |vec| == s.dim { InsertKeeps(sim, cfg, s, id, vec, meta, level, t); }
    case OpDelete(id) => DeleteAgrees(s, vs, id);
  }

  /** After the same operations both indexes hold the same slots. */
  lemma {:induction false} RunsAgree(sim: Similarity, cfg: Config, dim: nat, ops: seq<Op>, s: Index)
    requires cfg.M >= 1 && Run(sim, cfg, dim, ops, s)
    ensures SameSlotsAs(s, FlatRun(dim, ops))
  {
    if ops != [] {
      hide Inv, Step, SameSlotsAs, FlatStep;
      var last := |ops| - 1;
      var before :| Run(sim, cfg, dim, ops[..last], before) && Step(sim, cfg, before, ops[last], s);
      RunsAgree(sim, cfg, dim, ops[..last], before);
      RunKeeps(sim, cfg, dim, ops[..last], before);
      StepAgrees(sim, cfg, before, FlatRun(dim, ops[..last]), ops[last], s);
    }
  }

  lemma SameRanking(sim: Similarity, s: Index, vs: seq<Vector>, query: Vec)
    requires SameSlotsAs(s, vs)
    ensures LiveRanking(sim, s, query) == KeptRanking(sim, vs, LiveFlags(vs), query)
  {
    assert DataOf(vs) == s.vecs;
    assert LiveFlags(vs) == Negated(s.tomb);
  }

  lemma RankingEmpty(sim: Similarity, s: Index, query: Vec)
    requires |s.vecs| == |s.tomb|
    ensures LiveRanking(sim, s, query) == [] <==> forall i :: 0 <= i < |s.tomb| ==> s.tomb[i]
  {
    hide Ranked, KeepWhere, KeptSlots;
    RankingSize(sim, s, query, Negated(s.tomb));
    NothingKeptIff(s.tomb);
  }

  lemma NothingKeptIff(tomb: seq<bool>)
    ensures |KeptSlots(Negated(tomb))| == 0 <==> forall i :: 0 <= i < |tomb| ==> tomb[i]
  {
    hide KeptSlots;
    NoneKeptIff(Negated(tomb));
    forall i | 0 <= i < |tomb| ensures Negated(tomb)[i] == !tomb[i] {}
  }

  lemma FlatScores(sim: Similarity, cfg: Config, dim: nat, ops: seq<Op>, s: Index, query: Vec, k: nat, flat: seq<SearchResult>)
    requires cfg.M >= 1 && Run(sim, cfg, dim, ops, s)
    requires TopK(sim, FlatRun(dim, ops), LiveFlags(FlatRun(dim, ops)), query, k, flat)
    ensures |s.vecs| == |s.tomb| && ResultScores(flat) == TakeUpTo(LiveRanking(sim, s, query), k)
  {
    RunsAgree(sim, cfg, dim, ops, s);
    SameRanking(sim, s, FlatRun(dim, ops), query);
  }

  /** For every `k >= 1`, both indexes give the same score sequence. */
  ghost predicate AlwaysMatchesFlat(sim: Similarity, ef: int, s: Index, vs: seq<Vector>, query: Vec) {
    forall k: nat, out, flat ::
      k >= 1 && Search(sim, ef, s, query, k, out) && TopK(sim, vs, LiveFlags(vs), query, k, flat) ==>
        ScoresOfAnswers(out) == ResultScores(flat)
  }

  /**
   When HNSW is as good as a full scan: after the same operations, with a beam as wide as what it can
   reach, HNSW and flat search give the same scores for every `k >= 1` if and only if layer 0 connects
   every live slot to the node the search lands on.  Pruning, deletions and entry point do not matter otherwise.
   */
  lemma MatchesFlatIffReached(sim: Similarity, cfg: Config, dim: nat, ops: seq<Op>, s: Index, ef: int, query: Vec)
    requires cfg.M >= 1 && Run(sim, cfg, dim, ops, s) && Wide(sim, ef, s, query)
    ensures AlwaysMatchesFlat(sim, ef, s, FlatRun(dim, ops), query) <==> AllLiveReached(sim, s, query)
  {
    var vs := FlatRun(dim, ops);
    RunKeeps(sim, cfg, dim, ops, s);
    RunsAgree(sim, cfg, dim, ops, s);
    ExactIffReached(sim, cfg, ef, s, query);
    hide Run, FlatRun, Search, TopK, Inv, Wide;
    forall k: nat, out, flat
      | k >= 1 && Search(sim, ef, s, query, k, out) && TopK(sim, vs, LiveFlags(vs), query, k, flat) && AllLiveReached(sim, s, query)
      ensures ScoresOfAnswers(out) == ResultScores(flat)
    {
      FlatScores(sim, cfg, dim, ops, s, query, k, flat);
    }
    if AlwaysMatchesFlat(sim, ef, s, vs, query) {
      var k := |s.tomb| + 1;
      var out := SearchExists(sim, cfg, ef, s, query, k);
      var flat := TopKExists(sim, vs, LiveFlags(vs), query, k);
      FlatScores(sim, cfg, dim, ops, s, query, k, flat);
      ExactOnlyWhereReached(sim, cfg, ef, s, query, k, out);
    }
  }

  /** For `k = 0` flat search answers nothing; HNSW also answers nothing if and only if it reaches nothing live. */
  lemma ZeroMatchesFlatIff(sim: Similarity, cfg: Config, dim: nat, ops: seq<Op>, s: Index, ef: int,
                           query: Vec, out: seq<Answer>, flat: seq<SearchResult>)
    requires cfg.M >= 1 && Run(sim, cfg, dim, ops, s) && Wide(sim, ef, s, query) && Search(sim, ef, s, query, 0, out)
    requires TopK(sim, FlatRun(dim, ops), LiveFlags(FlatRun(dim, ops)), query, 0, flat)
    ensures flat == []
    ensures ScoresOfAnswers(out) == ResultScores(flat) <==> forall v :: v in Reached(sim, s, query) && v < |s.tomb| ==> s.tomb[v]
  {
    hide Search, TopK, Inv, Wide, Reached, Ranked, FlatRun, Run;
    RunKeeps(sim, cfg, dim, ops, s);
    FlatScores(sim, cfg, dim, ops, s, query, 0, flat);
    NothingAnsweredIff(sim, cfg, ef, s, query, 0, out);
    assert |ResultScores(flat)| == |flat| == 0 && |ScoresOfAnswers(out)| == |out|;
  }

  /**
   While nothing was pruned every slot is reached, so the scores agree exactly when `k >= 1` or no vector
   is live.  (For `k = 0` the HNSW loop returns every live candidate.)
   */
  lemma MatchesFlatUntilPruned(sim: Similarity, cfg: Config, dim: nat, ops: seq<Op>, s: Index, ef: int,
                               query: Vec, k: nat, out: seq<Answer>, flat: seq<SearchResult>)
    requires cfg.M >= 1 && Run(sim, cfg, dim, ops, s)
    requires Shape(s) && NothingPruned(s) && ef >= |s.ids|
    requires Search(sim, ef, s, query, k, out)
    requires TopK(sim, FlatRun(dim, ops), LiveFlags(FlatRun(dim, ops)), query, k, flat)
    ensures ScoresOfAnswers(out) == ResultScores(flat) <==> k >= 1 || forall i :: 0 <= i < |s.tomb| ==> s.tomb[i]
  {
    RunKeeps(sim, cfg, dim, ops, s);
    ExactUntilPruned(sim, cfg, ef, s, query, k, out);
    FlatScores(sim, cfg, dim, ops, s, query, k, flat);
    RankingEmpty(sim, s, query);
  }

  /** Every run that leaves at most `2M + 1` slots is in that regime. */
  lemma SmallRunsMatchFlat(sim: Similarity, cfg: Config, dim: nat, ops: seq<Op>, s: Index, ef: int,
                           query: Vec, k: nat, out: seq<Answer>, flat: seq<SearchResult>)
    requires cfg.M >= 1 && Run(sim, cfg, dim, ops, s) && |s.ids| <= 2 * cfg.M + 1 && ef >= |s.ids|
    requires Search(sim, ef, s, query, k, out)
    requires TopK(sim, FlatRun(dim, ops), LiveFlags(FlatRun(dim, ops)), query, k, flat)
    ensures ScoresOfAnswers(out) == ResultScores(flat) <==> k >= 1 || forall i :: 0 <= i < |s.tomb| ==> s.tomb[i]
    ensures Symmetric(LayerLinks(s.graph, 0)) && Connected(LayerLinks(s.graph, 0), AllNodes(s))
  {
    hide Run, Search, TopK, Inv;
    RunKeeps(sim, cfg, dim, ops, s);
    SmallIndexUnpruned(sim, cfg, s);
    MatchesFlatUntilPruned(sim, cfg, dim, ops, s, ef, query, k, out, flat);
    UnprunedLayerConnected(sim, cfg, s);
  }

  lemma UnprunedLayerConnected(sim: Similarity, cfg: Config, s: Index)
    requires Inv(sim, cfg, s) && NothingPruned(s)
    ensures Symmetric(LayerLinks(s.graph, 0)) && Connected(LayerLinks(s.graph, 0), AllNodes(s))
  {
    LinksAreOffered(s);
    assert AllNodes(s) == Members(s, 0);
  }
}
