/** The two indexes side by side, as their users run them, and what happens to an id inserted twice. */
module Client {
  import opened Bytes
  import opened Ranking
  import opened BeamSearch
  import opened Hnsw
  import opened HnswInvariant
  import opened HnswRuns
  import opened HnswSearch
  import opened HnswExact
  import opened HnswIndex
  import opened HnswTheorems
  import opened HnswDeletion
  import opened HnswLost
  import opened LostCosine
  import opened Floats
  import opened Flat
  import opened Selection
  import opened IndexFile
  import opened HnswStorage
  import F = FlatIndex
  import VB = VisitedBuffer
  import P = InnerProduct
  import Wal

  /** Both indexes stand after the same operations. */
  ghost predicate After(hnsw: HNSWIndex, flat: F.FlatIndex, dim: nat, ops: seq<Op>)
    reads hnsw, hnsw.visited, hnsw.visited.buf, flat
  {
    && hnsw.Valid() && hnsw.sim == flat.sim && hnsw.dim == flat.dim == dim
    && Run(hnsw.sim, hnsw.cfg, dim, ops, hnsw.State())
    && flat.vectors == FlatRun(dim, ops)
  }

  /** One more step on both sides. */
  lemma OneMoreOp(sim: Similarity, cfg: Config, dim: nat, ops: seq<Op>, s: Index, op: Op, t: Index)
    requires cfg.M >= 1 && Run(sim, cfg, dim, ops, s) && Step(sim, cfg, s, op, t)
    ensures Run(sim, cfg, dim, ops + [op], t) && t.dim == s.dim
    ensures FlatRun(dim, ops + [op]) == FlatStep(dim, FlatRun(dim, ops), op)
  {
    assert (ops + [op])[..|ops|] == ops;
    RunKeeps(sim, cfg, dim, ops, s);
    if op.OpInsert? && |op.vec| == s.dim {
      InsertKeeps(sim, cfg, s, op.id, op.vec, op.meta, op.level, t);
    }
  }

  /** Apply one operation to both indexes. */
  method ApplyToBoth(hnsw: HNSWIndex, flat: F.FlatIndex, op: Op, ghost dim: nat, ghost ops: seq<Op>)
    requires After(hnsw, flat, dim, ops)
    modifies hnsw, hnsw.visited, hnsw.visited.buf, flat
    ensures After(hnsw, flat, dim, ops + [op]) && hnsw.cfg == old(hnsw.cfg)
    ensures hnsw.visited.buf == old(hnsw.visited.buf) || fresh(hnsw.visited.buf)
  {
    hide Inv, Step, OneMore, Run, FlatRun, FlatStep;
    ghost var s := hnsw.State();
    ApplyToHnsw(hnsw, op);
    ApplyToFlat(flat, op);
    OneMoreOp(hnsw.sim, hnsw.cfg, dim, ops, s, op, hnsw.State());
  }

  method ApplyToHnsw(hnsw: HNSWIndex, op: Op)
    requires hnsw.Valid()
    modifies hnsw, hnsw.visited, hnsw.visited.buf
    ensures hnsw.Valid() && hnsw.cfg == old(hnsw.cfg)
    ensures Step(hnsw.sim, hnsw.cfg, old(hnsw.State()), op, hnsw.State())
    ensures hnsw.visited.buf == old(hnsw.visited.buf) || fresh(hnsw.visited.buf)
  {
    hide Inv, Step, OneMore;
    match op {
      case OpInsert(id, vec, meta, level) => var _ := hnsw.Insert(id, vec, meta, level);
      case OpDelete(id) => hnsw.DeleteVector(id);
    }
  }

  method ApplyToFlat(flat: F.FlatIndex, op: Op)
    modifies flat
    ensures flat.vectors == FlatStep(flat.dim, old(flat.vectors), op)
  {
    match op {
      case OpInsert(id, vec, meta, level) => var _ := flat.Insert(id, vec, meta);
      case OpDelete(id) => flat.DeleteVector(id);
    }
  }

  /** Replay a whole history on two new indexes. */
  method Replay(hnsw: HNSWIndex, flat: F.FlatIndex, ops: seq<Op>)
    requires hnsw.Valid() && hnsw.State() == Empty(flat.dim) && flat.vectors == [] && hnsw.sim == flat.sim
    modifies hnsw, hnsw.visited, hnsw.visited.buf, flat
    ensures After(hnsw, flat, flat.dim, ops) && hnsw.cfg == old(hnsw.cfg)
    ensures hnsw.visited.buf == old(hnsw.visited.buf) || fresh(hnsw.visited.buf)
  {
    assert After(hnsw, flat, flat.dim, ops[..0]);
    hide Inv, Run, FlatRun;
    for i := 0 to |ops|
      invariant After(hnsw, flat, flat.dim, ops[..i]) && hnsw.cfg == old(hnsw.cfg)
      invariant hnsw.visited.buf == old(hnsw.visited.buf) || fresh(hnsw.visited.buf)
    {
      ApplyToBoth(hnsw, flat, ops[i], flat.dim, ops[..i]);
      assert ops[..i + 1] == ops[..i] + [ops[i]];
    }
    assert ops[..|ops|] == ops;
  }

  /** New indexes, driven through the operations. */
  method BothAfter(sim: Similarity, dim: nat, cfg: Config, ops: seq<Op>) returns (hnsw: HNSWIndex, flat: F.FlatIndex)
    requires cfg.M >= 1
    ensures fresh(hnsw) && fresh(hnsw.visited) && fresh(hnsw.visited.buf) && fresh(flat)
    ensures After(hnsw, flat, dim, ops) && hnsw.cfg == cfg && hnsw.sim == sim
  {
    hide Inv, Run, FlatRun;
    var visited := new VB.VisitedBuffer();
    hnsw := new HNSWIndex(sim, dim, cfg, visited);
    flat := new F.FlatIndex(sim, dim);
    assert hnsw.State() == Empty(dim);
    Replay(hnsw, flat, ops);
  }

  /** Up to `2M + 1` slots and with a wide enough beam, both indexes answer with the same scores. */
  method SearchBoth(hnsw: HNSWIndex, flat: F.FlatIndex, query: Vec, k: nat, ghost ops: seq<Op>)
    returns (answers: seq<Answer>, exact: seq<SearchResult>)
    requires After(hnsw, flat, flat.dim, ops) && |query| == flat.dim && k >= 1
    requires |hnsw.ids| <= 2 * hnsw.cfg.M + 1 && hnsw.cfg.efSearch >= |hnsw.ids|
    modifies hnsw.visited, hnsw.visited.buf
    ensures ScoresOfAnswers(answers) == ResultScores(exact)
  {
    hide Inv, Run, Search, TopK;
    var a := hnsw.Search(query, k);
    var b := flat.Search(query, k);
    answers, exact := a.value, b.value;
    SmallRunsMatchFlat(hnsw.sim, hnsw.cfg, flat.dim, ops, hnsw.State(), hnsw.cfg.efSearch, query, k, answers, exact);
  }

  // ---------- storage ----------

  /** Saving one index and loading the file into another makes the other equal to the first. */
  method SaveThenLoad(hnsw: HNSWIndex, other: HNSWIndex)
    requires hnsw.Valid() && other != hnsw && WidthsFit(hnsw.State())
    modifies other
    ensures other.State() == hnsw.State() && hnsw.State() == old(hnsw.State())
  {
    hide Inv, Decode, Saved, Loaded;
    var file := hnsw.Save();
    SaveLoadRoundTrip(hnsw.sim, hnsw.cfg, hnsw.State(), other.State(), file, []);
    assert file + [] == file;
    var r := other.Load(file, hnsw.offered);
  }

  /** `file` holds a fresh index `rebuilt` of the live slots of `s`, with layers from `draw`. */
  ghost predicate CompactFile(sim: Similarity, cfg: Config, s: Index, draw: nat -> nat, rebuilt: Index, file: Data) {
    && |s.vecs| == |s.ids| == |s.metas| == |s.tomb|
    && Saved(rebuilt, file) && Inv(sim, cfg, rebuilt)
    && Survivors(s, |s.ids|, rebuilt) && Drawn(rebuilt, draw, |s.ids|)
  }

  method WriteCompacted(hnsw: HNSWIndex, draw: nat -> nat, wal: Wal.WAL) returns (file: Data, ghost rebuilt: Index)
    requires hnsw.Valid() && |hnsw.ids| < 0x1_0000_0000
    modifies hnsw.visited, hnsw.visited.buf, wal
    ensures hnsw.State() == old(hnsw.State()) && wal.log == []
    ensures CompactFile(hnsw.sim, hnsw.cfg, hnsw.State(), draw, rebuilt, file)
  {
    assert |hnsw.vecs| == |hnsw.ids| == |hnsw.metas| == |hnsw.tomb|;
    hide Inv, Saved, Survivors, Drawn;
    file, rebuilt := hnsw.Compact(draw, wal);
  }

  /** `t` is a well-formed index of the live slots of `s`, in order, and ranks them as `s` does. */
  ghost predicate Compacted(sim: Similarity, cfg: Config, s: Index, t: Index, query: Vec) {
    Inv(sim, cfg, t) && OnlyLive(s, t) && SameLiveRanking(sim, s, t, query)
  }

  method LoadCompacted(ghost sim: Similarity, ghost cfg: Config, ghost s: Index, ghost draw: nat -> nat, ghost rebuilt: Index,
                       file: Data, other: HNSWIndex, ghost query: Vec)
    requires CompactFile(sim, cfg, s, draw, rebuilt, file) && WidthsFit(s) && forall i: nat :: draw(i) < 0xFFFF_FFFF
    modifies other
    ensures Compacted(sim, cfg, s, other.State(), query)
  {
    hide Inv, Decode, Saved, Loaded, Survivors, OnlyLive, SameLiveRanking, Drawn, WidthsFit;
    SurvivorWidths(sim, cfg, s, rebuilt, draw);
    CompactedFileLoads(sim, cfg, s, rebuilt, file, other.State(), query);
    var r := other.Load(file, rebuilt.offered);
  }

  /**
   Where the sizes of an index and the drawn layers fit 32-bit fields: after compaction, the loaded file is
   an index of exactly the live slots, which ranks them as before.
   */
  method CompactThenLoad(hnsw: HNSWIndex, other: HNSWIndex, draw: nat -> nat, wal: Wal.WAL, ghost query: Vec)
    requires hnsw.Valid() && other != hnsw && WidthsFit(hnsw.State()) && forall i: nat :: draw(i) < 0xFFFF_FFFF
    modifies hnsw.visited, hnsw.visited.buf, wal, other
    ensures hnsw.State() == old(hnsw.State()) && wal.log == []
    ensures Compacted(hnsw.sim, hnsw.cfg, hnsw.State(), other.State(), query)
  {
    hide Inv, CompactFile, Compacted;
    var file;
    ghost var rebuilt;
    file, rebuilt := WriteCompacted(hnsw, draw, wal);
    LoadCompacted(hnsw.sim, hnsw.cfg, hnsw.State(), draw, rebuilt, file, other, query);
  }

  /** Append a list of entries to a log. */
  method AppendAll(wal: Wal.WAL, es: seq<Wal.Entry>)
    modifies wal
    ensures wal.log == old(wal.log) + Wal.LogOf(es)
  {
    hide Wal.Encode;
    for i := 0 to |es|
      invariant wal.log == old(wal.log) + Wal.LogOf(es[..i])
    {
      Wal.LogOfAppend(es[..i], es[i]);
      assert es[..i + 1] == es[..i] + [es[i]];
      Wal.Assoc(old(wal.log), Wal.LogOf(es[..i]), Wal.Encode(es[i]));
      match es[i] {
        case Inserted(id, vec, metadata) => wal.AppendInsert(id, vec, metadata);
        case Deleted(id) => wal.AppendDelete(id);
      }
    }
    assert es[..|es|] == es;
  }

  /**
   Log entries, lose the tail of the log, and replay what is left into two new indexes: both stand where the
   completely logged operations leave them.
   */
  method LogThenRecover(es: seq<Wal.Entry>, torn: nat, hnsw: HNSWIndex, flat: F.FlatIndex, draw: nat -> nat)
    returns (events: seq<Wal.Event>)
    requires Wal.AllFit(es) && torn <= |Wal.LogOf(es)|
    requires hnsw.Valid() && hnsw.State() == Empty(flat.dim) && flat.vectors == [] && hnsw.sim == flat.sim
    modifies hnsw, hnsw.visited, hnsw.visited.buf, flat
    ensures After(hnsw, flat, flat.dim, Wal.EntryOps(es[..Wal.WholeRecords(es, torn)], draw))
    ensures Wal.Recover(flat.dim, events) == flat.vectors
  {
    hide Wal.LogOf, Wal.Replayed, Wal.Recover, Run, FlatRun, Wal.WholeRecords, Inv, Wal.EventOps, Wal.EntryOps;
    var wal := new Wal.WAL([]);
    AppendAll(wal, es);
    assert wal.log == Wal.LogOf(es);
    var damaged := new Wal.WAL(wal.log[..torn]);
    events := damaged.Replay(true);
    Replay(hnsw, flat, Wal.EventOps(events, draw));
    Wal.ReplayRepeatsOps(es, torn, draw);
    Wal.RecoveryReplaysPrefix(flat.dim, es, torn, draw);
  }

  // ---------- the flat index ----------

  /** Compaction between two searches does not change the scores. */
  method SearchAroundCompaction(flat: F.FlatIndex, query: Vec, k: nat) returns (before: seq<SearchResult>,
                                after: seq<SearchResult>)
    requires |query| == flat.dim
    modifies flat
    ensures ResultScores(after) == ResultScores(before)
  {
    hide TopK;
    var a := flat.Search(query, k);
    ghost var vs := flat.vectors;
    flat.Compact();
    var b := flat.Search(query, k);
    before, after := a.value, b.value;
    F.CompactKeepsSearches(flat.sim, vs, query, k, before, after);
  }

  /** A filtered search scores like a plain search on an index of only the matching live vectors. */
  method FilteredAgainstRebuilt(flat: F.FlatIndex, filter: Data -> bool, query: Vec, k: nat)
    returns (filtered: seq<SearchResult>, plain: seq<SearchResult>)
    requires |query| == flat.dim && forall i :: 0 <= i < |flat.vectors| ==> |flat.vectors[i].data| == flat.dim
    ensures ResultScores(filtered) == ResultScores(plain)
  {
    hide TopK;
    ghost var keep := MatchFlags(flat.vectors, filter);
    var rebuilt := new F.FlatIndex(flat.sim, flat.dim);
    for i := 0 to |flat.vectors|
      invariant fresh(rebuilt) && rebuilt.vectors == KeepWhere(flat.vectors[..i], keep[..i])
    {
      var v := flat.vectors[i];
      KeepNext(flat.vectors, keep, i);
      if !v.deleted && filter(v.metadata) {
        var r := rebuilt.Insert(v.id, v.data, v.metadata);
        assert rebuilt.vectors == FlatStep(flat.dim, KeepWhere(flat.vectors[..i], keep[..i]), OpInsert(v.id, v.data, v.metadata, 0));
      }
    }
    assert flat.vectors[..|flat.vectors|] == flat.vectors && keep[..|keep|] == keep;
    filtered := flat.SearchFiltered(query, k, filter);
    var p := rebuilt.Search(query, k);
    plain := p.value;
    F.FilteredIsRebuilt(flat.sim, flat.vectors, filter, query, k, filtered, plain);
  }

  // ---------- a slot that is lost ----------

  /**
   With cosine similarity, `2M + 2` insertions, all live: a scan finds them all, the widest HNSW search misses the
   last, whatever the query.
   */
  method LostSlotShown(m: nat, step: nat, sqrt: real -> real, query: Vec) returns (answers: seq<Answer>, exact: seq<SearchResult>)
    requires m >= 1 && step >= 1 && (2 * m + 2) * step <= LARGEST - ONE && P.IsSqrt(sqrt) && |query| == 2 * m + 3
    ensures |exact| == 2 * m + 2 && |answers| < |exact|
    ensures forall i :: 0 <= i < |answers| ==> answers[i].id != 2 * m + 1
  {
    hide Inv, Run, FlatRun, CosineSim, TopK, Hnsw.Search, HubOps, Falling, P.IsSqrt, Spokes;
    var n := 2 * m + 2;
    StepsBelow(1, step, n);
    var ws := Spread(n, step);
    SpreadFalls(n, step);
    var hnsw, flat := BothAfter(CosineSim(sqrt), n + 1, Config(m, n, n), HubOps(Spokes(ws)));
    var a := hnsw.Search(query, n);
    var b := flat.Search(query, n);
    answers, exact := a.value, b.value;
    SpokesAdmissible(hnsw.cfg, ws, sqrt);
    LastMissed(CosineSim(sqrt), hnsw.cfg, n + 1, Spokes(ws), hnsw.State(), hnsw.cfg.efSearch, query, answers, exact);
  }

  lemma LastMissed(sim: Similarity, cfg: Config, dim: nat, pts: seq<Vec>, s: Index, ef: int, query: Vec,
                   answers: seq<Answer>, exact: seq<SearchResult>)
    requires Admissible(sim, cfg, dim, pts) && |pts| == 2 * cfg.M + 2 && Run(sim, cfg, dim, HubOps(pts), s)
    requires Search(sim, ef, s, query, |pts|, answers)
    requires var vs := FlatRun(dim, HubOps(pts)); TopK(sim, vs, LiveFlags(vs), query, |pts|, exact)
    ensures |exact| == |pts| && |answers| < |exact|
    ensures forall i :: 0 <= i < |answers| ==> answers[i].id != |pts| - 1
  {
    hide Run, HubOps, Search, TopK, FlatRun, Inv, EarlierCloser, Reached;
    var n: nat := |pts|;
    RunKeeps(sim, cfg, dim, HubOps(pts), s);
    LastSlotLost(sim, cfg, dim, pts, s, query);
    var slots := SearchSound(sim, cfg, ef, s, query, n, answers);
    DistinctCount(slots, SetOf(slots));
    assert SetOf(slots) <= Below(n - 1);
    SubsetCount(SetOf(slots), Below(n - 1));
    FlatScores(sim, cfg, dim, HubOps(pts), s, query, n, exact);
    AllLiveRanked(sim, s, query);
  }

  lemma AllLiveRanked(sim: Similarity, s: Index, query: Vec)
    requires |s.vecs| == |s.tomb| && forall v :: 0 <= v < |s.tomb| ==> !s.tomb[v]
    ensures |LiveRanking(sim, s, query)| == |s.tomb|
  {
    AllKept(ScoresTo(sim, s.vecs, query), Negated(s.tomb));
    var live := KeepWhere(ScoresTo(sim, s.vecs, query), Negated(s.tomb));
    assert |Ranked(live)| == |multiset(Ranked(live))| == |multiset(live)| == |live|;
  }

  // ---------- an id inserted twice ----------

  /** Insert one id twice and delete it: `is_deleted` says yes, and search still answers it. */
  method DuplicateIdShown(sim: Similarity, first: Vec, second: Vec) returns (deleted: bool, answers: seq<Answer>)
    requires |first| == |second|
    ensures deleted && exists i :: 0 <= i < |answers| && answers[i].id == 7
  {
    hide Inv, Run, FlatRun;
    var ops := [OpInsert(7, first, [], 0), OpInsert(7, second, [], 0), OpDelete(7)];
    var hnsw, flat := BothAfter(sim, |first|, Config(16, 200, 50), ops);
    TwiceThenDeleted(sim, hnsw.cfg, first, second, ops, hnsw.State());
    deleted := hnsw.IsDeletedId(7);
    var r := hnsw.Search(first, 2);
    answers := r.value;
    ShadowAnswered(sim, hnsw.cfg, hnsw.State(), hnsw.cfg.efSearch, first, answers);
  }

  lemma TwiceThenDeleted(sim: Similarity, cfg: Config, first: Vec, second: Vec, ops: seq<Op>, s: Index)
    requires cfg.M >= 1 && |first| == |second|
    requires ops == [OpInsert(7, first, [], 0), OpInsert(7, second, [], 0), OpDelete(7)]
    requires Run(sim, cfg, |first|, ops, s)
    ensures s.ids == [7, 7] && s.tomb == [true, false]
  {
    FlatTwiceThenDeleted(first, second, ops);
    hide Run, FlatRun;
    RunsAgree(sim, cfg, |first|, ops, s);
  }

  lemma FlatTwiceThenDeleted(first: Vec, second: Vec, ops: seq<Op>)
    requires |first| == |second|
    requires ops == [OpInsert(7, first, [], 0), OpInsert(7, second, [], 0), OpDelete(7)]
    ensures FlatRun(|first|, ops) == [Vector(7, [], first, true), Vector(7, [], second, false)]
  {
    assert ops[..2] == [ops[0], ops[1]] && ops[..2][..1] == [ops[0]] && ops[..2][..1][..0] == [];
    var one := [Vector(7, [], first, false)];
    var two := one + [Vector(7, [], second, false)];
    assert FlatRun(|first|, ops[..2][..1]) == one;
    assert FlatRun(|first|, ops[..2]) == two;
    FlaggedAt(two, 7, 0);
  }

  lemma ShadowAnswered(sim: Similarity, cfg: Config, s: Index, ef: int, query: Vec, answers: seq<Answer>)
    requires cfg.M >= 1 && Inv(sim, cfg, s) && s.ids == [7, 7] && s.tomb == [true, false] && ef >= 2
    requires Search(sim, ef, s, query, 2, answers)
    ensures exists i :: 0 <= i < |answers| && answers[i].id == 7
  {
    SmallIndexUnpruned(sim, cfg, s);
    UnprunedAllReached(sim, cfg, s, query);
    WideEnough(sim, ef, s, query);
    DeletedIdAnsweredIffShadowed(sim, cfg, s, ef, query, 2, answers);
    assert FirstSlot(s.ids, 7) == 0;
    assert Shadowed(s, 1);
    var i :| 0 <= i < |answers| && IsDeleted(s, answers[i].id);
    var f := FirstSlot(s.ids, answers[i].id);
  }
}
