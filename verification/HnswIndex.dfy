/**
 The HNSW index as an object: the source's methods, each proved to make one of the steps of
 module Hnsw.  `State` collects the fields; `offered` is its history variable.
 */
module HnswIndex {
  import opened Bytes
  import opened Wrappers
  import opened Ranking
  import opened BeamSearch
  import opened Hnsw
  import opened HnswLists
  import opened HnswInvariant
  import opened HnswInsert
  import opened HnswRuns
  import opened HnswSearch
  import opened HnswPaths
  import opened LayerSearch
  import opened Selection
  import opened Codec
  import opened Tombstones
  import opened IndexFile
  import Wal
  import VB = VisitedBuffer

  /** `select_neighbours_`: the best `m` candidates. */
  method SelectNeighbours(cands: seq<Scored>, m: int) returns (picked: seq<nat>)
    ensures Select(cands, m, picked)
  {
    hide SortDescending;
    var sorted := SortDescending(cands);
    picked := [];
    var i := 0;
    while i < m && i < |sorted|
      invariant 0 <= i <= |sorted| && i <= Larger(m, 0)
      invariant picked == Nodes(sorted[..i])
    {
      picked := picked + [sorted[i].node];
      i := i + 1;
    }
    assert sorted[..i] == TakeUpTo(sorted, Larger(m, 0));
  }

  lemma FourPieces(a: Data, b: Data, c: Data, d: Data)
    ensures a + b + c + d == a + (b + (c + d))
  {
  }

  lemma FivePieces(a: Data, b: Data, c: Data, d: Data, e: Data)
    ensures a + b + c + d + e == a + (b + (c + (d + e)))
  {
  }

  /** The reading loops of `load` behind the header. */
  method LoadBody(b: Data, p: Prefix) returns (r: Read<Image>)
    ensures r == ReadBody(b, p)
  {
    var ids := ReadItems(b, p.count, Read64);
    if ids.None? { return None; }
    var vecs := ReadItems(ids.value.1, p.count, ReadVec(p.dim));
    if vecs.None? { return None; }
    var metas := ReadItems(vecs.value.1, p.count, ReadText);
    if metas.None? { return None; }
    var maxLayer := Read32(metas.value.1);
    if maxLayer.None? { return None; }
    var entry := Read32(maxLayer.value.1);
    if entry.None? { return None; }
    var words: Read<seq<u64>> := Some(([], entry.value.1));
    if p.version >= 2 {
      words := ReadItems(entry.value.1, WordCount(p.count), Read64);
      if words.None? { return None; }
    }
    var graph := ReadItems(words.value.1, p.count, ReadNode);
    if graph.None? { return None; }
    return Some((Image(ids.value.0, vecs.value.0, metas.value.0, maxLayer.value.0, entry.value.0, words.value.0, graph.value.0),
                 graph.value.1));
  }

  /** `load` up to the point where the fields are replaced. */
  method ReadFile(file: Data) returns (r: Result<(Prefix, Image, Data), LoadError>)
    ensures r == Decode(file)
    ensures r.Success? ==> FitsCounts(r.value.0, r.value.1)
  {
    hide ReadHeader;
    var magic := Read32(file);
    if magic.None? { return Failure(Truncated); }
    if magic.value.0 != MAGIC { return Failure(BadMagic); }
    var h := ReadHeader(file);
    if h.None? { return Failure(Truncated); }
    var body := LoadBody(h.value.1, h.value.0);
    if body.None? { return Failure(Truncated); }
    return Success((h.value.0, body.value.0, body.value.1));
  }

  // ---------- compaction ----------

  /** `t` holds the live ones of the first `n` slots of `s`, in order, and no tombstone. */
  ghost predicate Survivors(s: Index, n: nat, t: Index) {
    && |s.vecs| == |s.ids| == |s.metas| == |s.tomb| && n <= |s.ids|
    && var live := Negated(s.tomb)[..n];
       && t.dim == s.dim
       && t.ids == KeepWhere(s.ids[..n], live)
       && t.vecs == KeepWhere(s.vecs[..n], live)
       && t.metas == KeepWhere(s.metas[..n], live)
       && |t.tomb| == |t.ids| && forall i :: 0 <= i < |t.tomb| ==> !t.tomb[i]
  }

  lemma KeepNext<T>(xs: seq<T>, keep: seq<bool>, n: nat)
    requires |xs| == |keep| && n < |xs|
    ensures KeepWhere(xs[..n + 1], keep[..n + 1]) == KeepWhere(xs[..n], keep[..n]) + if keep[n] then [xs[n]] else []
  {
    assert xs[..n + 1][..n] == xs[..n] && keep[..n + 1][..n] == keep[..n];
  }

  lemma OneMoreSurvivor(sim: Similarity, cfg: Config, s: Index, n: nat, before: Index, after: Index, level: nat)
    requires n < |s.ids| && Survivors(s, n, before)
    requires before.dim == s.dim
    requires if s.tomb[n] then after == before else OneMore(before, s.ids[n], s.vecs[n], s.metas[n], level, after)
    ensures Survivors(s, n + 1, after) && after.dim == s.dim
  {
    var live := Negated(s.tomb);
    KeepNext(s.ids, live, n);
    KeepNext(s.vecs, live, n);
    KeepNext(s.metas, live, n);
  }

  ghost predicate DrawnHeight(height: nat, draw: nat -> nat, n: nat) {
    exists i: nat :: i < n && height == draw(i) + 1
  }

  /** Every node is as tall as one of the first `n` draws says. */
  ghost predicate Drawn(t: Index, draw: nat -> nat, n: nat) {
    forall v :: 0 <= v < |t.graph| ==> DrawnHeight(|t.graph[v]|, draw, n)
  }

  lemma DrawnGrows(s: Index, id: u64, vec: Vec, meta: Data, draw: nat -> nat, n: nat, t: Index)
    requires Drawn(s, draw, n) && (t == s || OneMore(s, id, vec, meta, draw(n), t))
    ensures Drawn(t, draw, n + 1)
  {
    forall v | 0 <= v < |t.graph| ensures DrawnHeight(|t.graph[v]|, draw, n + 1) {
      if v < |s.graph| { assert DrawnHeight(|s.graph[v]|, draw, n); }
    }
  }

  lemma NoSurvivorsYet(s: Index)
    requires |s.vecs| == |s.ids| == |s.metas| == |s.tomb|
    ensures Survivors(s, 0, Empty(s.dim))
  {
  }

  lemma {:induction false} KeepCount<T>(xs: seq<T>, keep: seq<bool>)
    requires |xs| == |keep|
    ensures |KeepWhere(xs, keep)| <= |xs|
  {
    if keep != [] { KeepCount(xs[..|keep| - 1], keep[..|keep| - 1]); }
  }

  lemma SurvivorCount(s: Index, t: Index)
    requires Survivors(s, |s.ids|, t)
    ensures |t.ids| <= |s.ids|
  {
    KeepCount(s.ids[..|s.ids|], Negated(s.tomb)[..|s.ids|]);
  }

  lemma NoStart(sim: Similarity, ef: int, s: Index, query: Vec, k: int)
    requires s.ids == [] || StartNode(s) == |s.tomb|
    ensures Search(sim, ef, s, query, k, [])
  {
  }

  lemma IsAnswer(sim: Similarity, ef: int, s: Index, query: Vec, k: int, start: nat, ep: nat, cands: seq<Scored>, out: seq<Answer>)
    requires s.ids != [] && start == StartNode(s) < |s.tomb| == |s.ids|
    requires Descend(sim, s, query, start, s.maxLayer, 0, ep) && Hit(sim, s, query, ep, ef, 0, cands)
    requires NodesBelow(cands, |s.ids|) && out == Collect(cands, s.tomb, s.ids, k, [])
    ensures Search(sim, ef, s, query, k, out)
  {
    hide Descend, Hit, Collect;
  }

  lemma AnyAnswers(sim: Similarity, cfg: Config, ef: int, s: Index, query: Vec, k: int)
    requires Inv(sim, cfg, s) && s.ids != []
    ensures forall out: seq<Answer> :: Search(sim, ef, s, query, k, out) ==> FromEntry(sim, ef, s, query, out)
  {
    hide Inv, Search;
    forall out: seq<Answer> | Search(sim, ef, s, query, k, out) ensures FromEntry(sim, ef, s, query, out) {
      AnswersFromEntry(sim, cfg, ef, s, query, k, out);
    }
  }

  class HNSWIndex {
    const sim: Similarity
    const visited: VB.VisitedBuffer
    var cfg: Config
    var dim: nat
    var numVectors: nat
    var vecs: seq<Vec>
    var ids: seq<u64>
    var metas: seq<Data>
    var tomb: seq<bool>
    var graph: Graph
    var maxLayer: nat
    var entry: nat
    ghost var offered: seq<seq<set<nat>>>

    ghost function State(): Index
      reads this
    {
      Index(dim, vecs, ids, metas, tomb, graph, offered, maxLayer, entry)
    }

    /** The counter agrees with the arrays and the thread's buffer is usable. */
    ghost predicate Ready()
      reads this, visited, visited.buf
    {
      visited.Valid() && numVectors == |ids| && cfg.M >= 1
    }

    ghost predicate Valid()
      reads this, visited, visited.buf
    {
      Ready() && Inv(sim, cfg, State())
    }

    /** Any configuration is accepted; with `M < 1` no list could ever hold a link, and nothing more is promised. */
    constructor (sim: Similarity, dim: nat, cfg: Config, visited: VB.VisitedBuffer)
      requires visited.Valid()
      ensures State() == Empty(dim) && numVectors == 0 && (cfg.M >= 1 ==> Valid())
      ensures this.sim == sim && this.cfg == cfg && this.visited == visited
    {
      this.sim, this.cfg, this.dim, this.visited := sim, cfg, dim, visited;
      numVectors, maxLayer, entry := 0, 0, 0;
      vecs, ids, metas, tomb, graph, offered := [], [], [], [], [], [];
      new;
      if cfg.M >= 1 { RunKeeps(sim, cfg, dim, [], State()); }
    }

    method SetEfSearch(ef: int)
      requires Valid()
      modifies `cfg
      ensures Valid() && cfg == old(cfg).(efSearch := ef)
    {
      cfg := cfg.(efSearch := ef);
      var s := State();
      forall v: nat, layer: nat | HasLayer(s, v, layer) ensures ListOk(sim, cfg, s, v, layer) {
        assert ListOk(sim, old(cfg), s, v, layer);
      }
    }

    // ---------- searching ----------

    /** `search_layer_` on this index. */
    method SearchOnLayer(query: Vec, ep: nat, ef: int, layer: nat) returns (out: seq<Scored>)
      requires Ready() && |vecs| == |graph| == numVectors
      requires LinksInRange(graph, layer) && ep < |graph|
      modifies visited, visited.buf
      ensures Ready() && (visited.buf == old(visited.buf) || fresh(visited.buf))
      ensures Hit(sim, State(), query, ep, ef, layer, out)
    {
      out := SearchOneLayer(sim, vecs, graph, visited, query, ep, ef, layer);
    }

    /** The greedy layer-by-layer descent that `insert` and `search` share. */
    method GreedyDescent(query: Vec, start: nat, hi: int, lo: int) returns (ep: nat)
      requires Ready() && |vecs| == |graph| == numVectors
      requires forall layer: nat :: LinksInRange(graph, layer)
      requires start < |graph| && lo >= -1 && hi >= -1
      modifies visited, visited.buf
      ensures Ready() && (visited.buf == old(visited.buf) || fresh(visited.buf))
      ensures Descend(sim, State(), query, start, hi, lo, ep) && ep < |graph|
    {
      hide Hit;
      ep := start;
      var lc := hi;
      while lc > lo
        invariant Ready() && (visited.buf == old(visited.buf) || fresh(visited.buf))
        invariant lo <= lc <= hi || lc == hi
        invariant Descend(sim, State(), query, start, hi, lc, ep)
        invariant ep < |graph|
      {
        assert lc == Above(lc - 1);
        var cands := SearchOnLayer(query, ep, 1, lc);
        HitImproves(sim, State(), query, ep, 1, lc, cands);
        if cands != [] { ep := cands[0].node; }
        lc := lc - 1;
      }
    }

    // ---------- insertion ----------

    /** First lock region of `insert`. */
    method AppendSlot(id: u64, vec: Vec, meta: Data, level: nat)
      requires numVectors == |ids|
      modifies `numVectors, `vecs, `ids, `metas, `tomb, `graph, `offered, `maxLayer, `entry
      ensures numVectors == |ids|
      ensures State() == Append(old(State()), id, vec, meta, level)
    {
      var q := numVectors;
      numVectors := numVectors + 1;
      vecs, ids, metas, tomb := vecs + [vec], ids + [id], metas + [meta], tomb + [false];
      graph, offered := graph + [NoLinks(level + 1)], offered + [NoOffers(level + 1)];
      if q == 0 {
        maxLayer := level;
        entry := 0;
      }
    }

    /** One back-link region of `insert`. */
    method AddBackLink(q: nat, layer: nat, nb: nat)
      requires Shape(State()) && ListsOk(sim, cfg, State()) && nb < |graph| && q < |vecs|
      modifies `graph, `offered
      ensures BackLink(sim, cfg, old(State()), q, layer, nb, State())
      ensures cfg.M >= 0 ==> LinkedBack(cfg, old(State()), q, layer, nb, State())
    {
      hide ListsOk, Select;
      ghost var before := State();
      if layer >= |graph[nb]| {
        ghost var missing := layer + 1 - |graph[nb]|;
        graph := graph[nb := graph[nb] + NoLinks(layer + 1 - |graph[nb]|)];
        offered := offered[nb := offered[nb] + NoOffers(missing)];
      }
      ghost var raised := State();
      assert raised == Raise(before, nb, layer);
      var links := graph[nb][layer] + [q];
      if |links| > Mmax(cfg, layer) {
        ListWithin(sim, cfg, before, nb, layer, q);
        var cands := Rate(nb, links);
        links := SelectNeighbours(cands, Mmax(cfg, layer));
      }
      graph := graph[nb := graph[nb][layer := links]];
      offered := offered[nb := offered[nb][layer := offered[nb][layer] + {q}]];
      assert State() == PutList(raised, nb, layer, links, {q});
      assert Pruned(sim, before.vecs, nb, Mmax(cfg, layer), raised.graph[nb][layer] + [q], links);
      if cfg.M >= 0 { BackLinkList(sim, cfg, before, q, layer, nb, State()); }
    }

    /** Similarity of each linked node to the list's owner. */
    method Rate(owner: nat, links: seq<nat>) returns (cands: seq<Scored>)
      requires owner < |vecs| && forall i :: 0 <= i < |links| ==> links[i] < |vecs|
      ensures cands == Rated(sim, vecs, owner, links)
    {
      cands := [];
      for i := 0 to |links|
        invariant cands == Rated(sim, vecs, owner, links)[..i]
      {
        cands := cands + [Scored(sim(vecs[owner], vecs[links[i]]), links[i])];
      }
    }

    /** `graph_[q][layer] = neighbours`. */
    method WriteList(q: nat, layer: nat, nbs: seq<nat>)
      requires HasLayer(State(), q, layer)
      modifies `graph, `offered
      ensures State() == PutList(old(State()), q, layer, nbs, SetOf(nbs))
    {
      graph := graph[q := graph[q][layer := nbs]];
      offered := offered[q := offered[q][layer := offered[q][layer] + SetOf(nbs)]];
    }

    /** Link the new node `q` on one layer. */
    method LinkOnLayer(vec: Vec, q: nat, ep: nat, layer: nat) returns (next: nat)
      requires Ready() && Halfway(sim, cfg, State(), q, layer) && HasLayer(State(), q, layer)
      requires vec == vecs[q] && ep in Others(State(), q, layer)
      modifies visited, visited.buf, `graph, `offered
      ensures Ready() && (visited.buf == old(visited.buf) || fresh(visited.buf))
      ensures LinkLayer(sim, cfg, old(State()), vec, q, ep, layer, State(), next)
    {
      hide ListsOk, LayersHalfway, BackLinks, Select, Linkable, Hit, SameSlots;
      ghost var s := State();
      ListsInRange(sim, cfg, s, layer);
      var ef := Larger(cfg.efConstruction, cfg.M);
      var cands := SearchOnLayer(vec, ep, ef, layer);
      var nbs := SelectNeighbours(cands, cfg.M);
      LinkTargets(sim, cfg, s, q, ep, layer, cands, nbs);
      WriteList(q, layer, nbs);
      AddBackLinks(q, layer, nbs);
      next := if cands != [] then cands[0].node else ep;
    }

    /** Offer the new node to each of its neighbours in turn. */
    method AddBackLinks(q: nat, layer: nat, nbs: seq<nat>)
      requires cfg.M >= 1 && Shape(State()) && ListsOk(sim, cfg, State())
      requires HasLayer(State(), q, layer) && Linkable(State(), q, layer, nbs)
      modifies `graph, `offered
      ensures BackLinks(sim, cfg, old(State()), q, layer, nbs, State())
    {
      hide ListsOk, BackLink, Linkable;
      ghost var first := State();
      for i := 0 to |nbs|
        invariant BackLinks(sim, cfg, first, q, layer, nbs[..i], State())
      {
        BackLinksSoFar(sim, cfg, first, q, layer, nbs, i, State());
        ghost var mid := State();
        AddBackLink(q, layer, nbs[i]);
        assert nbs[..i + 1][..i] == nbs[..i];
        assert BackLinks(sim, cfg, first, q, layer, nbs[..i], mid);
      }
      assert nbs[..|nbs|] == nbs;
    }

    /** Link the new node on layers `hi`, ..., 0. */
    method LinkOnLayers(vec: Vec, q: nat, start: nat, hi: int) returns (ep: nat)
      requires Ready() && hi >= -1 && Halfway(sim, cfg, State(), q, hi)
      requires q < |graph| && hi < |graph[q]| && vec == vecs[q]
      requires hi >= 0 ==> start in Others(State(), q, hi)
      modifies visited, visited.buf, `graph, `offered
      ensures Ready() && (visited.buf == old(visited.buf) || fresh(visited.buf))
      ensures LinkLayers(sim, cfg, old(State()), vec, q, start, hi, -1, State(), ep)
    {
      hide Halfway, LinkLayer, Others, SameSlots;
      ghost var slot := State();
      ep := start;
      var lc := hi;
      while lc >= 0
        invariant -1 <= lc <= hi
        invariant Ready() && (visited.buf == old(visited.buf) || fresh(visited.buf))
        invariant LinkLayers(sim, cfg, slot, vec, q, start, hi, lc, State(), ep)
      {
        assert lc == Above(lc - 1);
        LinkingSoFar(sim, cfg, slot, q, start, hi, lc, State(), ep);
        ghost var mid, at := State(), ep;
        ep := LinkOnLayer(vec, q, ep, lc);
        assert LinkLayers(sim, cfg, slot, vec, q, start, hi, Above(lc - 1), mid, at);
        lc := lc - 1;
      }
    }

    /** The rest of `insert` when the new slot is not the first: descend, link, and maybe become the entry point. */
    method ConnectSlot(ghost s: Index, id: u64, vec: Vec, meta: Data, level: nat)
      requires Ready() && Inv(sim, cfg, s) && |vec| == s.dim && s.ids != []
      requires State() == Append(s, id, vec, meta, level)
      modifies visited, visited.buf, `graph, `offered, `maxLayer, `entry
      ensures Ready() && (visited.buf == old(visited.buf) || fresh(visited.buf))
      ensures Hnsw.Insert(sim, cfg, s, id, vec, meta, level, State())
    {
      hide Inv, ListsOk, Halfway, Descend, LinkLayers, Unlinked, Others, LinksInRange, Append;
      ghost var slot := State();
      InsertReady(sim, cfg, s, id, vec, meta, level);
      var q := numVectors - 1;
      var curMax := maxLayer;
      var start := GreedyDescent(vec, entry, curMax, level);
      LandingNode(sim, cfg, slot, vec, q, level, start);
      var last := LinkOnLayers(vec, q, start, Smaller(level, curMax));
      ghost var linked := State();
      if level > maxLayer {
        maxLayer := level;
        entry := q;
      }
      assert State() == Crown(linked, q, level);
    }

    /** `insert`; `level` is the random layer drawn for the new node. */
    method Insert(id: u64, vec: Vec, meta: Data, level: nat) returns (r: Result<(), Error>)
      requires Valid()
      modifies this, visited, visited.buf
      ensures Valid() && cfg == old(cfg) && (visited.buf == old(visited.buf) || fresh(visited.buf))
      ensures r == if |vec| == old(dim) then Success(()) else Failure(DimensionMismatch)
      ensures Step(sim, cfg, old(State()), OpInsert(id, vec, meta, level), State())
      ensures r.Success? ==> OneMore(old(State()), id, vec, meta, level, State())
    {
      if |vec| != dim { return Failure(DimensionMismatch); }
      hide Inv, Append, Descend, LinkLayers, OneMore;
      ghost var s := State();
      var q := numVectors;
      AppendSlot(id, vec, meta, level);
      if q != 0 {
        ConnectSlot(s, id, vec, meta, level);
      }
      InsertKeeps(sim, cfg, s, id, vec, meta, level, State());
      return Success(());
    }

    // ---------- deletion ----------

    /** `delete_vector`: tombstones the first slot with that id; unknown ids are ignored. */
    method DeleteVector(id: u64)
      requires Valid()
      modifies `tomb
      ensures Valid()
      ensures Step(sim, cfg, old(State()), OpDelete(id), State())
    {
      ghost var s := State();
      DeleteKeeps(sim, cfg, s, id);
      for i := 0 to numVectors
        invariant State() == s
        invariant forall j :: 0 <= j < i ==> ids[j] != id
      {
        if ids[i] == id {
          tomb := tomb[i := true];
          FirstSlotIs(ids, id, i);
          return;
        }
      }
      FirstSlotIs(ids, id, |ids|);
    }

    method IsDeletedId(id: u64) returns (r: bool)
      requires Valid()
      ensures r == IsDeleted(State(), id)
    {
      for i := 0 to numVectors
        invariant forall j :: 0 <= j < i ==> ids[j] != id
      {
        if ids[i] == id {
          FirstSlotIs(ids, id, i);
          return tomb[i];
        }
      }
      FirstSlotIs(ids, id, |ids|);
      return false;
    }

    /** `live_size`: how many slots are not tombstoned. */
    method LiveSize() returns (count: nat)
      ensures count == |set i | 0 <= i < |tomb| && !tomb[i]|
    {
      count := 0;
      for i := 0 to |tomb|
        invariant count == |set j | 0 <= j < i && !tomb[j]|
      {
        ghost var before := set j | 0 <= j < i && !tomb[j];
        ghost var after := set j | 0 <= j < i + 1 && !tomb[j];
        assert after == if tomb[i] then before else before + {i};
        if !tomb[i] { count := count + 1; }
      }
    }

    // ---------- search ----------

    /** Where a search starts: the entry point, or if that is deleted the first live slot, if there is one. */
    method FindStart() returns (start: nat)
      requires numVectors == |tomb| && entry < |tomb|
      ensures start == StartNode(State()) <= |tomb|
      ensures !tomb[entry] ==> start == entry
      ensures tomb[entry] ==> (forall i :: 0 <= i < start ==> tomb[i]) && (start < |tomb| ==> !tomb[start])
    {
      start := entry;
      if tomb[start] {
        start := 0;
        while start < numVectors && tomb[start]
          invariant 0 <= start <= numVectors
          invariant forall j :: 0 <= j < start ==> tomb[j]
        {
          start := start + 1;
        }
        FirstLiveIs(tomb, start);
      }
    }

    /** `search`: a possible answer of module Hnsw, or an error for a query of the wrong dimension. */
    method Search(query: Vec, k: int) returns (r: Result<seq<Answer>, Error>)
      requires Valid()
      modifies visited, visited.buf
      ensures Valid() && (visited.buf == old(visited.buf) || fresh(visited.buf))
      ensures |query| != dim <==> r.Failure?
      ensures r.Success? ==> Hnsw.Search(sim, cfg.efSearch, State(), query, k, r.value)
      ensures r.Success? && ids != [] ==> FromEntry(sim, cfg.efSearch, State(), query, r.value)
    {
      if |query| != dim { return Failure(DimensionMismatch); }
      hide Inv, Hnsw.Search, Descend, Hit, Collect, FromEntry, NodesBelow;
      ListsStayInRange();
      if ids != [] { AnyAnswers(sim, cfg, cfg.efSearch, State(), query, k); }
      if numVectors == 0 {
        NoStart(sim, cfg.efSearch, State(), query, k);
        return Success([]);
      }
      var start := FindStart();
      if start == numVectors {
        NoStart(sim, cfg.efSearch, State(), query, k);
        return Success([]);
      }
      var ep := GreedyDescent(query, start, maxLayer, 0);
      var cands := SearchOnLayer(query, ep, cfg.efSearch, 0);
      HitInRange(sim, State(), query, ep, cfg.efSearch, cands);
      var out := CollectLive(cands, k);
      IsAnswer(sim, cfg.efSearch, State(), query, k, start, ep, cands, out);
      return Success(out);
    }

    lemma ListsStayInRange()
      requires Valid()
      ensures |vecs| == |tomb| == |graph| == |ids| && (entry < |graph| || ids == [])
      ensures forall layer: nat :: LinksInRange(graph, layer)
    {
      forall layer: nat ensures LinksInRange(graph, layer) { ListsInRange(sim, cfg, State(), layer); }
    }

    /** The last region of `search`: copy live candidates until `k` are found. */
    method CollectLive(cands: seq<Scored>, k: int) returns (out: seq<Answer>)
      requires |tomb| == |ids| && NodesBelow(cands, |ids|)
      ensures out == Collect(cands, tomb, ids, k, [])
    {
      out := [];
      for i := 0 to |cands|
        invariant Collect(cands, tomb, ids, k, []) == Collect(cands[i..], tomb, ids, k, out)
      {
        assert cands[i..][1..] == cands[i + 1..];
        if !tomb[cands[i].node] {
          out := out + [Answer(cands[i].score, ids[cands[i].node])];
          if |out| == k { break; }
        }
      }
    }

    // ---------- persistence ----------

    method SaveHeader() returns (out: Data)
      requires numVectors == |ids| < 0x1_0000_0000_0000_0000
      ensures out == Header(State())
    {
      out := Le32(MAGIC);
      out := out + Le32(VERSION);
      out := out + Le32(Low32(dim));
      out := out + Le32(0);
      out := out + Le64(numVectors);
      FivePieces(Le32(MAGIC), Le32(VERSION), Le32(Low32(dim)), Le32(0), Le64(numVectors));
    }

    method SaveArrays() returns (out: Data)
      ensures out == Arrays(State())
    {
      out := Concat(ids, Le64);
      var floats := WriteItems(vecs, EncodeVec);
      out := out + floats;
      var texts := WriteItems(metas, EncodeText);
      out := out + texts;
      Drop(Concat(ids, Le64), floats, texts);
    }

    method SaveTopology() returns (out: Data, ghost words: seq<u64>)
      ensures |words| == WordCount(|tomb|) && Unpack(words, |tomb|) == tomb
      ensures out == Topology(State(), words)
    {
      out := Le32(Low32(maxLayer));
      out := out + Le32(Low32(entry));
      var packed := Pack(tomb);
      words := packed;
      out := out + Concat(packed, Le64);
      var nodes := WriteItems(graph, EncodeNode);
      out := out + nodes;
      FourPieces(Le32(Low32(maxLayer)), Le32(Low32(entry)), Concat(packed, Le64), nodes);
    }

    /** `save`: the bytes of the index file. */
    method Save() returns (file: Data)
      requires numVectors == |ids| < 0x1_0000_0000_0000_0000
      ensures Saved(State(), file)
      ensures |file| >= 24 && file[..8] == [0x20, 0x42, 0x44, 0x4E, 2, 0, 0, 0]
    {
      hide Header, Arrays, Topology, Unpack;
      var header := SaveHeader();
      var arrays := SaveArrays();
      var topology;
      ghost var words;
      topology, words := SaveTopology();
      file := header + arrays;
      file := file + topology;
      Drop(header, arrays, topology);
      assert file == FileBytes(State(), words);
      SavedStarts(State(), file);
    }

    /**
     `load`: replaces every field by what the file says, or rejects a wrong magic number and changes nothing.
     Of a file that ends too early nothing is promised.  The history of the loaded links is not in the file;
     the caller names it.  A file of the first version leaves the deletion flags as they were.
     */
    method Load(file: Data, ghost history: seq<seq<set<nat>>>) returns (r: Result<(), LoadError>)
      modifies `dim, `numVectors, `vecs, `ids, `metas, `tomb, `graph, `maxLayer, `entry, `offered
      ensures match Decode(file)
              case Success(d) =>
                r == Success(()) && State() == Loaded(old(State()), d.0, d.1, history) && numVectors == |ids|
              case Failure(BadMagic) => r == Failure(BadMagic) && State() == old(State())
              case Failure(Truncated) => true
      ensures |file| >= 4 && file[..4] != [0x20, 0x42, 0x44, 0x4E] ==> r == Failure(BadMagic) && State() == old(State())
      ensures r.Success? ==> |file| >= 8 && numVectors == |tomb|
      ensures r.Success? && U32(file[4..8]) < 2 ==>
                forall i :: 0 <= i < |tomb| ==> (tomb[i] <==> i < |old(tomb)| && old(tomb[i]))
    {
      RefusedIff(file);
      var d := ReadFile(file);
      if d.Failure? { return Failure(d.error); }
      VersionBytes(file);
      hide Decode, FitsCounts;
      Adopt(d.value.0, d.value.1, history);
      return Success(());
    }

    /** Replace every field by what was read. */
    method Adopt(p: Prefix, im: Image, ghost history: seq<seq<set<nat>>>)
      requires FitsCounts(p, im)
      modifies `dim, `numVectors, `vecs, `ids, `metas, `tomb, `graph, `maxLayer, `entry, `offered
      ensures State() == Loaded(old(State()), p, im, history) && numVectors == |ids|
    {
      hide Unpack;
      dim, numVectors := p.dim, p.count;
      ids, vecs, metas := im.ids, im.vecs, im.metas;
      maxLayer, entry := im.maxLayer, im.entry;
      tomb := Resized(tomb, p.count);
      if p.version >= 2 { tomb := Unpack(im.words, p.count); }
      graph, offered := im.graph, history;
    }

    /**
     `compact`: a fresh index of the live vectors is saved and the log is checkpointed; this index stays
     as it is.  `draw` supplies the random layers, `rebuilt` is the fresh index's state.
     */
    method Compact(draw: nat -> nat, wal: Wal.WAL) returns (file: Data, ghost rebuilt: Index)
      requires Valid() && |ids| < 0x1_0000_0000_0000_0000
      modifies visited, visited.buf, wal
      ensures Valid() && (visited.buf == old(visited.buf) || fresh(visited.buf))
      ensures Saved(rebuilt, file) && Inv(sim, cfg, rebuilt) && Survivors(State(), |ids|, rebuilt)
      ensures Drawn(rebuilt, draw, |ids|)
      ensures wal.log == []
    {
      hide Inv, Survivors, Saved, Drawn;
      var other := new HNSWIndex(sim, dim, cfg, visited);
      CopyLive(other, draw);
      rebuilt := other.State();
      file := other.Save();
      wal.Checkpoint();
    }

    /** Insert the live vectors into an empty index, in slot order. */
    method CopyLive(other: HNSWIndex, draw: nat -> nat)
      requires Valid() && other.Valid() && other != this && other.State() == Empty(dim)
      requires other.sim == sim && other.cfg == cfg && other.visited == visited
      modifies other, visited, visited.buf
      ensures Valid() && other.Valid() && other.cfg == cfg && (visited.buf == old(visited.buf) || fresh(visited.buf))
      ensures Survivors(State(), |ids|, other.State()) && |other.ids| <= |ids|
      ensures Drawn(other.State(), draw, |ids|)
    {
      NoSurvivorsYet(State());
      hide Inv, Survivors;
      for i := 0 to numVectors
        invariant Valid() && other.Valid() && (visited.buf == old(visited.buf) || fresh(visited.buf))
        invariant other.cfg == cfg && other.dim == dim
        invariant Survivors(State(), i, other.State()) && Drawn(other.State(), draw, i)
      {
        CopySlot(other, i, draw);
      }
      SurvivorCount(State(), other.State());
    }

    /** Insert slot `i` into the other index if it is live. */
    method CopySlot(other: HNSWIndex, i: nat, draw: nat -> nat)
      requires Valid() && other.Valid() && other != this && i < |ids|
      requires other.sim == sim && other.cfg == cfg && other.visited == visited && other.dim == dim
      requires Survivors(State(), i, other.State()) && Drawn(other.State(), draw, i)
      modifies other, visited, visited.buf
      ensures Valid() && other.Valid() && other.cfg == cfg && (visited.buf == old(visited.buf) || fresh(visited.buf))
      ensures Survivors(State(), i + 1, other.State()) && other.dim == dim && Drawn(other.State(), draw, i + 1)
    {
      assert |vecs| == |ids| == |metas| == |tomb| && |vecs[i]| == dim;
      hide Inv, Survivors, OneMore, Step, Drawn;
      ghost var before := other.State();
      if !tomb[i] {
        var _ := other.Insert(ids[i], vecs[i], metas[i], draw(i));
      }
      OneMoreSurvivor(sim, cfg, State(), i, before, other.State(), draw(i));
      DrawnGrows(before, ids[i], vecs[i], metas[i], draw, i, other.State());
    }
  }

  /** What the first list of a new node may contain, and that writing it keeps all lists in order. */
  lemma LinkTargets(sim: Similarity, cfg: Config, s: Index, q: nat, ep: nat, layer: nat, out: seq<Scored>, nbs: seq<nat>)
    requires cfg.M >= 1 && Halfway(sim, cfg, s, q, layer) && HasLayer(s, q, layer) && ep in Others(s, q, layer)
    requires Hit(sim, s, s.vecs[q], ep, Larger(cfg.efConstruction, cfg.M), layer, out) && Select(out, cfg.M, nbs)
    ensures
      var t := PutList(s, q, layer, nbs, SetOf(nbs));
      SameSlots(s, t) && Shape(t) && ListsOk(sim, cfg, t) && HasLayer(t, q, layer) && Linkable(t, q, layer, nbs)
  {
    assert Unlinked(s, q, layer);
    OthersClosed(sim, cfg, s, q, layer);
    HitWithin(sim, s, s.vecs[q], ep, Larger(cfg.efConstruction, cfg.M), layer, out, Others(s, q, layer));
    FirstList(sim, cfg, s, q, layer, out, nbs);
    FirstListLinkable(s, q, layer, nbs);
  }

  lemma FirstSlotIs(ids: seq<u64>, id: u64, i: nat)
    requires i <= |ids| && (i < |ids| ==> ids[i] == id)
    requires forall j :: 0 <= j < i ==> ids[j] != id
    ensures FirstSlot(ids, id) == i
  {
    var f := FirstSlot(ids, id);
  }

  lemma FirstLiveIs(tomb: seq<bool>, i: nat)
    requires i <= |tomb| && (i < |tomb| ==> !tomb[i])
    requires forall j :: 0 <= j < i ==> tomb[j]
    ensures FirstLive(tomb) == i
  {
    var f := FirstLive(tomb);
  }

  lemma HitInRange(sim: Similarity, s: Index, query: Vec, ep: nat, ef: int, cands: seq<Scored>)
    requires Hit(sim, s, query, ep, ef, 0, cands)
    ensures NodesBelow(cands, |s.vecs|)
  {
    AllNodesClosed(s, 0);
    HitWithin(sim, s, query, ep, ef, 0, cands, AllNodes(s));
    forall i | 0 <= i < |cands| ensures cands[i].node < |s.vecs| { assert cands[i] in cands; }
  }

  /** A fresh slot is ready for the descent. */
  lemma InsertReady(sim: Similarity, cfg: Config, s: Index, id: u64, vec: Vec, meta: Data, level: nat)
    requires cfg.M >= 1 && Inv(sim, cfg, s) && |vec| == s.dim && s.ids != []
    ensures
      var slot := Append(s, id, vec, meta, level);
      var q := |s.ids|;
      && Halfway(sim, cfg, slot, q, Smaller(level, slot.maxLayer))
      && (forall layer: nat :: Unlinked(slot, q, layer))
      && slot.entry in Others(slot, q, slot.maxLayer) && slot.entry < |slot.graph| && |slot.ids| == q + 1
      && q < |slot.graph| && |slot.graph[q]| == level + 1 && Shape(slot) && ListsOk(sim, cfg, slot) && slot.vecs[q] == vec
      && forall layer: nat :: LinksInRange(slot.graph, layer)
  {
    AppendHalfway(sim, cfg, s, id, vec, meta, level);
    var slot := Append(s, id, vec, meta, level);
    forall layer: nat ensures LinksInRange(slot.graph, layer) {
      ListsInRange(sim, cfg, slot, layer);
    }
  }

  lemma LinkingSoFar(sim: Similarity, cfg: Config, s: Index, q: nat, ep: nat, hi: int, lo: int, t: Index, next: nat)
    requires cfg.M >= 1 && 0 <= lo <= hi && Halfway(sim, cfg, s, q, hi)
    requires q < |s.graph| && hi < |s.graph[q]| && ep in Others(s, q, hi)
    requires LinkLayers(sim, cfg, s, s.vecs[q], q, ep, hi, lo, t, next)
    ensures Halfway(sim, cfg, t, q, lo) && next in Others(t, q, lo) && HasLayer(t, q, lo) && t.vecs == s.vecs
  {
    LinkLayersKeep(sim, cfg, s, q, ep, hi, lo, t, next);
  }

  lemma ListWithin(sim: Similarity, cfg: Config, s: Index, nb: nat, layer: nat, q: nat)
    requires Shape(s) && ListsOk(sim, cfg, s) && nb < |s.graph| && q < |s.vecs|
    ensures
      var links := Raise(s, nb, layer).graph[nb][layer] + [q];
      forall i :: 0 <= i < |links| ==> links[i] < |s.vecs|
  {
    if HasLayer(s, nb, layer) {
      assert ListOk(sim, cfg, s, nb, layer);
      assert forall i :: 0 <= i < |s.graph[nb][layer]| ==> s.graph[nb][layer][i] in s.graph[nb][layer];
    }
  }

  lemma BackLinksSoFar(sim: Similarity, cfg: Config, s: Index, q: nat, layer: nat, nbs: seq<nat>, i: nat, t: Index)
    requires cfg.M >= 1 && Shape(s) && ListsOk(sim, cfg, s) && i < |nbs|
    requires HasLayer(s, q, layer) && Linkable(s, q, layer, nbs)
    requires BackLinks(sim, cfg, s, q, layer, nbs[..i], t)
    ensures Shape(t) && ListsOk(sim, cfg, t) && HasLayer(t, nbs[i], layer) && q < |t.vecs|
  {
    BackLinksKeep(sim, cfg, s, q, layer, nbs[..i], t);
  }
}
