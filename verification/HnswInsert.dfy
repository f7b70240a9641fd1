/** Every insertion keeps the index invariant: descent, layer-by-layer linking, and the final entry-point update. */
module HnswInsert {
  import opened Bytes
  import opened Ranking
  import opened Reachability
  import opened BeamSearch
  import opened Hnsw
  import opened HnswLists
  import opened HnswInvariant

  // ---------- searching inside an index ----------

  /** A layer search that starts in a closed set stays there and ranks distinct nodes. */
  lemma HitWithin(sim: Similarity, s: Index, query: Vec, ep: nat, ef: int, layer: nat, out: seq<Scored>, home: set<nat>)
    requires Hit(sim, s, query, ep, ef, layer, out)
    requires ep in home && Closed(LayerLinks(s.graph, layer), home)
    ensures out != [] && Descending(out) && NoDuplicates(Nodes(out))
    ensures forall e :: e in out ==> e.node in home && e.node < |s.vecs| && e.score == sim(query, s.vecs[e.node])
    ensures Front(out, ep) in home
  {
    var scores := ScoresTo(sim, s.vecs, query);
    var found := SearchLayer(s.graph, layer, scores, ep, ef);
    BeamClosure(s.graph, layer, scores, ep, ef);
    BestBeatsEntry(s.graph, layer, scores, ep, ef);
    SearchStaysWithin(s.graph, layer, scores, ep, ef, home);
    SortedCopyElements(out, found);
    NodesDistinctAfterSort(out, found);
    assert out[0] in out;
  }

  // ---------- an insertion in progress ----------

  /** No list of the layer has been offered `q`, and `q` has been offered nothing there. */
  ghost predicate Unlinked(s: Index, q: nat, layer: nat) {
    OfferedTo(s, q, layer) == {} && forall v: nat :: q !in OfferedTo(s, v, layer)
  }

  /** Layers above `lo` include `q` already; the layers up to `lo` do not know it yet. */
  ghost predicate LayersHalfway(s: Index, q: nat, lo: int) {
    forall layer: nat ::
      && Symmetric(OfferedGraph(s, layer))
      && (layer > lo ==> Connected(OfferedGraph(s, layer), Members(s, layer)))
      && (layer <= lo ==> Connected(OfferedGraph(s, layer), Members(s, layer) - {q}) && Unlinked(s, q, layer))
  }

  ghost predicate Halfway(sim: Similarity, cfg: Config, s: Index, q: nat, lo: int) {
    Shape(s) && ListsOk(sim, cfg, s) && LayersHalfway(s, q, lo)
  }

  /** The other nodes of a layer that does not know `q`. */
  ghost function Others(s: Index, q: nat, layer: nat): set<nat> {
    Members(s, layer) - {q}
  }

  lemma OthersClosed(sim: Similarity, cfg: Config, s: Index, q: nat, layer: nat)
    requires Shape(s) && ListsOk(sim, cfg, s) && Unlinked(s, q, layer)
    ensures Closed(LayerLinks(s.graph, layer), Others(s, q, layer))
  {
    forall v, x | v in Others(s, q, layer) && x in LayerLinks(s.graph, layer)[v] ensures x in Others(s, q, layer) {
      assert HasLayer(s, v, layer) && ListOk(sim, cfg, s, v, layer);
      assert x in s.graph[v][layer] && x in s.offered[v][layer] && x in OfferedTo(s, v, layer);
    }
  }

  /** Layer `layer` changed exactly by linking `q` both ways with the nodes `links`. */
  ghost predicate JoinedOn(s: Index, t: Index, layer: nat, q: nat, links: set<nat>) {
    forall v: nat, l: nat :: OfferedTo(t, v, l) == OfferedTo(s, v, l) +
      if l != layer then {} else if v == q then links else if v in links then {q} else {}
  }

  /** The joined layer is symmetric and connected with `q` on it. */
  lemma JoinedLayer(s: Index, t: Index, layer: nat, q: nat, links: set<nat>)
    requires Shape(s) && Shape(t) && SameSlots(s, t) && JoinedOn(s, t, layer, q, links)
    requires Symmetric(OfferedGraph(s, layer)) && Unlinked(s, q, layer) && HasLayer(s, q, layer)
    requires Connected(OfferedGraph(s, layer), Others(s, q, layer))
    requires links != {} && links <= Others(s, q, layer)
    ensures Symmetric(OfferedGraph(t, layer)) && Connected(OfferedGraph(t, layer), Members(t, layer))
  {
    var small, big := OfferedGraph(s, layer), OfferedGraph(t, layer);
    forall v | 0 <= v < |small| ensures small[v] <= big[v] {
      assert OfferedTo(s, v, layer) <= OfferedTo(t, v, layer);
    }
    LinkedNodeConnects(small, big, Others(s, q, layer), q, links);
    assert Others(s, q, layer) + {q} == Members(t, layer);
  }

  lemma OtherLayer(s: Index, t: Index, layer: nat, q: nat, links: set<nat>, l: nat)
    requires Shape(s) && Shape(t) && SameSlots(s, t) && JoinedOn(s, t, layer, q, links) && l != layer
    ensures OfferedGraph(t, l) == OfferedGraph(s, l) && Members(t, l) == Members(s, l)
    ensures Unlinked(s, q, l) ==> Unlinked(t, q, l)
  {
    assert forall v: nat :: OfferedTo(t, v, l) == OfferedTo(s, v, l);
  }

  lemma JoinedLayers(s: Index, t: Index, layer: nat, q: nat, links: set<nat>)
    requires Shape(s) && Shape(t) && SameSlots(s, t) && JoinedOn(s, t, layer, q, links)
    requires LayersHalfway(s, q, layer) && HasLayer(s, q, layer)
    requires links != {} && links <= Others(s, q, layer)
    ensures LayersHalfway(t, q, layer - 1)
  {
    assert Unlinked(s, q, layer);
    JoinedLayer(s, t, layer, q, links);
    forall l: nat
      ensures Symmetric(OfferedGraph(t, l))
      ensures l > layer - 1 ==> Connected(OfferedGraph(t, l), Members(t, l))
      ensures l <= layer - 1 ==> Connected(OfferedGraph(t, l), Members(t, l) - {q}) && Unlinked(t, q, l)
    {
      if l != layer { OtherLayer(s, t, layer, q, links, l); }
    }
  }

  /** The first list of a new node: the best `M` of what the search found. */
  lemma FirstList(sim: Similarity, cfg: Config, s: Index, q: nat, layer: nat, out: seq<Scored>, nbs: seq<nat>)
    requires cfg.M >= 1 && Shape(s) && ListsOk(sim, cfg, s) && HasLayer(s, q, layer)
    requires OfferedTo(s, q, layer) == {}
    requires out != [] && NoDuplicates(Nodes(out)) && Select(out, cfg.M, nbs)
    requires forall e :: e in out ==> e.node in Others(s, q, layer) && e.score == sim(s.vecs[q], s.vecs[e.node])
    ensures nbs != [] && NoDuplicates(nbs) && |nbs| <= cfg.M && SetOf(nbs) <= Others(s, q, layer)
    ensures
      var t := PutList(s, q, layer, nbs, SetOf(nbs));
      SameSlots(s, t) && Shape(t) && ListsOk(sim, cfg, t)
  {
    var scores := ScoresTo(sim, s.vecs, s.vecs[q]);
    hide Select, ListsOk, PutList, SameSlots;
    BestOfFound(out, cfg.M, nbs, scores, Others(s, q, layer));
    FillsOwnPool(nbs, Mmax(cfg, layer), scores);
    assert s.offered[q][layer] + SetOf(nbs) == SetOf(nbs);
    PutListKeeps(sim, cfg, s, q, layer, nbs, SetOf(nbs));
  }

  lemma BestOfFound(out: seq<Scored>, m: int, nbs: seq<nat>, scores: seq<real>, home: set<nat>)
    requires m >= 1 && out != [] && NoDuplicates(Nodes(out)) && Select(out, m, nbs)
    requires forall e :: e in out ==> e.node < |scores| && e.node in home && e.score == scores[e.node]
    ensures nbs != [] && NoDuplicates(nbs) && |nbs| <= m && SetOf(nbs) <= home
    ensures forall x :: x in nbs ==> x < |scores|
  {
    SelectIsTop(out, m, nbs, scores);
    var pool := SetOf(Nodes(out));
    DistinctCount(Nodes(out), pool);
    forall x | x in pool ensures x in home && x < |scores| {
      var i :| 0 <= i < |out| && Nodes(out)[i] == x;
      assert out[i] in out;
    }
  }

  /** A list that fits is the best selection from itself. */
  lemma FillsOwnPool(list: seq<nat>, cap: int, scores: seq<real>)
    requires NoDuplicates(list) && |list| <= cap && forall x :: x in list ==> x < |scores|
    ensures TopSelection(list, SetOf(list), cap, scores)
  {
    DistinctCount(list, SetOf(list));
  }

  lemma LinkParts(sim: Similarity, cfg: Config, s: Index, vec: Vec, q: nat, ep: nat, layer: nat, t: Index, next: nat)
    returns (out: seq<Scored>, nbs: seq<nat>)
    requires LinkLayer(sim, cfg, s, vec, q, ep, layer, t, next)
    ensures Hit(sim, s, vec, ep, Larger(cfg.efConstruction, cfg.M), layer, out) && Select(out, cfg.M, nbs)
    ensures HasLayer(s, q, layer) && BackLinks(sim, cfg, PutList(s, q, layer, nbs, SetOf(nbs)), q, layer, nbs, t)
    ensures next == Front(out, ep)
  {
    hide Hit, Select, BackLinks;
    out, nbs :|
      && Hit(sim, s, vec, ep, Larger(cfg.efConstruction, cfg.M), layer, out)
      && Select(out, cfg.M, nbs)
      && BackLinks(sim, cfg, PutList(s, q, layer, nbs, SetOf(nbs)), q, layer, nbs, t)
      && next == Front(out, ep);
  }

  lemma LinkLayerKeeps(sim: Similarity, cfg: Config, s: Index, q: nat, ep: nat, layer: nat, t: Index, next: nat)
    requires cfg.M >= 1 && Halfway(sim, cfg, s, q, layer) && HasLayer(s, q, layer)
    requires ep in Others(s, q, layer)
    requires LinkLayer(sim, cfg, s, s.vecs[q], q, ep, layer, t, next)
    ensures SameSlots(s, t) && Halfway(sim, cfg, t, q, layer - 1) && next in Others(t, q, layer)
  {
    assert Unlinked(s, q, layer);
    hide LinkLayer, BackLinks, Select, LayersHalfway, ListsOk, PutList, Hit;
    var out, nbs := LinkParts(sim, cfg, s, s.vecs[q], q, ep, layer, t, next);
    OthersClosed(sim, cfg, s, q, layer);
    HitWithin(sim, s, s.vecs[q], ep, Larger(cfg.efConstruction, cfg.M), layer, out, Others(s, q, layer));
    FirstList(sim, cfg, s, q, layer, out, nbs);
    AfterFirstList(sim, cfg, s, q, layer, nbs, t);
  }

  lemma JoinedInTurn(s: Index, first: Index, t: Index, layer: nat, q: nat, links: set<nat>)
    requires SameSlots(s, first) && SameSlots(first, t)
    requires forall v: nat, l: nat :: OfferedTo(first, v, l) == OfferedTo(s, v, l) + if v == q && l == layer then links else {}
    requires OfferedOnly(first, t, layer, links, q)
    requires q !in links
    ensures SameSlots(s, t) && JoinedOn(s, t, layer, q, links)
  {
  }

  lemma FirstListLinkable(s: Index, q: nat, layer: nat, nbs: seq<nat>)
    requires Shape(s) && HasLayer(s, q, layer) && Unlinked(s, q, layer)
    requires NoDuplicates(nbs) && SetOf(nbs) <= Others(s, q, layer)
    ensures Linkable(PutList(s, q, layer, nbs, SetOf(nbs)), q, layer, nbs)
  {
    var first := PutList(s, q, layer, nbs, SetOf(nbs));
    PutListEffect(s, q, layer, nbs, SetOf(nbs));
    forall i | 0 <= i < |nbs| ensures nbs[i] != q && HasLayer(first, nbs[i], layer) && q !in first.offered[nbs[i]][layer] {
      assert nbs[i] in SetOf(nbs) && nbs[i] in Members(s, layer);
      assert first.offered[nbs[i]][layer] == OfferedTo(first, nbs[i], layer);
    }
  }

  lemma AfterFirstList(sim: Similarity, cfg: Config, s: Index, q: nat, layer: nat, nbs: seq<nat>, t: Index)
    requires cfg.M >= 1 && Halfway(sim, cfg, s, q, layer) && HasLayer(s, q, layer)
    requires nbs != [] && NoDuplicates(nbs) && SetOf(nbs) <= Others(s, q, layer)
    requires
      var first := PutList(s, q, layer, nbs, SetOf(nbs));
      SameSlots(s, first) && Shape(first) && ListsOk(sim, cfg, first) && BackLinks(sim, cfg, first, q, layer, nbs, t)
    ensures SameSlots(s, t) && Halfway(sim, cfg, t, q, layer - 1)
    ensures JoinedOn(s, t, layer, q, SetOf(nbs))
  {
    var first := PutList(s, q, layer, nbs, SetOf(nbs));
    assert Unlinked(s, q, layer);
    PutListEffect(s, q, layer, nbs, SetOf(nbs));
    FirstListLinkable(s, q, layer, nbs);
    BackLinksKeep(sim, cfg, first, q, layer, nbs, t);
    JoinedInTurn(s, first, t, layer, q, SetOf(nbs));
    assert nbs[0] in SetOf(nbs);
    JoinedLayers(s, t, layer, q, SetOf(nbs));
  }

  lemma {:induction false} LinkLayersKeep(sim: Similarity, cfg: Config, s: Index, q: nat, ep: nat, hi: int, lo: int,
                                          t: Index, next: nat)
    requires cfg.M >= 1 && -1 <= lo <= hi && Halfway(sim, cfg, s, q, hi)
    requires q < |s.graph| && hi < |s.graph[q]|
    requires hi >= 0 ==> ep in Others(s, q, hi)
    requires LinkLayers(sim, cfg, s, s.vecs[q], q, ep, hi, lo, t, next)
    ensures SameSlots(s, t) && Halfway(sim, cfg, t, q, lo)
    ensures lo >= 0 ==> next in Others(t, q, lo)
    decreases hi - lo
  {
    if lo < hi {
      var mid, at :|
        && LinkLayers(sim, cfg, s, s.vecs[q], q, ep, hi, Above(lo), mid, at)
        && LinkLayer(sim, cfg, mid, s.vecs[q], q, at, Above(lo), t, next);
      LinkLayersKeep(sim, cfg, s, q, ep, hi, Above(lo), mid, at);
      LinkLayerKeeps(sim, cfg, mid, q, at, Above(lo), t, next);
    }
  }

  // ---------- descent ----------

  /** Descending through layers of an index stays among the nodes of each layer. */
  lemma {:induction false} DescendWithin(sim: Similarity, cfg: Config, s: Index, query: Vec, q: nat, start: nat,
                                         hi: int, lo: int, ep: nat)
    requires -1 <= lo <= hi && Shape(s) && ListsOk(sim, cfg, s)
    requires forall layer: nat :: lo < layer <= hi ==> Unlinked(s, q, layer)
    requires hi >= 0 ==> start in Others(s, q, hi)
    requires Descend(sim, s, query, start, hi, lo, ep)
    ensures hi == lo ==> ep == start
    ensures lo >= 0 ==> ep in Others(s, q, lo)
    decreases hi - lo
  {
    if lo < hi {
      var prev, out :|
        && Descend(sim, s, query, start, hi, Above(lo), prev)
        && Hit(sim, s, query, prev, 1, Above(lo), out)
        && ep == Front(out, prev);
      DescendWithin(sim, cfg, s, query, q, start, hi, Above(lo), prev);
      OthersClosed(sim, cfg, s, q, Above(lo));
      HitWithin(sim, s, query, prev, 1, Above(lo), out, Others(s, q, Above(lo)));
      assert ep in Others(s, q, Above(lo));
    }
  }
}
