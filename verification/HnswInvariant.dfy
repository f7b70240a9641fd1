/** The invariant of an HNSW index and its preservation by one insertion. */
module HnswInvariant {
  import opened Ranking
  import opened Reachability
  import opened BeamSearch
  import opened Hnsw
  import opened HnswLists

  // ---------- the invariant ----------

  /** All per-slot arrays have the same length, and history and graph have the same layers. */
  ghost predicate Shape(s: Index) {
    && |s.vecs| == |s.ids| == |s.metas| == |s.tomb| == |s.graph| == |s.offered|
    && (forall v :: 0 <= v < |s.vecs| ==> |s.vecs[v]| == s.dim)
    && (forall v :: 0 <= v < |s.graph| ==> |s.graph[v]| == |s.offered[v]| > 0)
  }

  ghost predicate ListOk(sim: Similarity, cfg: Config, s: Index, v: nat, layer: nat)
    requires Shape(s) && HasLayer(s, v, layer)
  {
    && (forall x :: x in s.offered[v][layer] ==> x != v && HasLayer(s, x, layer))
    && TopSelection(s.graph[v][layer], s.offered[v][layer], Mmax(cfg, layer), ScoresTo(sim, s.vecs, s.vecs[v]))
  }

  ghost predicate ListsOk(sim: Similarity, cfg: Config, s: Index)
    requires Shape(s)
  {
    forall v: nat, layer: nat :: HasLayer(s, v, layer) ==> ListOk(sim, cfg, s, v, layer)
  }

  /** The nodes that reach up to a layer. */
  ghost function Members(s: Index, layer: nat): set<nat> {
    set v: nat | v < |s.graph| && layer < |s.graph[v]|
  }

  ghost function OfferedTo(s: Index, v: nat, layer: nat): set<nat> {
    if v < |s.offered| && layer < |s.offered[v]| then s.offered[v][layer] else {}
  }

  /** The graph of everything ever offered on a layer. */
  ghost function OfferedGraph(s: Index, layer: nat): (adj: Adj)
    ensures |adj| == |s.offered|
    ensures forall v :: 0 <= v < |adj| ==> adj[v] == OfferedTo(s, v, layer)
  {
    seq(|s.offered|, v requires 0 <= v < |s.offered| => OfferedTo(s, v, layer))
  }

  /** The entry point is a tallest node. */
  ghost predicate EntryOk(s: Index) {
    if s.graph == [] then s.maxLayer == 0 && s.entry == 0
    else
      && s.entry < |s.graph| && |s.graph[s.entry]| == s.maxLayer + 1
      && forall v :: 0 <= v < |s.graph| ==> |s.graph[v]| <= s.maxLayer + 1
  }

  ghost predicate LayersConnected(s: Index) {
    forall layer: nat :: Symmetric(OfferedGraph(s, layer)) && Connected(OfferedGraph(s, layer), Members(s, layer))
  }

  ghost predicate Inv(sim: Similarity, cfg: Config, s: Index) {
    Shape(s) && ListsOk(sim, cfg, s) && EntryOk(s) && LayersConnected(s)
  }

  lemma ListsInRange(sim: Similarity, cfg: Config, s: Index, layer: nat)
    requires Shape(s) && ListsOk(sim, cfg, s)
    ensures LinksInRange(s.graph, layer)
  {
    forall v, i | 0 <= v < |s.graph| && 0 <= i < |Links(s.graph, layer, v)| ensures Links(s.graph, layer, v)[i] < |s.graph| {
      assert HasLayer(s, v, layer) && ListOk(sim, cfg, s, v, layer);
      assert s.graph[v][layer][i] in s.graph[v][layer];
    }
  }

  // ---------- back-links ----------

  /** Only neighbour lists and their history differ; no node gains or loses a layer. */
  ghost predicate SameSlots(s: Index, t: Index) {
    && t == s.(graph := t.graph, offered := t.offered)
    && |t.graph| == |s.graph| && |t.offered| == |s.offered|
    && (forall v :: 0 <= v < |s.graph| ==> |t.graph[v]| == |s.graph[v]|)
    && (forall v :: 0 <= v < |s.offered| ==> |t.offered[v]| == |s.offered[v]|)
  }

  lemma PutListEffect(s: Index, v: nat, layer: nat, list: seq<nat>, pool: set<nat>)
    requires Shape(s) && HasLayer(s, v, layer)
    ensures
      var t := PutList(s, v, layer, list, pool);
      && SameSlots(s, t) && Shape(t)
      && (forall w: nat, l: nat :: HasLayer(t, w, l) <==> HasLayer(s, w, l))
      && t.graph[v][layer] == list
      && (forall w: nat, l: nat :: HasLayer(s, w, l) && !(w == v && l == layer) ==> t.graph[w][l] == s.graph[w][l])
      && (forall w: nat, l: nat :: OfferedTo(t, w, l) == OfferedTo(s, w, l) + if w == v && l == layer then pool else {})
  {
  }

  lemma UntouchedListOk(sim: Similarity, cfg: Config, s: Index, t: Index, v: nat, layer: nat)
    requires Shape(s) && Shape(t) && SameSlots(s, t)
    requires HasLayer(s, v, layer) && ListOk(sim, cfg, s, v, layer)
    requires t.graph[v][layer] == s.graph[v][layer] && t.offered[v][layer] == s.offered[v][layer]
    ensures ListOk(sim, cfg, t, v, layer)
  {
  }

  lemma PutListKeeps(sim: Similarity, cfg: Config, s: Index, v: nat, layer: nat, list: seq<nat>, pool: set<nat>)
    requires Shape(s) && ListsOk(sim, cfg, s) && HasLayer(s, v, layer)
    requires forall x :: x in pool ==> x != v && HasLayer(s, x, layer)
    requires TopSelection(list, s.offered[v][layer] + pool, Mmax(cfg, layer), ScoresTo(sim, s.vecs, s.vecs[v]))
    ensures
      var t := PutList(s, v, layer, list, pool);
      SameSlots(s, t) && Shape(t) && ListsOk(sim, cfg, t)
  {
    PutListEffect(s, v, layer, list, pool);
    var t := PutList(s, v, layer, list, pool);
    forall w: nat, l: nat | HasLayer(t, w, l) ensures ListOk(sim, cfg, t, w, l) {
      assert HasLayer(s, w, l) && ListOk(sim, cfg, s, w, l);
      assert t.offered[w][l] == OfferedTo(t, w, l) && s.offered[w][l] == OfferedTo(s, w, l);
      if w != v || l != layer {
        UntouchedListOk(sim, cfg, s, t, w, l);
      }
    }
  }

  /** What was offered changed only by `q` being offered to the nodes `to` on one layer. */
  ghost predicate OfferedOnly(s: Index, t: Index, layer: nat, to: set<nat>, q: nat) {
    forall v: nat, l: nat :: OfferedTo(t, v, l) == OfferedTo(s, v, l) + if v in to && l == layer then {q} else {}
  }

  lemma OfferedInTurn(s: Index, mid: Index, t: Index, layer: nat, to: set<nat>, nb: nat, q: nat)
    requires SameSlots(s, mid) && SameSlots(mid, t)
    requires OfferedOnly(s, mid, layer, to, q) && OfferedOnly(mid, t, layer, {nb}, q)
    ensures SameSlots(s, t)
    ensures OfferedOnly(s, t, layer, to + {nb}, q)
  {
  }

  /** A back-link never needs the resize, and leaves the pruned list a best selection. */
  lemma BackLinkKeeps(sim: Similarity, cfg: Config, s: Index, q: nat, layer: nat, nb: nat, t: Index)
    requires cfg.M >= 1 && Shape(s) && ListsOk(sim, cfg, s)
    requires HasLayer(s, q, layer) && HasLayer(s, nb, layer) && nb != q
    requires q !in s.offered[nb][layer]
    requires BackLink(sim, cfg, s, q, layer, nb, t)
    ensures SameSlots(s, t) && Shape(t) && ListsOk(sim, cfg, t)
    ensures OfferedOnly(s, t, layer, {nb}, q)
    ensures Raise(s, nb, layer) == s
  {
    var list :|
      && Pruned(sim, s.vecs, nb, Mmax(cfg, layer), s.graph[nb][layer] + [q], list)
      && t == PutList(s, nb, layer, list, {q});
    PrunedListKeeps(sim, cfg, s, q, layer, nb, list);
    PutOffersOnly(s, nb, layer, list, q);
  }

  lemma PutOffersOnly(s: Index, nb: nat, layer: nat, list: seq<nat>, q: nat)
    requires Shape(s) && HasLayer(s, nb, layer)
    ensures OfferedOnly(s, PutList(s, nb, layer, list, {q}), layer, {nb}, q)
  {
    PutListEffect(s, nb, layer, list, {q});
  }

  lemma PrunedListKeeps(sim: Similarity, cfg: Config, s: Index, q: nat, layer: nat, nb: nat, list: seq<nat>)
    requires cfg.M >= 1 && Shape(s) && ListsOk(sim, cfg, s)
    requires HasLayer(s, q, layer) && HasLayer(s, nb, layer) && nb != q && q !in s.offered[nb][layer]
    requires Pruned(sim, s.vecs, nb, Mmax(cfg, layer), s.graph[nb][layer] + [q], list)
    ensures
      var t := PutList(s, nb, layer, list, {q});
      SameSlots(s, t) && Shape(t) && ListsOk(sim, cfg, t)
  {
    assert ListOk(sim, cfg, s, nb, layer);
    PrunedIsTop(sim, s.vecs, nb, Mmax(cfg, layer), s.graph[nb][layer], s.offered[nb][layer], q, list);
    PutListKeeps(sim, cfg, s, nb, layer, list, {q});
  }

  /** The back-links made so far, to the nodes `to`. */
  ghost predicate LinkedSoFar(sim: Similarity, cfg: Config, s: Index, t: Index, layer: nat, to: set<nat>, q: nat) {
    SameSlots(s, t) && Shape(t) && ListsOk(sim, cfg, t) && OfferedOnly(s, t, layer, to, q)
  }

  lemma NextBackLink(sim: Similarity, cfg: Config, s: Index, q: nat, layer: nat, to: set<nat>, nb: nat, mid: Index, t: Index)
    requires cfg.M >= 1 && LinkedSoFar(sim, cfg, s, mid, layer, to, q)
    requires HasLayer(s, q, layer) && HasLayer(s, nb, layer) && nb != q && nb !in to && q !in s.offered[nb][layer]
    requires BackLink(sim, cfg, mid, q, layer, nb, t)
    ensures LinkedSoFar(sim, cfg, s, t, layer, to + {nb}, q)
  {
    assert OfferedTo(mid, nb, layer) == OfferedTo(s, nb, layer);
    BackLinkKeeps(sim, cfg, mid, q, layer, nb, t);
    OfferedInTurn(s, mid, t, layer, to, nb, q);
  }

  /** Distinct other nodes of the layer, none of which has been offered `q` there. */
  ghost predicate Linkable(s: Index, q: nat, layer: nat, nbs: seq<nat>) {
    && NoDuplicates(nbs)
    && forall i :: 0 <= i < |nbs| ==> nbs[i] != q && HasLayer(s, nbs[i], layer) && q !in s.offered[nbs[i]][layer]
  }

  lemma LinkablePrefix(s: Index, q: nat, layer: nat, nbs: seq<nat>)
    requires Linkable(s, q, layer, nbs) && nbs != []
    ensures
      var last := |nbs| - 1;
      && Linkable(s, q, layer, nbs[..last])
      && nbs[last] !in SetOf(nbs[..last])
      && SetOf(nbs) == SetOf(nbs[..last]) + {nbs[last]}
  {
    assert nbs == nbs[..|nbs| - 1] + [nbs[|nbs| - 1]];
  }

  lemma NothingLinkedYet(sim: Similarity, cfg: Config, s: Index, layer: nat, q: nat)
    requires Shape(s) && ListsOk(sim, cfg, s)
    ensures LinkedSoFar(sim, cfg, s, s, layer, {}, q)
  {
  }

  lemma {:induction false} BackLinksKeep(sim: Similarity, cfg: Config, s: Index, q: nat, layer: nat, nbs: seq<nat>, t: Index)
    requires cfg.M >= 1 && Shape(s) && ListsOk(sim, cfg, s)
    requires HasLayer(s, q, layer) && Linkable(s, q, layer, nbs)
    requires BackLinks(sim, cfg, s, q, layer, nbs, t)
    ensures LinkedSoFar(sim, cfg, s, t, layer, SetOf(nbs), q)
  {
    if nbs == [] {
      NothingLinkedYet(sim, cfg, s, layer, q);
      assert SetOf(nbs) == {};
    } else {
      var last := |nbs| - 1;
      var mid :| BackLinks(sim, cfg, s, q, layer, nbs[..last], mid) && BackLink(sim, cfg, mid, q, layer, nbs[last], t);
      LinkablePrefix(s, q, layer, nbs);
      BackLinksKeep(sim, cfg, s, q, layer, nbs[..last], mid);
      NextBackLink(sim, cfg, s, q, layer, SetOf(nbs[..last]), nbs[last], mid, t);
    }
  }
}
