/** Every run of insertions and deletions keeps the index invariant, and what that means for the graph. */
module HnswRuns {
  import opened Bytes
  import opened Reachability
  import opened Hnsw
  import opened HnswInvariant
  import opened HnswInsert

  // ---------- the first lock region of an insertion ----------

  lemma AppendLists(sim: Similarity, cfg: Config, s: Index, id: u64, vec: Vec, meta: Data, level: nat)
    requires cfg.M >= 1 && Shape(s) && ListsOk(sim, cfg, s) && |vec| == s.dim
    ensures
      var t := Append(s, id, vec, meta, level);
      Shape(t) && ListsOk(sim, cfg, t)
  {
    var t := Append(s, id, vec, meta, level);
    var q := |s.ids|;
    forall v: nat, l: nat | HasLayer(t, v, l) ensures ListOk(sim, cfg, t, v, l) {
      if v < q {
        assert HasLayer(s, v, l) && ListOk(sim, cfg, s, v, l);
        assert t.graph[v] == s.graph[v] && t.offered[v] == s.offered[v];
        forall x: nat | x < q ensures ScoresTo(sim, t.vecs, t.vecs[v])[x] == ScoresTo(sim, s.vecs, s.vecs[v])[x] {}
        forall x | x in s.offered[v][l] ensures HasLayer(t, x, l) { assert HasLayer(s, x, l); }
      } else {
        assert t.graph[v][l] == [] && t.offered[v][l] == {};
      }
    }
  }

  lemma AppendLayer(s: Index, id: u64, vec: Vec, meta: Data, level: nat, l: nat)
    requires Shape(s) && Symmetric(OfferedGraph(s, l)) && Connected(OfferedGraph(s, l), Members(s, l))
    requires forall v: nat :: |s.ids| !in OfferedTo(s, v, l)
    ensures
      var t := Append(s, id, vec, meta, level);
      && Symmetric(OfferedGraph(t, l)) && Unlinked(t, |s.ids|, l)
      && Others(t, |s.ids|, l) == Members(s, l)
      && Connected(OfferedGraph(t, l), Members(s, l))
      && (l > level || Members(s, l) == {} ==> Connected(OfferedGraph(t, l), Members(t, l)))
  {
    var t := Append(s, id, vec, meta, level);
    var q := |s.ids|;
    var small, big := OfferedGraph(s, l), OfferedGraph(t, l);
    forall v: nat ensures OfferedTo(t, v, l) == OfferedTo(s, v, l) {
      if v == q && l < |t.offered[q]| { assert t.offered[q][l] == {}; }
    }
    forall a, b | a in Members(s, l) && b in Members(s, l) ensures Reaches(big, a, b) {
      ReachesGrows(small, big, a, b);
    }
    assert l > level ==> Members(t, l) == Members(s, l);
    if Members(s, l) == {} {
      ReachesSelf(big, q);
      assert Members(t, l) <= {q};
    }
  }

  lemma AppendHalfway(sim: Similarity, cfg: Config, s: Index, id: u64, vec: Vec, meta: Data, level: nat)
    requires cfg.M >= 1 && Inv(sim, cfg, s) && |vec| == s.dim && s.ids != []
    ensures
      var t := Append(s, id, vec, meta, level);
      var q := |s.ids|;
      && Halfway(sim, cfg, t, q, Smaller(level, s.maxLayer))
      && (forall layer: nat :: Unlinked(t, q, layer))
      && t.entry in Others(t, q, s.maxLayer)
  {
    var t := Append(s, id, vec, meta, level);
    var q := |s.ids|;
    AppendLists(sim, cfg, s, id, vec, meta, level);
    forall l: nat
      ensures Symmetric(OfferedGraph(t, l)) && Unlinked(t, q, l)
      ensures l > Smaller(level, s.maxLayer) ==> Connected(OfferedGraph(t, l), Members(t, l))
      ensures Connected(OfferedGraph(t, l), Members(t, l) - {q})
    {
      NewcomerUnknown(sim, cfg, s, l);
      AppendLayer(s, id, vec, meta, level, l);
      if l > s.maxLayer { assert Members(s, l) == {}; }
    }
    assert t.graph[t.entry] == s.graph[s.entry];
  }

  lemma NewcomerUnknown(sim: Similarity, cfg: Config, s: Index, l: nat)
    requires Shape(s) && ListsOk(sim, cfg, s)
    ensures forall v: nat :: |s.ids| !in OfferedTo(s, v, l)
  {
    forall v: nat ensures |s.ids| !in OfferedTo(s, v, l) {
      if HasLayer(s, v, l) { assert ListOk(sim, cfg, s, v, l); }
    }
  }

  // ---------- one step, every run ----------

  lemma FirstInsertKeeps(sim: Similarity, cfg: Config, s: Index, id: u64, vec: Vec, meta: Data, level: nat)
    requires cfg.M >= 1 && Inv(sim, cfg, s) && |vec| == s.dim && s.ids == []
    ensures Inv(sim, cfg, Append(s, id, vec, meta, level))
  {
    var t := Append(s, id, vec, meta, level);
    AppendLists(sim, cfg, s, id, vec, meta, level);
    forall l: nat ensures Symmetric(OfferedGraph(t, l)) && Connected(OfferedGraph(t, l), Members(t, l)) {
      NewcomerUnknown(sim, cfg, s, l);
      AppendLayer(s, id, vec, meta, level, l);
      assert Members(s, l) == {};
    }
  }

  lemma CrownKeeps(sim: Similarity, cfg: Config, before: Index, s: Index, q: nat, level: nat)
    requires Halfway(sim, cfg, s, q, -1) && SameSlots(before, s)
    requires q < |s.graph| && |s.graph[q]| == level + 1
    requires s.entry < |s.graph| && |s.graph[s.entry]| == s.maxLayer + 1
    requires forall v :: 0 <= v < |s.graph| && v != q ==> |s.graph[v]| <= s.maxLayer + 1
    ensures Inv(sim, cfg, Crown(s, q, level))
  {
    var t := Crown(s, q, level);
    forall v: nat, l: nat | HasLayer(t, v, l) ensures ListOk(sim, cfg, t, v, l) {
      assert HasLayer(s, v, l) && ListOk(sim, cfg, s, v, l);
      forall x | x in s.offered[v][l] ensures HasLayer(t, x, l) { assert HasLayer(s, x, l); }
    }
    forall l: nat ensures Symmetric(OfferedGraph(t, l)) && Connected(OfferedGraph(t, l), Members(t, l)) {
      assert OfferedGraph(t, l) == OfferedGraph(s, l) && Members(t, l) == Members(s, l);
    }
  }

  /** The slot an insertion makes: everything before it is as it was, only links may differ. */
  ghost predicate OneMore(s: Index, id: u64, vec: Vec, meta: Data, level: nat, t: Index) {
    && t.dim == s.dim && t.vecs == s.vecs + [vec] && t.ids == s.ids + [id]
    && t.metas == s.metas + [meta] && t.tomb == s.tomb + [false]
    && |t.graph| == |s.graph| + 1 && |t.graph[|s.graph|]| == level + 1
    && (forall v :: 0 <= v < |s.graph| ==> |t.graph[v]| == |s.graph[v]|)
  }

  /** The entry into the first layer to be linked is another node of that layer. */
  lemma LandingNode(sim: Similarity, cfg: Config, slot: Index, vec: Vec, q: nat, level: nat, ep: nat)
    requires Shape(slot) && ListsOk(sim, cfg, slot)
    requires forall layer: nat :: Unlinked(slot, q, layer)
    requires slot.entry in Others(slot, q, slot.maxLayer)
    requires Descend(sim, slot, vec, slot.entry, slot.maxLayer, level, ep)
    ensures ep in Others(slot, q, Smaller(level, slot.maxLayer))
  {
    if level < slot.maxLayer {
      DescendWithin(sim, cfg, slot, vec, q, slot.entry, slot.maxLayer, level, ep);
    }
  }

  lemma LinkedKeeps(sim: Similarity, cfg: Config, s: Index, id: u64, vec: Vec, meta: Data, level: nat, ep: nat,
                    linked: Index, last: nat)
    requires cfg.M >= 1 && Inv(sim, cfg, s) && |vec| == s.dim && s.ids != []
    requires
      var slot := Append(s, id, vec, meta, level);
      && Descend(sim, slot, vec, slot.entry, slot.maxLayer, level, ep)
      && LinkLayers(sim, cfg, slot, vec, |s.ids|, ep, Smaller(level, slot.maxLayer), -1, linked, last)
    ensures SameSlots(Append(s, id, vec, meta, level), linked)
    ensures Halfway(sim, cfg, linked, |s.ids|, -1)
  {
    var slot := Append(s, id, vec, meta, level);
    AppendHalfway(sim, cfg, s, id, vec, meta, level);
    LandingNode(sim, cfg, slot, vec, |s.ids|, level, ep);
    LinkLayersKeep(sim, cfg, slot, |s.ids|, ep, Smaller(level, slot.maxLayer), -1, linked, last);
  }

  lemma HeightsBelow(s: Index, id: u64, vec: Vec, meta: Data, level: nat, linked: Index)
    requires Shape(s) && EntryOk(s) && s.ids != []
    requires SameSlots(Append(s, id, vec, meta, level), linked)
    ensures linked.entry == s.entry < |linked.graph| == |s.graph| + 1 && linked.maxLayer == s.maxLayer
    ensures |linked.graph[linked.entry]| == linked.maxLayer + 1
    ensures |linked.graph[|s.ids|]| == level + 1
    ensures forall v :: 0 <= v < |s.graph| ==> |linked.graph[v]| == |s.graph[v]| <= linked.maxLayer + 1
  {
    var slot := Append(s, id, vec, meta, level);
    forall v | 0 <= v < |s.graph| ensures |slot.graph[v]| == |s.graph[v]| {}
  }

  lemma CrownedKeeps(sim: Similarity, cfg: Config, s: Index, id: u64, vec: Vec, meta: Data, level: nat, linked: Index)
    requires Shape(s) && EntryOk(s) && s.ids != []
    requires SameSlots(Append(s, id, vec, meta, level), linked) && Halfway(sim, cfg, linked, |s.ids|, -1)
    ensures Inv(sim, cfg, Crown(linked, |s.ids|, level))
    ensures OneMore(s, id, vec, meta, level, Crown(linked, |s.ids|, level))
  {
    HeightsBelow(s, id, vec, meta, level, linked);
    CrownKeeps(sim, cfg, Append(s, id, vec, meta, level), linked, |s.ids|, level);
  }

  lemma InsertParts(sim: Similarity, cfg: Config, s: Index, id: u64, vec: Vec, meta: Data, level: nat, t: Index)
    returns (ep: nat, linked: Index, last: nat)
    requires s.ids != [] && Insert(sim, cfg, s, id, vec, meta, level, t)
    ensures
      var slot := Append(s, id, vec, meta, level);
      && Descend(sim, slot, vec, slot.entry, slot.maxLayer, level, ep)
      && LinkLayers(sim, cfg, slot, vec, |s.ids|, ep, Smaller(level, slot.maxLayer), -1, linked, last)
      && t == Crown(linked, |s.ids|, level)
  {
    hide Descend, LinkLayers;
    var slot := Append(s, id, vec, meta, level);
    ep, linked, last :|
      && Descend(sim, slot, vec, slot.entry, slot.maxLayer, level, ep)
      && LinkLayers(sim, cfg, slot, vec, |s.ids|, ep, Smaller(level, slot.maxLayer), -1, linked, last)
      && t == Crown(linked, |s.ids|, level);
  }

  lemma InsertKeeps(sim: Similarity, cfg: Config, s: Index, id: u64, vec: Vec, meta: Data, level: nat, t: Index)
    requires cfg.M >= 1 && Inv(sim, cfg, s) && |vec| == s.dim
    requires Insert(sim, cfg, s, id, vec, meta, level, t)
    ensures Inv(sim, cfg, t) && OneMore(s, id, vec, meta, level, t)
  {
    if s.ids == [] {
      FirstInsertKeeps(sim, cfg, s, id, vec, meta, level);
    } else {
      var ep, linked, last := InsertParts(sim, cfg, s, id, vec, meta, level, t);
      LinkedKeeps(sim, cfg, s, id, vec, meta, level, ep, linked, last);
      CrownedKeeps(sim, cfg, s, id, vec, meta, level, linked);
    }
  }

  lemma DeleteKeeps(sim: Similarity, cfg: Config, s: Index, id: u64)
    requires Inv(sim, cfg, s)
    ensures Inv(sim, cfg, Delete(s, id))
  {
    var t := Delete(s, id);
    forall v: nat, l: nat | HasLayer(t, v, l) ensures ListOk(sim, cfg, t, v, l) {
      assert HasLayer(s, v, l) && ListOk(sim, cfg, s, v, l);
      forall x | x in s.offered[v][l] ensures HasLayer(t, x, l) { assert HasLayer(s, x, l); }
    }
    forall l: nat ensures Symmetric(OfferedGraph(t, l)) && Connected(OfferedGraph(t, l), Members(t, l)) {
      assert OfferedGraph(t, l) == OfferedGraph(s, l) && Members(t, l) == Members(s, l);
    }
  }

  /** Every state of every run satisfies the invariant. */
  lemma {:induction false} RunKeeps(sim: Similarity, cfg: Config, dim: nat, ops: seq<Op>, s: Index)
    requires cfg.M >= 1 && Run(sim, cfg, dim, ops, s)
    ensures Inv(sim, cfg, s) && s.dim == dim
  {
    if ops == [] {
      forall l: nat ensures Symmetric(OfferedGraph(s, l)) && Connected(OfferedGraph(s, l), Members(s, l)) {}
    } else {
      var last := |ops| - 1;
      var before :| Run(sim, cfg, dim, ops[..last], before) && Step(sim, cfg, before, ops[last], s);
      RunKeeps(sim, cfg, dim, ops[..last], before);
      match ops[last]
      case OpInsert(id, vec, meta, level) =>
        if |vec| == dim { InsertKeeps(sim, cfg, before, id, vec, meta, level, s); }
      case OpDelete(id) => DeleteKeeps(sim, cfg, before, id);
    }
  }
}
