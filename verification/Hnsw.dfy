/**
 The HNSW index as a value, and its operations as relations on values.

 The operations are relations because `std::sort` leaves the order of equally similar nodes open:
 a relation holds for every outcome the source may produce.  `offered` is a history variable: it
 records everything ever offered to a neighbour list, whether or not it was pruned later.
 */
module Hnsw {
  import opened Bytes
  import opened Ranking
  import opened BeamSearch

  /** Any similarity function; the theorems hold for each. */
  type Similarity = (Vec, Vec) -> real

  /** Rejections of either index. */
  datatype Error = DimensionMismatch

  datatype Config = Config(M: int, efConstruction: int, efSearch: int)

  datatype Index = Index(
    dim: nat,
    vecs: seq<Vec>,
    ids: seq<u64>,
    metas: seq<Data>,
    tomb: seq<bool>,
    graph: Graph,
    offered: seq<seq<set<nat>>>,
    maxLayer: nat,
    entry: nat)

  function Empty(dim: nat): Index {
    Index(dim, [], [], [], [], [], [], 0, 0)
  }

  function Mmax(cfg: Config, layer: nat): int {
    if layer == 0 then cfg.M * 2 else cfg.M
  }

  function Larger(a: int, b: int): int {
    if a < b then b else a
  }

  function Smaller(a: int, b: int): int {
    if a < b then a else b
  }

  function ScoresTo(sim: Similarity, vecs: seq<Vec>, query: Vec): (r: seq<real>)
    ensures |r| == |vecs|
    ensures forall v :: 0 <= v < |vecs| ==> r[v] == sim(query, vecs[v])
  {
    seq(|vecs|, v requires 0 <= v < |vecs| => sim(query, vecs[v]))
  }

  // ---------- neighbour selection ----------

  /** `picked` is what `select_neighbours_` may return: the first `m` of the sorted candidates. */
  ghost predicate Select(cands: seq<Scored>, m: int, picked: seq<nat>) {
    exists sorted :: SortedCopy(sorted, cands) && picked == Nodes(TakeUpTo(sorted, Larger(m, 0)))
  }

  /** Keeps at most `cap` of `pool`, none of the dropped ones better than a kept one. */
  ghost predicate TopSelection(list: seq<nat>, pool: set<nat>, cap: int, scores: seq<real>) {
    && NoDuplicates(list)
    && (forall x :: x in pool ==> x < |scores|)
    && (forall x :: x in list ==> x in pool)
    && |list| == Smaller(|pool|, cap)
    && forall kept, dropped :: kept in list && dropped in pool && dropped !in list ==> scores[dropped] <= scores[kept]
  }

  // ---------- searching one layer ----------

  /** `out` is a possible result of `search_layer_`. */
  ghost predicate Hit(sim: Similarity, s: Index, query: Vec, ep: nat, ef: int, layer: nat, out: seq<Scored>) {
    && |s.vecs| == |s.graph| && LinksInRange(s.graph, layer) && ep < |s.graph|
    && SortedCopy(out, SearchLayer(s.graph, layer, ScoresTo(sim, s.vecs, query), ep, ef))
  }

  function Front(out: seq<Scored>, ep: nat): nat {
    if out == [] then ep else out[0].node
  }

  /** The layer handled just before the loops reach `lo`. */
  function Above(lo: int): nat
    requires lo >= -1
  {
    lo + 1
  }

  /** Greedy descent over layers `hi`, ..., `lo + 1`, starting at `start` and ending at `ep`. */
  ghost predicate Descend(sim: Similarity, s: Index, query: Vec, start: nat, hi: int, lo: int, ep: nat)
    requires lo >= -1
    decreases hi - lo
  {
    if hi <= lo then ep == start
    else exists prev, out ::
      && Descend(sim, s, query, start, hi, Above(lo), prev)
      && Hit(sim, s, query, prev, 1, Above(lo), out)
      && ep == Front(out, prev)
  }

  // ---------- insertion ----------

  /** `n` layers without links. */
  function NoLinks(n: nat): (r: seq<seq<nat>>)
    ensures |r| == n && forall l :: 0 <= l < n ==> r[l] == []
  {
    seq(n, _ => [])
  }

  function NoOffers(n: nat): (r: seq<set<nat>>)
    ensures |r| == n && forall l :: 0 <= l < n ==> r[l] == {}
  {
    seq(n, _ => {})
  }

  /** First lock region: a new slot with `level + 1` empty layers. */
  function Append(s: Index, id: u64, vec: Vec, meta: Data, level: nat): Index {
    var q := |s.ids|;
    s.(vecs := s.vecs + [vec],
       ids := s.ids + [id],
       metas := s.metas + [meta],
       tomb := s.tomb + [false],
       graph := s.graph + [NoLinks(level + 1)],
       offered := s.offered + [NoOffers(level + 1)],
       maxLayer := if q == 0 then level else s.maxLayer,
       entry := if q == 0 then 0 else s.entry)
  }

  predicate HasLayer(s: Index, v: nat, layer: nat) {
    v < |s.graph| && v < |s.offered| && layer < |s.graph[v]| && layer < |s.offered[v]|
  }

  /** `graph_[v][layer] = list`, with `pool` added to what was offered there. */
  function PutList(s: Index, v: nat, layer: nat, list: seq<nat>, pool: set<nat>): Index
    requires HasLayer(s, v, layer)
  {
    s.(graph := s.graph[v := s.graph[v][layer := list]],
       offered := s.offered[v := s.offered[v][layer := s.offered[v][layer] + pool]])
  }

  function SetOf(list: seq<nat>): set<nat> {
    set x | x in list
  }

  /** `graph_[nb].resize(layer + 1)` when the node does not reach up to the layer. */
  function Raise(s: Index, v: nat, layer: nat): (r: Index)
    requires v < |s.graph| && v < |s.offered| && |s.graph[v]| == |s.offered[v]|
    ensures HasLayer(r, v, layer)
    ensures HasLayer(s, v, layer) ==> r == s
  {
    if layer < |s.graph[v]| then s
    else
      var missing := layer + 1 - |s.graph[v]|;
      s.(graph := s.graph[v := s.graph[v] + NoLinks(missing)],
         offered := s.offered[v := s.offered[v] + NoOffers(missing)])
  }

  function Rated(sim: Similarity, vecs: seq<Vec>, owner: nat, list: seq<nat>): (r: seq<Scored>)
    requires owner < |vecs| && forall i :: 0 <= i < |list| ==> list[i] < |vecs|
    ensures |r| == |list|
    ensures forall i :: 0 <= i < |list| ==> r[i] == Scored(sim(vecs[owner], vecs[list[i]]), list[i])
  {
    seq(|list|, i requires 0 <= i < |list| => Scored(sim(vecs[owner], vecs[list[i]]), list[i]))
  }

  /** The list a node keeps after a push: unchanged while it fits, pruned to the cap otherwise. */
  ghost predicate Pruned(sim: Similarity, vecs: seq<Vec>, owner: nat, cap: int, pushed: seq<nat>, list: seq<nat>) {
    if |pushed| <= cap then list == pushed
    else
      && owner < |vecs| && (forall i :: 0 <= i < |pushed| ==> pushed[i] < |vecs|)
      && Select(Rated(sim, vecs, owner, pushed), cap, list)
  }

  /** One back-link region: push `q` onto `nb`'s list and prune it. */
  ghost predicate BackLink(sim: Similarity, cfg: Config, s: Index, q: nat, layer: nat, nb: nat, t: Index) {
    && nb < |s.graph| && nb < |s.offered| && |s.graph[nb]| == |s.offered[nb]|
    && var r := Raise(s, nb, layer);
       exists list ::
         && Pruned(sim, s.vecs, nb, Mmax(cfg, layer), r.graph[nb][layer] + [q], list)
         && t == PutList(r, nb, layer, list, {q})
  }

  ghost predicate BackLinks(sim: Similarity, cfg: Config, s: Index, q: nat, layer: nat, nbs: seq<nat>, t: Index) {
    if nbs == [] then t == s
    else
      var last := |nbs| - 1;
      exists mid :: BackLinks(sim, cfg, s, q, layer, nbs[..last], mid) && BackLink(sim, cfg, mid, q, layer, nbs[last], t)
  }

  /** Link `q` on one layer, entering at `ep`; `next` is the entry for the layer below. */
  ghost predicate LinkLayer(sim: Similarity, cfg: Config, s: Index, vec: Vec, q: nat, ep: nat, layer: nat, t: Index, next: nat) {
    exists out, nbs ::
      && Hit(sim, s, vec, ep, Larger(cfg.efConstruction, cfg.M), layer, out)
      && Select(out, cfg.M, nbs)
      && HasLayer(s, q, layer)
      && BackLinks(sim, cfg, PutList(s, q, layer, nbs, SetOf(nbs)), q, layer, nbs, t)
      && next == Front(out, ep)
  }

  /** Link `q` on layers `hi`, ..., `lo + 1`. */
  ghost predicate LinkLayers(sim: Similarity, cfg: Config, s: Index, vec: Vec, q: nat, ep: nat, hi: int, lo: int,
                             t: Index, next: nat)
    requires lo >= -1
    decreases hi - lo
  {
    if hi <= lo then t == s && next == ep
    else exists mid, at ::
      && LinkLayers(sim, cfg, s, vec, q, ep, hi, Above(lo), mid, at)
      && LinkLayer(sim, cfg, mid, vec, q, at, Above(lo), t, next)
  }

  /** Last lock region: a node taller than all others becomes the entry point. */
  function Crown(s: Index, q: nat, level: nat): Index {
    if level > s.maxLayer then s.(maxLayer := level, entry := q) else s
  }

  /** `insert` of a vector of the right dimension, with the random level it drew. */
  ghost predicate Insert(sim: Similarity, cfg: Config, s: Index, id: u64, vec: Vec, meta: Data, level: nat, t: Index) {
    var q := |s.ids|;
    var appended := Append(s, id, vec, meta, level);
    if q == 0 then t == appended
    else exists ep, linked, last ::
      && Descend(sim, appended, vec, appended.entry, appended.maxLayer, level, ep)
      && LinkLayers(sim, cfg, appended, vec, q, ep, Smaller(level, appended.maxLayer), -1, linked, last)
      && t == Crown(linked, q, level)
  }

  // ---------- deletion ----------

  /** The first slot holding `id`, or the number of slots. */
  function FirstSlot(ids: seq<u64>, id: u64): (i: nat)
    ensures i <= |ids|
    ensures i < |ids| ==> ids[i] == id
    ensures forall j :: 0 <= j < i ==> ids[j] != id
  {
    if ids == [] then 0 else if ids[0] == id then 0 else 1 + FirstSlot(ids[1..], id)
  }

  function Delete(s: Index, id: u64): Index {
    var i := FirstSlot(s.ids, id);
    if i < |s.tomb| then s.(tomb := s.tomb[i := true]) else s
  }

  predicate IsDeleted(s: Index, id: u64) {
    var i := FirstSlot(s.ids, id);
    i < |s.tomb| && s.tomb[i]
  }

  // ---------- search ----------

  function FirstLive(tomb: seq<bool>): (i: nat)
    ensures i <= |tomb|
    ensures i < |tomb| ==> !tomb[i]
    ensures forall j :: 0 <= j < i ==> tomb[j]
  {
    if tomb == [] then 0 else if !tomb[0] then 0 else 1 + FirstLive(tomb[1..])
  }

  datatype Answer = Answer(score: real, id: u64)

  /** The loop that collects live candidates; it stops only when it holds exactly `k` answers. */
  function Collect(cands: seq<Scored>, tomb: seq<bool>, ids: seq<u64>, k: int, got: seq<Answer>): seq<Answer>
    requires |tomb| == |ids| && forall i :: 0 <= i < |cands| ==> cands[i].node < |ids|
  {
    if cands == [] then got
    else if tomb[cands[0].node] then Collect(cands[1..], tomb, ids, k, got)
    else
      var more := got + [Answer(cands[0].score, ids[cands[0].node])];
      if |more| == k then more else Collect(cands[1..], tomb, ids, k, more)
  }

  /** The node the search starts from: the entry point, or the first live slot if that is deleted. */
  function StartNode(s: Index): nat {
    if s.entry < |s.tomb| && s.tomb[s.entry] then FirstLive(s.tomb) else s.entry
  }

  ghost predicate NodesBelow(cands: seq<Scored>, n: nat) {
    forall i :: 0 <= i < |cands| ==> cands[i].node < n
  }

  /** `out` is a possible answer of `search`. */
  ghost predicate Search(sim: Similarity, ef: int, s: Index, query: Vec, k: int, out: seq<Answer>) {
    if s.ids == [] || StartNode(s) == |s.tomb| then out == []
    else exists ep, cands ::
      && Descend(sim, s, query, StartNode(s), s.maxLayer, 0, ep)
      && Hit(sim, s, query, ep, ef, 0, cands)
      && |s.tomb| == |s.ids| && NodesBelow(cands, |s.ids|)
      && out == Collect(cands, s.tomb, s.ids, k, [])
  }

  // ---------- runs ----------

  datatype Op =
    | OpInsert(id: u64, vec: Vec, meta: Data, level: nat)
    | OpDelete(id: u64)

  ghost predicate Step(sim: Similarity, cfg: Config, s: Index, op: Op, t: Index) {
    match op
    case OpInsert(id, vec, meta, level) =>
      // a vector of the wrong dimension is rejected before anything changes
      if |vec| != s.dim then t == s else Insert(sim, cfg, s, id, vec, meta, level, t)
    case OpDelete(id) => t == Delete(s, id)
  }

  /** `s` can be the state after the operations `ops` on a new index. */
  ghost predicate Run(sim: Similarity, cfg: Config, dim: nat, ops: seq<Op>, s: Index) {
    if ops == [] then s == Empty(dim)
    else
      var last := |ops| - 1;
      exists before :: Run(sim, cfg, dim, ops[..last], before) && Step(sim, cfg, before, ops[last], s)
  }
}
