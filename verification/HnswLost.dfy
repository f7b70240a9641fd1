/**
 One slot past the bound of `SmallRunsMatchFlat`.  Where earlier vectors are always more similar than later
 ones, `2M + 2` insertions lose the last slot, whatever the similarity; module LostCosine gives such vectors
 for cosine similarity, so that bound is the best possible.
 */
module HnswLost {
  import opened Bytes
  import opened Ranking
  import opened Reachability
  import opened BeamSearch
  import opened Hnsw
  import opened HnswLists
  import opened HnswInvariant
  import opened HnswInsert
  import opened HnswRuns
  import opened HnswSearch
  import opened HnswExact
  import opened HnswTheorems
  import opened Flat

  // ---------- the run ----------

  /** From any vector's point of view, of two others the earlier one is more similar. */
  ghost predicate EarlierCloser(sim: Similarity, pts: seq<Vec>) {
    forall v, a, b :: 0 <= v < |pts| && 0 <= a < b < |pts| && a != v && b != v ==> sim(pts[v], pts[a]) > sim(pts[v], pts[b])
  }

  /** Insert the vectors in order, each on layer 0 only. */
  function HubOps(pts: seq<Vec>): (ops: seq<Op>)
    requires |pts| <= 0x1_0000_0000
    ensures |ops| == |pts| && forall i :: 0 <= i < |pts| ==> ops[i] == OpInsert(i, pts[i], [], 0)
  {
    seq(|pts|, i requires 0 <= i < |pts| => OpInsert(i, pts[i], [], 0))
  }

  /** What a slot has been offered: the first `M` slots were offered all others, the rest the first `M`. */
  ghost function HubPool(cfg: Config, n: nat, v: nat): set<nat>
    requires cfg.M >= 0
  {
    if v < cfg.M then Below(n) - {v} else Below(cfg.M)
  }

  /** Live slots in the order of their ids, on layer 0 only. */
  ghost predicate HubSlots(s: Index) {
    && s.maxLayer == 0 && s.entry == 0 && |s.vecs| <= 0x1_0000_0000
    && |s.vecs| == |s.ids| == |s.tomb| == |s.graph| == |s.offered|
    && forall v :: 0 <= v < |s.ids| ==> s.ids[v] == v && !s.tomb[v] && |s.graph[v]| == |s.offered[v]| == 1
  }

  /** Moreover who was offered whom. */
  ghost predicate Hubs(cfg: Config, s: Index)
    requires cfg.M >= 0
  {
    HubSlots(s) && forall v :: 0 <= v < |s.ids| ==> s.offered[v][0] == HubPool(cfg, |s.ids|, v)
  }

  lemma PoolGrows(cfg: Config, n: nat, v: nat)
    requires cfg.M >= 1 && v <= n
    ensures v < n ==> HubPool(cfg, n + 1, v) == HubPool(cfg, n, v) + if v < Smaller(n, cfg.M) then {n} else {}
    ensures v == n ==> HubPool(cfg, n + 1, v) == Below(Smaller(n, cfg.M))
  {
  }

  // ---------- choosing among decreasing scores ----------

  /** Scores fall with the slot, leaving out the owner's own. */
  ghost predicate Decreasing(scores: seq<real>, owner: nat) {
    forall a, b :: 0 <= a < b < |scores| && a != owner && b != owner ==> scores[a] > scores[b]
  }

  lemma OwnerScores(sim: Similarity, vecs: seq<Vec>, v: nat)
    requires v < |vecs| && EarlierCloser(sim, vecs)
    ensures Decreasing(ScoresTo(sim, vecs, vecs[v]), v)
  {
    var scores := ScoresTo(sim, vecs, vecs[v]);
    forall a, b | 0 <= a < b < |scores| && a != v && b != v ensures scores[a] > scores[b] {
      assert sim(vecs[v], vecs[a]) > sim(vecs[v], vecs[b]);
    }
  }

  /** For the newest slot, the best `m` of the slots before it are the first `m`. */
  lemma FirstAreBest(list: seq<nat>, n: nat, m: nat, scores: seq<real>)
    requires TopSelection(list, Below(n), m, scores) && Decreasing(scores, n)
    ensures SetOf(list) == Below(Smaller(n, m))
  {
    var c := Smaller(n, m);
    DistinctCount(list, SetOf(list));
    forall x: nat | x < c ensures x in SetOf(list) {
      if x !in list {
        forall kept | kept in SetOf(list) ensures kept < x {
          assert scores[x] <= scores[kept];
        }
        SubsetCount(SetOf(list), Below(x));
      }
    }
    SubsetCount(Below(c), SetOf(list));
  }

  /** A list with no room for its whole pool drops the pool's last node. */
  lemma LastIsDropped(list: seq<nat>, pool: set<nat>, cap: nat, scores: seq<real>, owner: nat, last: nat)
    requires TopSelection(list, pool, cap, scores) && Decreasing(scores, owner) && |pool| > cap
    requires owner !in pool && last in pool && forall x :: x in pool ==> x <= last
    ensures last !in list
  {
    DistinctCount(list, SetOf(list));
    if forall x :: x in pool ==> x in list {
      SubsetCount(pool, SetOf(list));
    } else {
      var x :| x in pool && x !in list;
      assert x != last ==> scores[x] > scores[last];
    }
  }

  // ---------- one insertion ----------

  /** While nothing is pruned the construction search finds all earlier slots. */
  lemma AllFound(sim: Similarity, cfg: Config, s: Index, n: nat, slot: Index, vec: Vec, out: seq<Scored>)
    requires 1 <= n == |s.ids| < 0x1_0000_0000 && Inv(sim, cfg, s) && HubSlots(s) && NothingPruned(s)
    requires slot == Append(s, n, vec, [], 0) && Hit(sim, slot, vec, 0, Larger(cfg.efConstruction, cfg.M), 0, out)
    requires cfg.efConstruction > n
    ensures out != [] && NoDuplicates(Nodes(out)) && SetOf(Nodes(out)) == Below(n)
    ensures forall e :: e in out ==> e.node < |slot.vecs| && e.score == sim(vec, slot.vecs[e.node])
  {
    FirstReached(sim, cfg, s, n, slot, vec);
    hide HubSlots, Inv, ReachableFrom, Append, NothingPruned;
    assert |ReachableFrom(slot.graph, 0, 0)| == n;
    WideSearchFindsReached(sim, slot, vec, 0, Larger(cfg.efConstruction, cfg.M), out);
    assert 0 in Below(n) && 0 in Nodes(out);
    assert SetOf(Nodes(out)) == Below(n);
  }

  lemma FirstReached(sim: Similarity, cfg: Config, s: Index, n: nat, slot: Index, vec: Vec)
    requires 1 <= n == |s.ids| < 0x1_0000_0000 && Inv(sim, cfg, s) && HubSlots(s) && NothingPruned(s)
    requires slot == Append(s, n, vec, [], 0)
    ensures ReachableFrom(slot.graph, 0, 0) == Below(n)
  {
    var reach := ReachableFrom(slot.graph, 0, 0);
    forall v: nat | v < n ensures v in reach { OldReached(sim, cfg, s, n, slot, vec, v); }
    forall v | v in reach ensures v < n { NewNotReached(sim, cfg, s, n, slot, vec, v); }
  }

  lemma OldReached(sim: Similarity, cfg: Config, s: Index, n: nat, slot: Index, vec: Vec, v: nat)
    requires 1 <= n == |s.ids| < 0x1_0000_0000 && v < n && Inv(sim, cfg, s) && HubSlots(s) && NothingPruned(s)
    requires slot == Append(s, n, vec, [], 0)
    ensures v in ReachableFrom(slot.graph, 0, 0)
  {
    LinksAreOffered(s);
    assert 0 in Members(s, 0) && v in Members(s, 0);
    assert Reaches(OfferedGraph(s, 0), 0, v);
    var small, big := LayerLinks(s.graph, 0), LayerLinks(slot.graph, 0);
    forall x | 0 <= x < n ensures small[x] <= big[x] { assert slot.graph[x] == s.graph[x]; }
    ReachesGrows(small, big, 0, v);
  }

  lemma NewNotReached(sim: Similarity, cfg: Config, s: Index, n: nat, slot: Index, vec: Vec, v: nat)
    requires 1 <= n == |s.ids| < 0x1_0000_0000 && Inv(sim, cfg, s) && HubSlots(s)
    requires slot == Append(s, n, vec, [], 0) && v in ReachableFrom(slot.graph, 0, 0)
    ensures v < n
  {
    ListsInRange(sim, cfg, s, 0);
    var adj := LayerLinks(slot.graph, 0);
    forall a, x | a in Below(n) && a < |adj| && x in adj[a] ensures x in Below(n) {
      assert slot.graph[a] == s.graph[a];
      var i :| 0 <= i < |Links(slot.graph, 0, a)| && Links(slot.graph, 0, a)[i] == x;
      assert Links(s.graph, 0, a)[i] < |s.graph|;
    }
    ClosedHoldsReachable(adj, Below(n), 0, v);
  }

  /** With everything on layer 0 there is no descent and a single layer to link. */
  lemma OneLayer(sim: Similarity, cfg: Config, s: Index, id: u64, vec: Vec, t: Index) returns (next: nat)
    requires s.ids != [] && s.entry == 0 && s.maxLayer == 0 && Insert(sim, cfg, s, id, vec, [], 0, t)
    ensures LinkLayer(sim, cfg, Append(s, id, vec, [], 0), vec, |s.ids|, 0, 0, t, next)
  {
    hide Insert, LinkLayer, LinkLayers, Descend;
    var ep, linked, last := InsertParts(sim, cfg, s, id, vec, [], 0, t);
    OnlyLayer(sim, cfg, Append(s, id, vec, [], 0), vec, |s.ids|, ep, linked, last);
    next := last;
  }

  lemma OnlyLayer(sim: Similarity, cfg: Config, slot: Index, vec: Vec, q: nat, ep: nat, linked: Index, last: nat)
    requires slot.entry == 0 && Descend(sim, slot, vec, slot.entry, 0, 0, ep)
    requires LinkLayers(sim, cfg, slot, vec, q, ep, 0, -1, linked, last)
    ensures ep == 0 && LinkLayer(sim, cfg, slot, vec, q, ep, 0, linked, last)
  {
    hide LinkLayer;
    var mid, at :|
      && LinkLayers(sim, cfg, slot, vec, q, ep, 0, Above(-1), mid, at)
      && LinkLayer(sim, cfg, mid, vec, q, at, Above(-1), linked, last);
  }

  lemma EntryNode(out: seq<Scored>, e: Scored)
    requires e in out
    ensures e.node in Nodes(out)
  {
    var i :| 0 <= i < |out| && out[i] == e;
    assert Nodes(out)[i] == e.node;
  }

  lemma FirstNeighbours(sim: Similarity, cfg: Config, n: nat, vecs: seq<Vec>, out: seq<Scored>, nbs: seq<nat>)
    requires cfg.M >= 1 && |vecs| == n + 1 && EarlierCloser(sim, vecs)
    requires NoDuplicates(Nodes(out)) && SetOf(Nodes(out)) == Below(n)
    requires forall e :: e in out ==> e.node < |vecs| && e.score == sim(vecs[n], vecs[e.node])
    requires Select(out, cfg.M, nbs)
    ensures SetOf(nbs) == Below(Smaller(n, cfg.M))
  {
    OwnerScores(sim, vecs, n);
    hide EarlierCloser;
    var scores := ScoresTo(sim, vecs, vecs[n]);
    SelectIsTop(out, cfg.M, nbs, scores);
    FirstAreBest(nbs, n, cfg.M, scores);
  }

  /** The new slot as the linking lemmas want to see it. */
  lemma NewSlot(s: Index, n: nat, vec: Vec, slot: Index)
    requires 1 <= n == |s.ids| < 0x1_0000_0000 && HubSlots(s) && slot == Append(s, n, vec, [], 0)
    ensures HasLayer(slot, n, 0) && slot.vecs == s.vecs + [vec] && |slot.vecs| == n + 1 && slot.vecs[n] == vec
    ensures forall v: nat :: v < n ==> OfferedTo(slot, v, 0) == s.offered[v][0]
    ensures OfferedTo(slot, n, 0) == {}
    ensures forall v: nat :: v < n ==> v in Others(slot, n, 0)
  {
  }

  lemma HubJoined(sim: Similarity, cfg: Config, n: nat, slot: Index, out: seq<Scored>, nbs: seq<nat>, t: Index)
    requires cfg.M >= 1 && Halfway(sim, cfg, slot, n, 0) && HasLayer(slot, n, 0)
    requires |slot.vecs| == n + 1 && EarlierCloser(sim, slot.vecs)
    requires forall v: nat :: v < n ==> v in Others(slot, n, 0)
    requires out != [] && NoDuplicates(Nodes(out)) && SetOf(Nodes(out)) == Below(n)
    requires forall e :: e in out ==> e.node < |slot.vecs| && e.score == sim(slot.vecs[n], slot.vecs[e.node])
    requires Select(out, cfg.M, nbs)
    requires BackLinks(sim, cfg, PutList(slot, n, 0, nbs, SetOf(nbs)), n, 0, nbs, t)
    ensures SameSlots(slot, t) && JoinedOn(slot, t, 0, n, Below(Smaller(n, cfg.M)))
  {
    FirstNeighbours(sim, cfg, n, slot.vecs, out, nbs);
    forall e | e in out ensures e.node in Others(slot, n, 0) {
      EntryNode(out, e);
      assert e.node in SetOf(Nodes(out));
    }
    assert Unlinked(slot, n, 0);
    hide BackLinks, Select, Others, LayersHalfway, EarlierCloser;
    FirstList(sim, cfg, slot, n, 0, out, nbs);
    AfterFirstList(sim, cfg, slot, n, 0, nbs, t);
  }

  lemma HubsGrow(cfg: Config, s: Index, n: nat, vec: Vec, slot: Index, t: Index)
    requires cfg.M >= 1 && 1 <= n == |s.ids| < 0x1_0000_0000 && Hubs(cfg, s) && slot == Append(s, n, vec, [], 0)
    requires SameSlots(slot, t) && JoinedOn(slot, t, 0, n, Below(Smaller(n, cfg.M)))
    ensures Hubs(cfg, t)
  {
    NewSlot(s, n, vec, slot);
    assert HubSlots(t);
    forall v: nat | v < n + 1 ensures t.offered[v][0] == HubPool(cfg, n + 1, v) {
      assert OfferedTo(t, v, 0) == t.offered[v][0];
      PoolGrows(cfg, n, v);
    }
  }

  lemma FirstHub(cfg: Config, s: Index, vec: Vec, t: Index)
    requires cfg.M >= 1 && |s.ids| == 0 && HubSlots(s) && t == Append(s, 0, vec, [], 0)
    ensures Hubs(cfg, t)
  {
    PoolGrows(cfg, 0, 0);
    assert NoOffers(1)[0] == {};
  }

  /** One more insertion, as long as no list was pruned before it. */
  lemma HubInsert(sim: Similarity, cfg: Config, s: Index, n: nat, vec: Vec, t: Index)
    requires cfg.M >= 1 && |s.ids| == n <= 2 * cfg.M + 1 && n < 0x1_0000_0000 && cfg.efConstruction > n && |vec| == s.dim
    requires Inv(sim, cfg, s) && Hubs(cfg, s) && EarlierCloser(sim, s.vecs + [vec]) && Insert(sim, cfg, s, n, vec, [], 0, t)
    ensures Hubs(cfg, t)
  {
    hide Descend, LinkLayers, Append, HubPool, EarlierCloser, Inv;
    if n == 0 {
      FirstHub(cfg, s, vec, t);
    } else {
      NextHubInsert(sim, cfg, s, n, vec, Append(s, n, vec, [], 0), t);
    }
  }

  lemma NextHubInsert(sim: Similarity, cfg: Config, s: Index, n: nat, vec: Vec, slot: Index, t: Index)
    requires cfg.M >= 1 && 1 <= n == |s.ids| <= 2 * cfg.M + 1 && n < 0x1_0000_0000 && cfg.efConstruction > n && |vec| == s.dim
    requires Inv(sim, cfg, s) && Hubs(cfg, s) && EarlierCloser(sim, s.vecs + [vec]) && slot == Append(s, n, vec, [], 0)
    requires Insert(sim, cfg, s, n, vec, [], 0, t)
    ensures Hubs(cfg, t)
  {
    assert s.entry == 0 && s.maxLayer == 0;
    hide Append, Insert, LinkLayer, Inv, Halfway, Hit, Select, BackLinks, Others, HubPool, HubSlots, JoinedOn, SameSlots, EarlierCloser;
    var next := OneLayer(sim, cfg, s, n, vec, t);
    var out, nbs := LinkParts(sim, cfg, slot, vec, n, 0, 0, t, next);
    NextHubLinked(sim, cfg, s, n, vec, slot, out, nbs, t);
    HubsGrow(cfg, s, n, vec, slot, t);
  }

  lemma NextHubLinked(sim: Similarity, cfg: Config, s: Index, n: nat, vec: Vec, slot: Index, out: seq<Scored>, nbs: seq<nat>, t: Index)
    requires cfg.M >= 1 && 1 <= n == |s.ids| <= 2 * cfg.M + 1 && n < 0x1_0000_0000 && cfg.efConstruction > n && |vec| == s.dim
    requires Inv(sim, cfg, s) && Hubs(cfg, s) && EarlierCloser(sim, s.vecs + [vec]) && slot == Append(s, n, vec, [], 0)
    requires Hit(sim, slot, vec, 0, Larger(cfg.efConstruction, cfg.M), 0, out) && Select(out, cfg.M, nbs)
    requires HasLayer(slot, n, 0) && BackLinks(sim, cfg, PutList(slot, n, 0, nbs, SetOf(nbs)), n, 0, nbs, t)
    ensures SameSlots(slot, t) && JoinedOn(slot, t, 0, n, Below(Smaller(n, cfg.M)))
  {
    assert s.maxLayer == 0;
    hide Append, Inv, Halfway, Hit, Select, BackLinks, Others, HubPool, HubSlots, JoinedOn, SameSlots, EarlierCloser;
    SmallIndexUnpruned(sim, cfg, s);
    AppendHalfway(sim, cfg, s, n, vec, [], 0);
    NewSlot(s, n, vec, slot);
    AllFound(sim, cfg, s, n, slot, vec, out);
    HubJoined(sim, cfg, n, slot, out, nbs, t);
  }

  // ---------- the whole run ----------

  ghost predicate Admissible(sim: Similarity, cfg: Config, dim: nat, pts: seq<Vec>) {
    && cfg.M >= 1 && |pts| <= 2 * cfg.M + 2 && |pts| <= 0x1_0000_0000 && cfg.efConstruction >= |pts|
    && EarlierCloser(sim, pts) && forall i :: 0 <= i < |pts| ==> |pts[i]| == dim
  }

  lemma AdmissiblePrefix(sim: Similarity, cfg: Config, dim: nat, pts: seq<Vec>)
    requires Admissible(sim, cfg, dim, pts) && pts != []
    ensures Admissible(sim, cfg, dim, pts[..|pts| - 1])
  {
    var rest := pts[..|pts| - 1];
    forall v, a, b | 0 <= v < |rest| && 0 <= a < b < |rest| && a != v && b != v ensures sim(rest[v], rest[a]) > sim(rest[v], rest[b]) {
      assert sim(pts[v], pts[a]) > sim(pts[v], pts[b]);
    }
  }

  lemma LastRun(sim: Similarity, cfg: Config, dim: nat, pts: seq<Vec>, s: Index) returns (before: Index)
    requires pts != [] && |pts| <= 0x1_0000_0000 && Run(sim, cfg, dim, HubOps(pts), s)
    ensures Run(sim, cfg, dim, HubOps(pts[..|pts| - 1]), before)
    ensures Step(sim, cfg, before, OpInsert(|pts| - 1, pts[|pts| - 1], [], 0), s)
  {
    hide Step;
    var n := |pts| - 1;
    assert HubOps(pts)[..n] == HubOps(pts[..n]);
    before :| Run(sim, cfg, dim, HubOps(pts)[..n], before) && Step(sim, cfg, before, HubOps(pts)[n], s);
  }

  lemma {:induction false} HubRun(sim: Similarity, cfg: Config, dim: nat, pts: seq<Vec>, s: Index)
    requires Admissible(sim, cfg, dim, pts) && Run(sim, cfg, dim, HubOps(pts), s)
    ensures Inv(sim, cfg, s) && Hubs(cfg, s) && s.vecs == pts && s.dim == dim
    decreases |pts|
  {
    RunKeeps(sim, cfg, dim, HubOps(pts), s);
    if pts == [] {
      NoHubsYet(sim, cfg, dim, s);
    } else {
      hide Run, HubOps, Inv, Hubs, EarlierCloser, Step;
      var before := LastRun(sim, cfg, dim, pts, s);
      AdmissiblePrefix(sim, cfg, dim, pts);
      HubRun(sim, cfg, dim, pts[..|pts| - 1], before);
      HubNext(sim, cfg, dim, pts, before, s);
    }
  }

  lemma HubNext(sim: Similarity, cfg: Config, dim: nat, pts: seq<Vec>, before: Index, s: Index)
    requires pts != [] && Admissible(sim, cfg, dim, pts)
    requires Inv(sim, cfg, before) && Hubs(cfg, before) && before.vecs == pts[..|pts| - 1] && before.dim == dim
    requires Step(sim, cfg, before, OpInsert(|pts| - 1, pts[|pts| - 1], [], 0), s)
    ensures Hubs(cfg, s) && s.vecs == pts
  {
    hide Inv, Hubs, EarlierCloser, Step;
    assert pts == before.vecs + [pts[|pts| - 1]];
    HubStep(sim, cfg, before, |pts| - 1, pts[|pts| - 1], s);
  }

  lemma NoHubsYet(sim: Similarity, cfg: Config, dim: nat, s: Index)
    requires cfg.M >= 1 && Run(sim, cfg, dim, HubOps([]), s)
    ensures Hubs(cfg, s) && s.vecs == [] && s.dim == dim
  {
  }

  lemma HubStep(sim: Similarity, cfg: Config, s: Index, n: nat, vec: Vec, t: Index)
    requires cfg.M >= 1 && |s.vecs| == n <= 2 * cfg.M + 1 && n < 0x1_0000_0000 && cfg.efConstruction > n && |vec| == s.dim
    requires Inv(sim, cfg, s) && Hubs(cfg, s) && EarlierCloser(sim, s.vecs + [vec]) && Step(sim, cfg, s, OpInsert(n, vec, [], 0), t)
    ensures Hubs(cfg, t) && t.vecs == s.vecs + [vec]
  {
    hide Inv, Insert, EarlierCloser;
    assert |s.ids| == n;
    HubInsert(sim, cfg, s, n, vec, t);
    InsertKeeps(sim, cfg, s, n, vec, [], 0, t);
  }

  // ---------- the last slot ----------

  lemma HubList(sim: Similarity, cfg: Config, s: Index, v: nat)
    requires cfg.M >= 1 && v < |s.ids| && Inv(sim, cfg, s) && Hubs(cfg, s) && EarlierCloser(sim, s.vecs)
    ensures |s.graph| == |s.vecs| == |s.ids| && s.graph[v] != []
    ensures TopSelection(s.graph[v][0], HubPool(cfg, |s.ids|, v), 2 * cfg.M, ScoresTo(sim, s.vecs, s.vecs[v]))
    ensures Decreasing(ScoresTo(sim, s.vecs, s.vecs[v]), v)
  {
    OwnerScores(sim, s.vecs, v);
    hide LayersConnected, EntryOk, TopSelection, HubPool, EarlierCloser, Decreasing;
    assert HasLayer(s, v, 0) && ListOk(sim, cfg, s, v, 0);
  }

  /** The last of more than `M` slots was offered to the first `M` slots only, and they were offered all others. */
  lemma LastOffered(cfg: Config, n: nat, v: nat)
    requires cfg.M >= 1 && v < n && cfg.M < n
    ensures v >= cfg.M ==> n - 1 !in HubPool(cfg, n, v)
    ensures v < cfg.M ==> |HubPool(cfg, n, v)| == n - 1 && n - 1 in HubPool(cfg, n, v) && v !in HubPool(cfg, n, v)
    ensures forall x :: x in HubPool(cfg, n, v) ==> x <= n - 1
  {
    if v < cfg.M { assert Below(n) == HubPool(cfg, n, v) + {v}; }
  }

  /** The first `M` lists have no room for the last slot, and no other was offered it. */
  lemma LastUnlinked(sim: Similarity, cfg: Config, s: Index, v: nat)
    requires cfg.M >= 1 && v < |s.ids| == 2 * cfg.M + 2 && Inv(sim, cfg, s) && Hubs(cfg, s) && EarlierCloser(sim, s.vecs)
    ensures |s.graph| == 2 * cfg.M + 2 && s.graph[v] != [] && 2 * cfg.M + 1 !in s.graph[v][0]
  {
    hide Inv, Hubs, EarlierCloser, Decreasing, TopSelection, HubPool;
    HubList(sim, cfg, s, v);
    LastNotChosen(cfg, s.graph[v][0], v, ScoresTo(sim, s.vecs, s.vecs[v]));
  }

  lemma LastNotChosen(cfg: Config, list: seq<nat>, v: nat, scores: seq<real>)
    requires cfg.M >= 1 && Decreasing(scores, v) && v < 2 * cfg.M + 2
    requires TopSelection(list, HubPool(cfg, 2 * cfg.M + 2, v), 2 * cfg.M, scores)
    ensures 2 * cfg.M + 1 !in list
  {
    hide Decreasing, TopSelection, HubPool;
    var pool := HubPool(cfg, 2 * cfg.M + 2, v);
    LastOffered(cfg, 2 * cfg.M + 2, v);
    if v < cfg.M {
      LastIsDropped(list, pool, 2 * cfg.M, scores, v, 2 * cfg.M + 1);
    } else {
      ListInPool(list, pool, 2 * cfg.M, scores, 2 * cfg.M + 1);
    }
  }

  lemma ListInPool(list: seq<nat>, pool: set<nat>, cap: nat, scores: seq<real>, x: nat)
    requires TopSelection(list, pool, cap, scores) && x !in pool
    ensures x !in list
  {
  }

  lemma LastOutside(sim: Similarity, cfg: Config, s: Index)
    requires cfg.M >= 1 && |s.ids| == 2 * cfg.M + 2 && Inv(sim, cfg, s) && Hubs(cfg, s) && EarlierCloser(sim, s.vecs)
    ensures ReachableFrom(s.graph, 0, 0) <= Below(2 * cfg.M + 1)
  {
    ListsInRange(sim, cfg, s, 0);
    var adj := LayerLinks(s.graph, 0);
    hide Inv, Hubs, EarlierCloser, ReachableFrom;
    forall v, x | v in Below(2 * cfg.M + 1) && v < |adj| && x in adj[v] ensures x in Below(2 * cfg.M + 1) {
      LastNotLinked(sim, cfg, s, v, x);
    }
    ClosedHoldsAll(s.graph, 0, 0, Below(2 * cfg.M + 1));
  }

  lemma LastNotLinked(sim: Similarity, cfg: Config, s: Index, v: nat, x: nat)
    requires cfg.M >= 1 && v < |s.ids| == 2 * cfg.M + 2 && Inv(sim, cfg, s) && Hubs(cfg, s) && EarlierCloser(sim, s.vecs)
    requires LinksInRange(s.graph, 0) && v < |s.graph| && x in LayerLinks(s.graph, 0)[v]
    ensures x in Below(2 * cfg.M + 1)
  {
    hide Inv, Hubs, EarlierCloser;
    LastUnlinked(sim, cfg, s, v);
    assert Links(s.graph, 0, v) == s.graph[v][0];
    var i :| 0 <= i < |Links(s.graph, 0, v)| && Links(s.graph, 0, v)[i] == x;
  }

  /** The last slot is live, and no search reaches it. */
  lemma LastSlotLost(sim: Similarity, cfg: Config, dim: nat, pts: seq<Vec>, s: Index, query: Vec)
    requires Admissible(sim, cfg, dim, pts) && |pts| == 2 * cfg.M + 2 && Run(sim, cfg, dim, HubOps(pts), s)
    ensures |s.ids| == |s.tomb| == 2 * cfg.M + 2
    ensures forall v :: 0 <= v < 2 * cfg.M + 2 ==> s.ids[v] == v && !s.tomb[v]
    ensures Reached(sim, s, query) <= Below(2 * cfg.M + 1)
  {
    hide Run, HubOps, Inv, HubPool, ReachableFrom, EarlierCloser, Reached;
    HubRun(sim, cfg, dim, pts, s);
    LastOutside(sim, cfg, s);
    StartsAtFirst(sim, s, query);
  }

  lemma StartsAtFirst(sim: Similarity, s: Index, query: Vec)
    requires |s.ids| >= 1 && HubSlots(s)
    ensures Reached(sim, s, query) <= ReachableFrom(s.graph, 0, 0)
  {
    hide ReachableFrom;
    assert StartNode(s) == 0;
  }

  /** So even the widest search does not always match a scan. */
  lemma LastSlotMissed(sim: Similarity, cfg: Config, dim: nat, pts: seq<Vec>, s: Index, ef: int, query: Vec)
    requires Admissible(sim, cfg, dim, pts) && |pts| == 2 * cfg.M + 2 && Run(sim, cfg, dim, HubOps(pts), s) && ef >= |pts|
    ensures !AlwaysMatchesFlat(sim, ef, s, FlatRun(dim, HubOps(pts)), query)
  {
    hide Run, HubOps, Inv, Reached, EarlierCloser, AlwaysMatchesFlat, FlatRun;
    LastSlotLost(sim, cfg, dim, pts, s, query);
    RunKeeps(sim, cfg, dim, HubOps(pts), s);
    SlotCounts(sim, cfg, s);
    WideEnough(sim, ef, s, query);
    assert !s.tomb[2 * cfg.M + 1] && 2 * cfg.M + 1 !in Reached(sim, s, query);
    MatchesFlatIffReached(sim, cfg, dim, HubOps(pts), s, ef, query);
  }

  lemma SlotCounts(sim: Similarity, cfg: Config, s: Index)
    requires Inv(sim, cfg, s)
    ensures |s.ids| == |s.graph|
  {
  }
}
