/**
 What overlapping insertions can lose.  Writing a new node's list of a layer replaces whatever other threads have
 linked back to it there in the meantime.  Three insertions are enough to lose a slot that way; without overlap
 no index of that size loses any (module HnswTheorems).
 */
module Overlap {
  import opened Bytes
  import opened Ranking
  import opened Reachability
  import opened BeamSearch
  import opened Hnsw
  import opened HnswExact
  import opened Schedules
  import opened Floats
  import opened LostCosine
  import C = Concurrent
  import P = InnerProduct

  // ---------- what the system can come to ----------

  /** Some interleaving reaches this state. */
  ghost predicate Occurs(sim: Similarity, cfg: Config, dim: nat, s: C.System) {
    exists run, actions :: C.Execution(sim, cfg, dim, run, actions) && run[|actions|] == s
  }

  lemma OccursAtStart(sim: Similarity, cfg: Config, dim: nat)
    ensures Occurs(sim, cfg, dim, C.System(C.Shared(0, Empty(dim)), []))
  {
    assert C.Execution(sim, cfg, dim, [C.System(C.Shared(0, Empty(dim)), [])], []);
  }

  lemma OccursNext(sim: Similarity, cfg: Config, dim: nat, s: C.System, a: C.Action, s': C.System)
    requires Occurs(sim, cfg, dim, s) && C.Next(sim, cfg, s, a, s')
    ensures Occurs(sim, cfg, dim, s')
  {
    hide C.Next;
    var run, actions :| C.Execution(sim, cfg, dim, run, actions) && run[|actions|] == s;
    var run', actions' := run + [s'], actions + [a];
    forall i | 0 <= i < |actions'| ensures C.Next(sim, cfg, run'[i], actions'[i], run'[i + 1]) {
      if i < |actions| { assert C.Next(sim, cfg, run[i], actions[i], run[i + 1]); }
    }
    assert C.Execution(sim, cfg, dim, run', actions') && run'[|actions'|] == s';
  }

  /** Thread `i` runs alone for a while. */
  lemma {:induction false} OccursSteps(sim: Similarity, cfg: Config, dim: nat, s: C.System, i: nat, n: nat, sh: C.Shared,
                                       t: C.Thread)
    requires Occurs(sim, cfg, dim, s) && i < |s.threads| && Steps(sim, cfg, n, s.shared, s.threads[i], sh, t)
    ensures Occurs(sim, cfg, dim, C.System(sh, s.threads[i := t]))
  {
    hide Occurs, C.ThreadStep;
    if n == 0 {
      assert s == C.System(sh, s.threads[i := t]);
    } else {
      var sm, tm :| Steps(sim, cfg, n - 1, s.shared, s.threads[i], sm, tm) && C.ThreadStep(sim, cfg, sm, tm, sh, t);
      OccursSteps(sim, cfg, dim, s, i, n - 1, sm, tm);
      assert s.threads[i := tm][i := t] == s.threads[i := t];
      OccursNext(sim, cfg, dim, C.System(sm, s.threads[i := tm]), C.Advance(i), C.System(sh, s.threads[i := t]));
    }
  }

  lemma OccursSolo(sim: Similarity, cfg: Config, dim: nat, s: C.System, i: nat, sh: C.Shared, t: C.Thread)
    requires Occurs(sim, cfg, dim, s) && i < |s.threads| && Solo(sim, cfg, s.shared, s.threads[i], sh, t)
    ensures Occurs(sim, cfg, dim, C.System(sh, s.threads[i := t]))
  {
    hide Occurs, Steps;
    var n: nat :| Steps(sim, cfg, n, s.shared, s.threads[i], sh, t);
    OccursSteps(sim, cfg, dim, s, i, n, sh, t);
  }

  lemma OccursSpawned(sim: Similarity, cfg: Config, dim: nat, s: C.System, j: C.Job, sh: C.Shared, t: C.Thread)
    requires Occurs(sim, cfg, dim, s) && Solo(sim, cfg, s.shared, Begun(j), sh, t)
    ensures Occurs(sim, cfg, dim, C.System(sh, s.threads + [t]))
  {
    hide Occurs, Solo;
    var spawned := s.(threads := s.threads + [Begun(j)]);
    OccursNext(sim, cfg, dim, s, C.Spawn(j), spawned);
    OccursSolo(sim, cfg, dim, spawned, |s.threads|, sh, t);
    assert spawned.threads[|s.threads| := t] == s.threads + [t];
  }

  // ---------- linking to a single node ----------

  /** A search that starts at a node without links finds that node. */
  lemma LonelyHit(sim: Similarity, s: Index, vec: Vec, ep: nat, ef: int, layer: nat)
    requires |s.vecs| == |s.graph| && LinksInRange(s.graph, layer) && ep < |s.graph| && Links(s.graph, layer, ep) == []
    ensures Hit(sim, s, vec, ep, ef, layer, [Scored(sim(vec, s.vecs[ep]), ep)])
  {
    var scores := ScoresTo(sim, s.vecs, vec);
    var b := StartAt(scores, ep);
    assert Turn(s.graph, layer, scores, ef, b) == Pop(b);
    assert Explore(s.graph, layer, scores, ef, Pop(b)) == Pop(b);
    assert SearchLayer(s.graph, layer, scores, ep, ef) == [Scored(scores[ep], ep)];
  }

  lemma SelectOnly(e: Scored, m: int)
    requires m >= 1
    ensures Select([e], m, [e.node])
  {
    assert SortedCopy([e], [e]);
    assert TakeUpTo([e], Larger(m, 0)) == [e];
    assert Nodes([e]) == [e.node];
  }

  /** The index after nodes `q` and `nb`, both without links on the layer, are linked with each other there. */
  function Paired(s: Index, q: nat, layer: nat, nb: nat): Index
    requires q != nb && HasLayer(s, q, layer) && HasLayer(s, nb, layer)
  {
    PutList(PutList(s, q, layer, [nb], {nb}), nb, layer, [q], {q})
  }

  /** The only back-link, to a node whose list is empty. */
  lemma OnlyBackLink(sim: Similarity, cfg: Config, s: Index, q: nat, layer: nat, nb: nat)
    requires cfg.M >= 1 && HasLayer(s, nb, layer) && |s.graph[nb]| == |s.offered[nb]| && s.graph[nb][layer] == []
    ensures BackLinks(sim, cfg, s, q, layer, [nb], PutList(s, nb, layer, [q], {q}))
  {
    var t := PutList(s, nb, layer, [q], {q});
    assert Pruned(sim, s.vecs, nb, Mmax(cfg, layer), s.graph[nb][layer] + [q], [q]);
    assert Raise(s, nb, layer) == s;
    assert BackLink(sim, cfg, s, q, layer, nb, t);
    assert [nb][..0] == [];
    assert BackLinks(sim, cfg, s, q, layer, [nb][..0], s);
  }

  lemma PairsUp(sim: Similarity, cfg: Config, s: Index, vec: Vec, q: nat, ep: nat, layer: nat)
    requires cfg.M >= 1 && q != ep && HasLayer(s, q, layer) && HasLayer(s, ep, layer) && |s.graph[ep]| == |s.offered[ep]|
    requires |s.vecs| == |s.graph| && LinksInRange(s.graph, layer) && s.graph[ep][layer] == []
    ensures LinkLayer(sim, cfg, s, vec, q, ep, layer, Paired(s, q, layer, ep), ep)
  {
    var e := Scored(sim(vec, s.vecs[ep]), ep);
    LonelyHit(sim, s, vec, ep, Larger(cfg.efConstruction, cfg.M), layer);
    SelectOnly(e, cfg.M);
    assert SetOf([ep]) == {ep};
    OnlyBackLink(sim, cfg, PutList(s, q, layer, [ep], {ep}), q, layer, ep);
    hide Hit, Select, BackLinks;
    assert Front([e], ep) == ep;
  }

  // ---------- the region that loses links ----------

  /** Whoever was linked from a node of a layer still is. */
  ghost predicate LinksKept(g: Graph, g': Graph) {
    forall v: nat, layer: nat, x :: x in Links(g, layer, v) ==> x in Links(g', layer, v)
  }

  /** Writing a new node's list loses a link if and only if the list already held one that was not chosen. */
  lemma WriteListKeepsIff(s: C.Shared, t: C.Thread, s': C.Shared, t': C.Thread)
    requires C.WriteList(s, t, s', t')
    ensures LinksKept(s.ix.graph, s'.ix.graph) <==> forall x :: x in s.ix.graph[t.pc.q][t.pc.lc] ==> x in t.pc.nbs
  {
    var q, lc := t.pc.q, t.pc.lc;
    var g, g' := s.ix.graph, s'.ix.graph;
    assert Links(g, lc, q) == g[q][lc] && Links(g', lc, q) == t.pc.nbs;
    forall v: nat, layer: nat | v != q || layer != lc ensures Links(g', layer, v) == Links(g, layer, v) {}
  }

  // ---------- three insertions ----------

  /** The first vector, up to layer 1. */
  function One(dim: nat, v0: Vec): Index {
    Append(Empty(dim), 0, v0, [], 1)
  }

  /** The second, up to layer 1, linked there and not yet on layer 0. */
  function Two(dim: nat, v0: Vec, v1: Vec): Index {
    Paired(Append(One(dim, v0), 1, v1, [], 1), 1, 1, 0)
  }

  /** The third, on layer 0 only, linked to the second. */
  function Three(dim: nat, v0: Vec, v1: Vec, v2: Vec): Index {
    Paired(Append(Two(dim, v0, v1), 2, v2, [], 0), 2, 0, 1)
  }

  /** The second is linked on layer 0 at last, and its list written over. */
  function Overwritten(dim: nat, v0: Vec, v1: Vec, v2: Vec): Index {
    Paired(Three(dim, v0, v1, v2), 1, 0, 0)
  }

  lemma PairedGraph(s: Index, q: nat, layer: nat, nb: nat)
    requires q != nb && HasLayer(s, q, layer) && HasLayer(s, nb, layer)
    ensures Paired(s, q, layer, nb).graph == s.graph[q := s.graph[q][layer := [nb]]][nb := s.graph[nb][layer := [q]]]
  {
  }

  lemma GraphOfOne(dim: nat, v0: Vec)
    ensures One(dim, v0).graph == [[[], []]] && |One(dim, v0).offered| == 1 && |One(dim, v0).offered[0]| == 2
  {
    assert NoLinks(2) == [[], []];
  }

  lemma GraphOfTwo(dim: nat, v0: Vec, v1: Vec)
    ensures Append(One(dim, v0), 1, v1, [], 1).graph == [[[], []], [[], []]]
    ensures Two(dim, v0, v1).graph == [[[], [1]], [[], [0]]]
  {
    GraphOfOne(dim, v0);
    var slot := Append(One(dim, v0), 1, v1, [], 1);
    assert NoLinks(2) == [[], []];
    PairedGraph(slot, 1, 1, 0);
    hide Paired, One;
    assert [[], []][1 := [0]] == [[], [0]] && [[], []][1 := [1]] == [[], [1]];
  }

  lemma GraphOfThree(dim: nat, v0: Vec, v1: Vec, v2: Vec)
    ensures Append(Two(dim, v0, v1), 2, v2, [], 0).graph == [[[], [1]], [[], [0]], [[]]]
    ensures Three(dim, v0, v1, v2).graph == [[[], [1]], [[2], [0]], [[1]]]
  {
    GraphOfTwo(dim, v0, v1);
    var slot := Append(Two(dim, v0, v1), 2, v2, [], 0);
    assert NoLinks(1) == [[]];
    PairedGraph(slot, 2, 0, 1);
    hide Paired, Two;
    assert [[]][0 := [1]] == [[1]] && [[], [0]][0 := [2]] == [[2], [0]];
  }

  lemma GraphOverwritten(dim: nat, v0: Vec, v1: Vec, v2: Vec)
    ensures Overwritten(dim, v0, v1, v2).graph == [[[1], [1]], [[0], [0]], [[1]]]
  {
    GraphOfThree(dim, v0, v1, v2);
    PairedGraph(Three(dim, v0, v1, v2), 1, 0, 0);
    hide Paired, Three;
    assert [[2], [0]][0 := [0]] == [[0], [0]] && [[], [1]][0 := [1]] == [[1], [1]];
  }

  // ---------- the three threads ----------

  function A(v0: Vec): C.Job { C.Job(0, v0, [], 1) }

  function B(v1: Vec): C.Job { C.Job(1, v1, [], 1) }

  function D(v2: Vec): C.Job { C.Job(2, v2, [], 0) }

  ghost predicate Even(s: Index) {
    && |s.vecs| == |s.ids| == |s.graph| == |s.offered|
    && (forall v :: 0 <= v < |s.graph| ==> |s.graph[v]| == |s.offered[v]|)
    && forall v, l, i :: 0 <= v < |s.graph| && 0 <= l < |s.graph[v]| && 0 <= i < |s.graph[v][l]| ==> s.graph[v][l][i] < |s.graph|
  }

  lemma EvenInRange(s: Index, layer: nat)
    requires Even(s)
    ensures LinksInRange(s.graph, layer)
  {
  }

  lemma EvenAppend(s: Index, id: u64, vec: Vec, level: nat)
    requires Even(s)
    ensures Even(Append(s, id, vec, [], level))
  {
  }

  lemma EvenPaired(s: Index, q: nat, layer: nat, nb: nat)
    requires Even(s) && q != nb && HasLayer(s, q, layer) && HasLayer(s, nb, layer)
    ensures Even(Paired(s, q, layer, nb))
  {
    var g := Paired(s, q, layer, nb).graph;
    forall v, l, i | 0 <= v < |g| && 0 <= l < |g[v]| && 0 <= i < |g[v][l]| ensures g[v][l][i] < |g| {
      assert g[v][l] == s.graph[v][l] || g[v][l] == [nb] || g[v][l] == [q];
    }
  }

  /** The second thread links its node on layer 1. */
  lemma SecondLinks(sim: Similarity, cfg: Config, dim: nat, v0: Vec, v1: Vec)
    requires cfg.M >= 1
    ensures Even(Two(dim, v0, v1))
    ensures Solo(sim, cfg, C.Shared(1, One(dim, v0)), Begun(B(v1)), C.Shared(2, Two(dim, v0, v1)), AtLayer(B(v1), 1, 0, 0))
  {
    var one, two := One(dim, v0), Two(dim, v0, v1);
    var slot := Append(one, 1, v1, [], 1);
    GraphOfTwo(dim, v0, v1);
    GraphOfOne(dim, v0);
    EvenAppend(Empty(dim), 0, v0, 1);
    EvenAppend(one, 1, v1, 1);
    EvenPaired(slot, 1, 1, 0);
    EvenInRange(slot, 1);
    hide Solo, LinkLayer, Paired, Even, Append;
    PairsUp(sim, cfg, slot, v1, 1, 0, 1);
    Allocates(sim, cfg, one, B(v1), slot);
    var begun, given, at := Begun(B(v1)), C.Thread(B(v1), C.Allocated(1)), AtLayer(B(v1), 1, 0, 1);
    assert C.ReadEntry(C.Shared(2, slot), given, C.Shared(2, slot), at);
    ThenStep(sim, cfg, C.Shared(1, one), begun, C.Shared(2, slot), given, C.Shared(2, slot), at);
    LinksLayer(sim, cfg, 2, B(v1), 1, 0, 1, slot, two, 0);
    Then(sim, cfg, C.Shared(1, one), begun, C.Shared(2, slot), at, C.Shared(2, two), AtLayer(B(v1), 1, 0, 0));
  }

  /** And chooses its neighbour on layer 0. */
  lemma SecondChooses(sim: Similarity, cfg: Config, dim: nat, v0: Vec, v1: Vec)
    requires cfg.M >= 1
    ensures Even(Two(dim, v0, v1))
    ensures Solo(sim, cfg, C.Shared(1, One(dim, v0)), Begun(B(v1)), C.Shared(2, Two(dim, v0, v1)), HasChosen(B(v1), 1, 0, [0], 0))
  {
    var two := Two(dim, v0, v1);
    SecondLinks(sim, cfg, dim, v0, v1);
    GraphOfTwo(dim, v0, v1);
    EvenInRange(two, 0);
    var e := Scored(sim(v1, two.vecs[0]), 0);
    hide Solo, Hit, Select, Even, Two;
    LonelyHit(sim, two, v1, 0, Larger(cfg.efConstruction, cfg.M), 0);
    SelectOnly(e, cfg.M);
    Chooses(sim, cfg, 2, B(v1), 1, 0, 0, two, [e], [0]);
    Then(sim, cfg, C.Shared(1, One(dim, v0)), Begun(B(v1)), C.Shared(2, two), AtLayer(B(v1), 1, 0, 0),
         C.Shared(2, two), HasChosen(B(v1), 1, 0, [0], 0));
  }

  /** From node 0 the greedy search of layer 1 goes on to node 1, if that is more similar. */
  lemma MovesAcross(sim: Similarity, s: Index, vec: Vec)
    requires |s.vecs| == |s.graph| && LinksInRange(s.graph, 1) && |s.graph| >= 2
    requires Links(s.graph, 1, 0) == [1] && Links(s.graph, 1, 1) == [0] && sim(vec, s.vecs[1]) > sim(vec, s.vecs[0])
    ensures Hit(sim, s, vec, 0, 1, 1, [Scored(sim(vec, s.vecs[1]), 1)])
  {
    var scores := ScoresTo(sim, s.vecs, vec);
    var out := SearchLayer(s.graph, 1, scores, 0, 1);
    GreedyLocalMaximum(s.graph, 1, scores, 0, 1);
    SearchStaysWithin(s.graph, 1, scores, 0, 1, {0, 1});
    assert out[0] in out;
    assert 1 in Links(s.graph, 1, 0);
    assert out == [Scored(sim(vec, s.vecs[1]), 1)];
  }

  /** An insertion on layer 0 only, into an index with one layer above. */
  lemma InsertsBelow(sim: Similarity, cfg: Config, s: Index, id: u64, vec: Vec, slot: Index, e: Scored, t: Index)
    requires s.ids != [] && slot == Append(s, id, vec, [], 0) && slot.entry == 0 && slot.maxLayer == t.maxLayer == 1
    requires Hit(sim, slot, vec, 0, 1, 1, [e]) && LinkLayer(sim, cfg, slot, vec, |s.ids|, e.node, 0, t, e.node)
    ensures Insert(sim, cfg, s, id, vec, [], 0, t)
  {
    hide Hit, LinkLayer, Append;
    assert Above(0) == 1 && Above(-1) == 0 && Front([e], 0) == e.node;
    assert Descend(sim, slot, vec, 0, 1, 1, 0);
    assert Descend(sim, slot, vec, slot.entry, slot.maxLayer, 0, e.node);
    assert LinkLayers(sim, cfg, slot, vec, |s.ids|, e.node, 0, 0, slot, e.node);
    assert LinkLayers(sim, cfg, slot, vec, |s.ids|, e.node, Smaller(0, slot.maxLayer), -1, t, e.node);
    assert t == Crown(t, |s.ids|, 0);
  }

  /** The third insertion lands on node 1, finds it without links on layer 0, and links to it. */
  lemma ThirdInserts(sim: Similarity, cfg: Config, dim: nat, v0: Vec, v1: Vec, v2: Vec)
    requires cfg.M >= 1 && sim(v2, v1) > sim(v2, v0) && Even(Two(dim, v0, v1))
    ensures Insert(sim, cfg, Two(dim, v0, v1), 2, v2, [], 0, Three(dim, v0, v1, v2))
    ensures Even(Three(dim, v0, v1, v2))
  {
    var slot := Append(Two(dim, v0, v1), 2, v2, [], 0);
    GraphOfThree(dim, v0, v1, v2);
    EvenAppend(Two(dim, v0, v1), 2, v2, 0);
    EvenPaired(slot, 2, 0, 1);
    EvenInRange(slot, 0);
    EvenInRange(slot, 1);
    hide Hit, LinkLayer, Even, Insert;
    MovesAcross(sim, slot, v2);
    PairsUp(sim, cfg, slot, v2, 2, 1, 0);
    InsertsBelow(sim, cfg, Two(dim, v0, v1), 2, v2, slot, Scored(sim(v2, v1), 1), Three(dim, v0, v1, v2));
  }

  /** The second thread writes its list over the third's back-link, and finishes. */
  lemma SecondFinishes(sim: Similarity, cfg: Config, dim: nat, v0: Vec, v1: Vec, v2: Vec)
    requires cfg.M >= 1 && Even(Three(dim, v0, v1, v2))
    ensures Solo(sim, cfg, C.Shared(3, Three(dim, v0, v1, v2)), HasChosen(B(v1), 1, 0, [0], 0),
                 C.Shared(3, Overwritten(dim, v0, v1, v2)), Ended(B(v1), 1))
    ensures Even(Overwritten(dim, v0, v1, v2))
  {
    GraphOfThree(dim, v0, v1, v2);
    SlotsOfThree(dim, v0, v1, v2);
    hide Solo, Three;
    LinksAndEnds(sim, cfg, B(v1), Three(dim, v0, v1, v2));
  }

  lemma LinksAndEnds(sim: Similarity, cfg: Config, j: C.Job, s: Index)
    requires cfg.M >= 1 && j.level == 1 == s.maxLayer && Even(s) && |s.graph| >= 2 && |s.graph[0]| >= 1 && |s.graph[1]| >= 1
    requires s.graph[0][0] == []
    ensures Solo(sim, cfg, C.Shared(3, s), HasChosen(j, 1, 0, [0], 0), C.Shared(3, Paired(s, 1, 0, 0)), Ended(j, 1))
    ensures Even(Paired(s, 1, 0, 0))
  {
    var t := Paired(s, 1, 0, 0);
    EvenPaired(s, 1, 0, 0);
    assert SetOf([0]) == {0};
    OnlyBackLink(sim, cfg, PutList(s, 1, 0, [0], {0}), 1, 0, 0);
    assert Crown(t, 1, 1) == t && HasLayer(s, 1, 0);
    hide Solo, BackLinks, PutList, Even, Paired;
    WritesAndLinks(sim, cfg, 3, j, 1, 0, s, [0], t, 0);
    assert C.Finish(C.Shared(3, t), AtLayer(j, 1, 0, -1), C.Shared(3, t), Ended(j, 1));
    ThenStep(sim, cfg, C.Shared(3, s), HasChosen(j, 1, 0, [0], 0), C.Shared(3, t), AtLayer(j, 1, 0, -1), C.Shared(3, t), Ended(j, 1));
  }

  // ---------- what the three leave behind ----------

  function Ended(j: C.Job, q: nat): C.Thread {
    C.Thread(j, C.Done(q))
  }

  /** The first insertion is complete and the second about to write its list of layer 0. */
  lemma TwoBegun(sim: Similarity, cfg: Config, dim: nat, v0: Vec, v1: Vec)
    requires cfg.M >= 1
    ensures Occurs(sim, cfg, dim, C.System(C.Shared(2, Two(dim, v0, v1)), [Ended(A(v0), 0), HasChosen(B(v1), 1, 0, [0], 0)]))
    ensures Even(Two(dim, v0, v1))
  {
    var a, b := Ended(A(v0), 0), HasChosen(B(v1), 1, 0, [0], 0);
    assert Insert(sim, cfg, Empty(dim), 0, v0, [], 1, One(dim, v0));
    hide Occurs, Solo, One, Two, Even, Insert;
    OccursAtStart(sim, cfg, dim);
    Inserts(sim, cfg, Empty(dim), A(v0), One(dim, v0));
    OccursSpawned(sim, cfg, dim, C.System(C.Shared(0, Empty(dim)), []), A(v0), C.Shared(1, One(dim, v0)), a);
    assert [] + [a] == [a];
    SecondChooses(sim, cfg, dim, v0, v1);
    OccursSpawned(sim, cfg, dim, C.System(C.Shared(1, One(dim, v0)), [a]), B(v1), C.Shared(2, Two(dim, v0, v1)), b);
    assert [a] + [b] == [a, b];
  }

  lemma SlotsOfTwo(dim: nat, v0: Vec, v1: Vec)
    ensures |Two(dim, v0, v1).ids| == 2
  {
  }

  lemma ThirdIsThere(sim: Similarity, cfg: Config, dim: nat, v0: Vec, v1: Vec, v2: Vec, a: C.Thread, b: C.Thread)
    requires Occurs(sim, cfg, dim, C.System(C.Shared(2, Two(dim, v0, v1)), [a, b]))
    requires Insert(sim, cfg, Two(dim, v0, v1), 2, v2, [], 0, Three(dim, v0, v1, v2))
    ensures Occurs(sim, cfg, dim, C.System(C.Shared(3, Three(dim, v0, v1, v2)), [a, b, Ended(D(v2), 2)]))
  {
    hide Occurs, Solo, Two, Three, Insert;
    SlotsOfTwo(dim, v0, v1);
    Inserts(sim, cfg, Two(dim, v0, v1), D(v2), Three(dim, v0, v1, v2));
    OccursSpawned(sim, cfg, dim, C.System(C.Shared(2, Two(dim, v0, v1)), [a, b]), D(v2), C.Shared(3, Three(dim, v0, v1, v2)), Ended(D(v2), 2));
    assert [a, b] + [Ended(D(v2), 2)] == [a, b, Ended(D(v2), 2)];
  }

  /** All three insertions complete. */
  lemma ThreeComplete(sim: Similarity, cfg: Config, dim: nat, v0: Vec, v1: Vec, v2: Vec)
    requires cfg.M >= 1 && sim(v2, v1) > sim(v2, v0)
    ensures
      Occurs(sim, cfg, dim, C.System(C.Shared(3, Overwritten(dim, v0, v1, v2)), [Ended(A(v0), 0), Ended(B(v1), 1), Ended(D(v2), 2)]))
    ensures Even(Overwritten(dim, v0, v1, v2))
  {
    hide Occurs, Solo, Two, Three, Overwritten, Even, Insert;
    var a, b, d := Ended(A(v0), 0), HasChosen(B(v1), 1, 0, [0], 0), Ended(D(v2), 2);
    TwoBegun(sim, cfg, dim, v0, v1);
    ThirdInserts(sim, cfg, dim, v0, v1, v2);
    ThirdIsThere(sim, cfg, dim, v0, v1, v2, a, b);
    SecondFinishes(sim, cfg, dim, v0, v1, v2);
    OccursSolo(sim, cfg, dim, C.System(C.Shared(3, Three(dim, v0, v1, v2)), [a, b, d]), 1,
               C.Shared(3, Overwritten(dim, v0, v1, v2)), Ended(B(v1), 1));
    assert [a, b, d][1 := Ended(B(v1), 1)] == [a, Ended(B(v1), 1), d];
  }

  lemma {:induction false} LandsWithin(sim: Similarity, s: Index, query: Vec, start: nat, hi: int, lo: int, home: set<nat>)
    requires lo >= -1 && Searchable(s) && start < |s.graph| && start in home
    requires forall layer: nat :: Closed(LayerLinks(s.graph, layer), home)
    ensures Landing(sim, s, query, start, hi, lo) in home
    decreases hi - lo
  {
    if lo < hi {
      var prev := Landing(sim, s, query, start, hi, Above(lo));
      LandsWithin(sim, s, query, start, hi, Above(lo), home);
      var scores := ScoresTo(sim, s.vecs, query);
      GreedyLocalMaximum(s.graph, Above(lo), scores, prev, 1);
      SearchStaysWithin(s.graph, Above(lo), scores, prev, 1, home);
      var found := SearchLayer(s.graph, Above(lo), scores, prev, 1);
      assert found[0] in found;
    }
  }

  /** A search never leaves a set of slots that no link leaves. */
  lemma ReachedWithin(sim: Similarity, s: Index, query: Vec, home: set<nat>)
    requires Searchable(s) && StartNode(s) in home && forall layer: nat :: Closed(LayerLinks(s.graph, layer), home)
    ensures Reached(sim, s, query) <= home
  {
    hide Landing, ReachableFrom;
    if Startable(s) && StartNode(s) < |s.graph| {
      var ep := Landing(sim, s, query, StartNode(s), s.maxLayer, 0);
      LandsWithin(sim, s, query, StartNode(s), s.maxLayer, 0, home);
      ClosedHoldsAll(s.graph, 0, ep, home);
    }
  }

  lemma PairClosed(g: Graph, layer: nat)
    requires g == [[[1], [1]], [[0], [0]], [[1]]]
    ensures Closed(LayerLinks(g, layer), {0, 1})
  {
    var adj := LayerLinks(g, layer);
    forall v, x | v in {0, 1} && v < |adj| && x in adj[v] ensures x in {0, 1} {
      var i :| 0 <= i < |Links(g, layer, v)| && Links(g, layer, v)[i] == x;
    }
  }

  /**
   Three overlapping insertions, all complete and none deleted, can leave an index in which the third is never
   found: no search for any query, of any width and any `k`, answers it.
   */
  lemma OverlapLosesSlot(sim: Similarity, cfg: Config, dim: nat, v0: Vec, v1: Vec, v2: Vec) returns (s: C.System)
    requires cfg.M >= 1 && sim(v2, v1) > sim(v2, v0)
    ensures Occurs(sim, cfg, dim, s) && forall i :: 0 <= i < |s.threads| ==> s.threads[i].pc.Done?
    ensures
      var ix := s.shared.ix;
      && ix.ids == [0, 1, 2] && ix.vecs == [v0, v1, v2] && ix.tomb == [false, false, false]
      && forall ef: int, query: Vec, k: int, out: seq<Answer> ::
           Search(sim, ef, ix, query, k, out) ==> forall i :: 0 <= i < |out| ==> out[i].id != 2
  {
    hide Occurs, Overwritten, Search, Even;
    var ix := Overwritten(dim, v0, v1, v2);
    s := C.System(C.Shared(3, ix), [Ended(A(v0), 0), Ended(B(v1), 1), Ended(D(v2), 2)]);
    ThreeComplete(sim, cfg, dim, v0, v1, v2);
    GraphOverwritten(dim, v0, v1, v2);
    SlotsOfThree(dim, v0, v1, v2);
    forall layer: nat ensures LinksInRange(ix.graph, layer) { EvenInRange(ix, layer); }
    forall ef: int, query: Vec, k: int, out: seq<Answer> | Search(sim, ef, ix, query, k, out) ensures forall i :: 0 <= i < |out| ==> out[i].id != 2 {
      ThirdNotAnswered(sim, ix, ef, query, k, out);
    }
  }

  lemma SlotsOfThree(dim: nat, v0: Vec, v1: Vec, v2: Vec)
    ensures
      var ix := Overwritten(dim, v0, v1, v2);
      ix.ids == [0, 1, 2] && ix.vecs == [v0, v1, v2] && ix.tomb == [false, false, false] && ix.entry == 0
    ensures Three(dim, v0, v1, v2).maxLayer == 1
  {
  }

  lemma ThirdNotAnswered(sim: Similarity, ix: Index, ef: int, query: Vec, k: int, out: seq<Answer>)
    requires ix.graph == [[[1], [1]], [[0], [0]], [[1]]] && Searchable(ix) && ix.entry == 0
    requires ix.ids == [0, 1, 2] && ix.tomb == [false, false, false]
    requires Search(sim, ef, ix, query, k, out)
    ensures forall i :: 0 <= i < |out| ==> out[i].id != 2
  {
    forall layer: nat ensures Closed(LayerLinks(ix.graph, layer), {0, 1}) { PairClosed(ix.graph, layer); }
    ReachedWithin(sim, ix, query, {0, 1});
    hide Search, Reached, Searchable;
    var slots := SearchReaches(sim, ef, ix, query, k, out);
    forall i | 0 <= i < |out| ensures out[i].id != 2 { assert slots[i] in {0, 1}; }
  }

  /** With cosine similarity two orthogonal vectors are enough, the second inserted twice under two ids. */
  lemma CosineLosesSlot(cfg: Config, sqrt: real -> real) returns (s: C.System)
    requires cfg.M >= 1 && P.IsSqrt(sqrt)
    ensures Occurs(CosineSim(sqrt), cfg, 2, s) && forall i :: 0 <= i < |s.threads| ==> s.threads[i].pc.Done?
    ensures
      var ix := s.shared.ix;
      && ix.ids == [0, 1, 2] && ix.vecs == [[ONE, 0], [0, ONE], [0, ONE]] && ix.tomb == [false, false, false]
      && forall ef: int, query: Vec, k: int, out: seq<Answer> ::
           Search(CosineSim(sqrt), ef, ix, query, k, out) ==> forall i :: 0 <= i < |out| ==> out[i].id != 2
  {
    hide CosineSim, Occurs, Search;
    Orthogonal(sqrt);
    s := OverlapLosesSlot(CosineSim(sqrt), cfg, 2, [ONE, 0], [0, ONE], [0, ONE]);
  }
}
