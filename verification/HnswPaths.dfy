/**
 The way a search or an insertion takes through the layers: from the entry point down, on each layer to a node that
 its links cannot improve on.
 */
module HnswPaths {
  import opened Bytes
  import opened Ranking
  import opened Reachability
  import opened BeamSearch
  import opened BeamSteps
  import opened Hnsw
  import opened HnswLists
  import opened HnswInvariant
  import opened HnswInsert
  import opened HnswRuns
  import opened HnswSearch
  import opened HnswExact

  // ---------- one layer ----------

  /** From `a` a greedy search of the layer goes to `b`: the same node, or a strictly better one that no link improves on. */
  ghost predicate GreedyStep(sim: Similarity, s: Index, query: Vec, layer: nat, a: nat, b: nat) {
    && a < |s.vecs| && b < |s.vecs| && b in ReachableFrom(s.graph, layer, a)
    && (b == a || sim(query, s.vecs[b]) > sim(query, s.vecs[a]))
    && forall x :: x in Links(s.graph, layer, b) ==> x < |s.vecs| && sim(query, s.vecs[x]) <= sim(query, s.vecs[b])
  }

  lemma GreedyHit(sim: Similarity, s: Index, query: Vec, ep: nat, layer: nat, out: seq<Scored>)
    requires Hit(sim, s, query, ep, 1, layer, out)
    ensures GreedyStep(sim, s, query, layer, ep, Front(out, ep))
  {
    var scores := ScoresTo(sim, s.vecs, query);
    var found := SearchLayer(s.graph, layer, scores, ep, 1);
    BeamClosure(s.graph, layer, scores, ep, 1);
    GreedyLocalMaximum(s.graph, layer, scores, ep, 1);
    GreedyMovesUp(s.graph, layer, scores, ep, 1);
    SortedCopyElements(out, found);
    assert out[0] in found && found[0] in found;
    forall x | x in Links(s.graph, layer, found[0].node) ensures x < |s.vecs| {
      var i :| 0 <= i < |Links(s.graph, layer, found[0].node)| && Links(s.graph, layer, found[0].node)[i] == x;
    }
  }

  // ---------- the descent ----------

  /** Step `i` of the path is made on layer `hi - i`. */
  ghost predicate StepAt(sim: Similarity, s: Index, query: Vec, hi: int, path: seq<nat>, i: nat) {
    i + 1 < |path| && hi - i >= 0 && GreedyStep(sim, s, query, hi - i, path[i], path[i + 1])
  }

  /** `path[i]` is where the search stands when it has done the `i` uppermost of the layers `hi`, ..., `lo + 1`. */
  ghost predicate GreedyPath(sim: Similarity, s: Index, query: Vec, hi: int, lo: int, path: seq<nat>) {
    && lo <= hi && |path| == hi - lo + 1
    && forall i :: 0 <= i < hi - lo ==> StepAt(sim, s, query, hi, path, i)
  }

  lemma {:induction false} DescentPath(sim: Similarity, s: Index, query: Vec, start: nat, hi: int, lo: int, ep: nat)
    returns (path: seq<nat>)
    requires -1 <= lo <= hi && start < |s.vecs| && Descend(sim, s, query, start, hi, lo, ep)
    ensures GreedyPath(sim, s, query, hi, lo, path) && |path| == hi - lo + 1 && path[0] == start && path[hi - lo] == ep
    decreases hi - lo
  {
    hide GreedyStep, GreedyPath, Hit, Front;
    if hi == lo {
      path := [start];
      NoSteps(sim, s, query, hi, start);
    } else {
      var prev, out :|
        && Descend(sim, s, query, start, hi, Above(lo), prev)
        && Hit(sim, s, query, prev, 1, Above(lo), out)
        && ep == Front(out, prev);
      var upper := DescentPath(sim, s, query, start, hi, Above(lo), prev);
      GreedyHit(sim, s, query, prev, Above(lo), out);
      path := upper + [ep];
      LongerPath(sim, s, query, hi, lo, upper, ep);
    }
  }

  lemma NoSteps(sim: Similarity, s: Index, query: Vec, hi: int, start: nat)
    ensures GreedyPath(sim, s, query, hi, hi, [start])
  {
  }

  lemma LongerPath(sim: Similarity, s: Index, query: Vec, hi: int, lo: int, upper: seq<nat>, ep: nat)
    requires -1 <= lo < hi && GreedyPath(sim, s, query, hi, lo + 1, upper)
    requires GreedyStep(sim, s, query, lo + 1, upper[hi - lo - 1], ep)
    ensures GreedyPath(sim, s, query, hi, lo, upper + [ep]) && |upper| == hi - lo
  {
    hide GreedyStep;
    forall i | 0 <= i < hi - lo ensures StepAt(sim, s, query, hi, upper + [ep], i) {
      if i < hi - lo - 1 { assert StepAt(sim, s, query, hi, upper, i); }
    }
  }

  lemma {:induction false} PathImproves(sim: Similarity, s: Index, query: Vec, hi: int, lo: int, path: seq<nat>)
    requires GreedyPath(sim, s, query, hi, lo, path) && path[0] < |s.vecs|
    ensures forall i :: 0 <= i < |path| ==> path[i] < |s.vecs| && sim(query, s.vecs[path[i]]) >= sim(query, s.vecs[path[0]])
  {
    for n := 0 to hi - lo
      invariant forall i :: 0 <= i <= n ==> path[i] < |s.vecs| && sim(query, s.vecs[path[i]]) >= sim(query, s.vecs[path[0]])
    {
      assert StepAt(sim, s, query, hi, path, n);
    }
  }

  // ---------- searching ----------

  /** A search starts at the entry point, or if that is deleted at the first slot that is not. */
  ghost predicate StartsFrom(s: Index, start: nat) {
    && |s.tomb| == |s.vecs| && start < |s.tomb| && !s.tomb[start]
    && (start == s.entry || (s.entry < |s.tomb| && s.tomb[s.entry] && forall v :: 0 <= v < start ==> s.tomb[v]))
  }

  lemma StartsFromStartNode(sim: Similarity, cfg: Config, s: Index, start: nat)
    requires Inv(sim, cfg, s)
    ensures StartsFrom(s, start) <==> Startable(s) && start == StartNode(s)
    ensures Startable(s) <==> exists v :: 0 <= v < |s.tomb| && !s.tomb[v]
  {
    hide ListsOk, LayersConnected;
    if Startable(s) { StartNodeInRange(s); }
    var i := FirstLive(s.tomb);
    assert i < |s.tomb| ==> !s.tomb[i];
  }

  /**
   The slots a search can reach, said from the entry point: with a live entry, what layer 0 connects to where the
   descent from the entry lands; with a deleted one, the same from the first live slot; with none live, nothing.
   */
  lemma ReachedFromEntry(sim: Similarity, cfg: Config, s: Index, query: Vec)
    requires Inv(sim, cfg, s)
    ensures Searchable(s) && |s.tomb| == |s.graph| && (s.ids != [] ==> s.entry < |s.graph|)
    ensures s.ids != [] && !s.tomb[s.entry] ==>
      Reached(sim, s, query) == ReachableFrom(s.graph, 0, Landing(sim, s, query, s.entry, s.maxLayer, 0))
    ensures forall v: nat :: s.ids != [] && s.tomb[s.entry] && v < |s.tomb| && !s.tomb[v] && (forall u :: 0 <= u < v ==> s.tomb[u]) ==>
      Reached(sim, s, query) == ReachableFrom(s.graph, 0, Landing(sim, s, query, v, s.maxLayer, 0))
    ensures (forall v :: 0 <= v < |s.tomb| ==> s.tomb[v]) ==> Reached(sim, s, query) == {}
  {
    InvLinksInRange(sim, cfg, s);
    StartsFromStartNode(sim, cfg, s, s.entry);
    forall v: nat | s.ids != [] && s.tomb[s.entry] && v < |s.tomb| && !s.tomb[v] && (forall u :: 0 <= u < v ==> s.tomb[u])
      ensures Reached(sim, s, query) == ReachableFrom(s.graph, 0, Landing(sim, s, query, v, s.maxLayer, 0))
    {
      StartsFromStartNode(sim, cfg, s, v);
    }
  }

  /**
   Every search of an index with a live slot: a path from the entry point (or the first live slot) that each layer
   above 0 takes to a local best, and answers that layer 0 connects to its end, at most as many as the beam is wide.
   Where nothing is deleted there is an answer, and the best one is no worse than the path's end, so than the entry.
   */
  lemma SearchPath(sim: Similarity, cfg: Config, ef: int, s: Index, query: Vec, k: int, out: seq<Answer>)
    returns (path: seq<nat>, slots: seq<nat>)
    requires Inv(sim, cfg, s) && Search(sim, ef, s, query, k, out) && exists v :: 0 <= v < |s.tomb| && !s.tomb[v]
    ensures |s.tomb| == |s.vecs| && GreedyPath(sim, s, query, s.maxLayer, 0, path) && StartsFrom(s, path[0])
    ensures AnswersFrom(sim, s, query, slots, out)
    ensures forall i :: 0 <= i < |slots| ==> slots[i] in ReachableFrom(s.graph, 0, path[s.maxLayer])
    ensures |out| <= if ef <= 1 then 1 else ef
    ensures (forall v :: 0 <= v < |s.tomb| ==> !s.tomb[v]) ==>
      && path[0] == s.entry < |s.vecs| && path[s.maxLayer] < |s.vecs|
      && out != [] && out[0].score >= sim(query, s.vecs[path[s.maxLayer]]) >= sim(query, s.vecs[s.entry])
  {
    StartsFromStartNode(sim, cfg, s, StartNode(s));
    InvLinksInRange(sim, cfg, s);
    assert |s.vecs| == |s.ids| == |s.tomb|;
    var ep, cands :|
      && Descend(sim, s, query, StartNode(s), s.maxLayer, 0, ep)
      && Hit(sim, s, query, ep, ef, 0, cands)
      && NodesBelow(cands, |s.ids|)
      && out == Collect(cands, s.tomb, s.ids, k, []);
    hide Inv, Collect;
    path := DescentPath(sim, s, query, StartNode(s), s.maxLayer, 0, ep);
    PathImproves(sim, s, query, s.maxLayer, 0, path);
    hide Descend, GreedyPath;
    slots := CandidatesAnswered(sim, s, query, ep, ef, cands, k, out);
  }

  /** At most as many answers as the beam is wide, and where nothing is deleted one no worse than the entry point. */
  ghost predicate FromEntry(sim: Similarity, ef: int, s: Index, query: Vec, out: seq<Answer>) {
    && |out| <= (if ef <= 1 then 1 else ef)
    && ((forall v :: 0 <= v < |s.tomb| ==> !s.tomb[v]) ==>
          s.entry < |s.vecs| && out != [] && out[0].score >= sim(query, s.vecs[s.entry]))
  }

  lemma AnswersFromEntry(sim: Similarity, cfg: Config, ef: int, s: Index, query: Vec, k: int, out: seq<Answer>)
    requires Inv(sim, cfg, s) && Search(sim, ef, s, query, k, out) && s.ids != []
    ensures FromEntry(sim, ef, s, query, out)
  {
    StartsFromStartNode(sim, cfg, s, StartNode(s));
    assert |s.tomb| == |s.ids|;
    hide Inv, Search;
    if v :| 0 <= v < |s.tomb| && !s.tomb[v] {
      var path, slots := SearchPath(sim, cfg, ef, s, query, k, out);
    } else {
      NothingToStart(sim, cfg, ef, s, query, k, out);
    }
  }

  lemma NothingToStart(sim: Similarity, cfg: Config, ef: int, s: Index, query: Vec, k: int, out: seq<Answer>)
    requires Search(sim, ef, s, query, k, out) && !Startable(s)
    ensures out == []
  {
  }

  lemma CandidatesAnswered(sim: Similarity, s: Index, query: Vec, ep: nat, ef: int, cands: seq<Scored>, k: int, out: seq<Answer>)
    returns (slots: seq<nat>)
    requires Searchable(s) && |s.vecs| == |s.ids| == |s.tomb| && Hit(sim, s, query, ep, ef, 0, cands)
    requires NodesBelow(cands, |s.ids|) && out == Collect(cands, s.tomb, s.ids, k, [])
    ensures AnswersFrom(sim, s, query, slots, out)
    ensures forall i :: 0 <= i < |slots| ==> slots[i] in ReachableFrom(s.graph, 0, ep)
    ensures |out| <= if ef <= 1 then 1 else ef
    ensures (forall v :: 0 <= v < |s.tomb| ==> !s.tomb[v]) ==> out != [] && out[0].score >= sim(query, s.vecs[ep])
  {
    HitReaches(sim, s, query, ep, ef, cands);
    HitImproves(sim, s, query, ep, ef, 0, cands);
    HitSize(sim, s, query, ep, ef, cands);
    CollectTakesLive(cands, s.tomb, s.ids, k);
    hide Hit, Collect;
    slots := AnsweredSlots(sim, s, query, cands, k, out);
    LiveAtMost(cands, s.tomb);
    if forall v :: 0 <= v < |s.tomb| ==> !s.tomb[v] { AllLive(cands, s.tomb); }
  }

  lemma HitSize(sim: Similarity, s: Index, query: Vec, ep: nat, ef: int, cands: seq<Scored>)
    requires Hit(sim, s, query, ep, ef, 0, cands)
    ensures 1 <= |cands| <= Width(ef) && cands[0].node < |s.vecs| && cands[0].score == sim(query, s.vecs[cands[0].node])
  {
    var scores := ScoresTo(sim, s.vecs, query);
    BeamClosure(s.graph, 0, scores, ep, ef);
    BestBeatsEntry(s.graph, 0, scores, ep, ef);
    SortedCopyElements(cands, SearchLayer(s.graph, 0, scores, ep, ef));
    assert cands[0] in cands;
  }

  lemma {:induction false} LiveAtMost(cands: seq<Scored>, tomb: seq<bool>)
    requires NodesBelow(cands, |tomb|)
    ensures |LiveOf(cands, tomb)| <= |cands|
  {
    if cands != [] { LiveAtMost(cands[1..], tomb); }
  }

  lemma {:induction false} AllLive(cands: seq<Scored>, tomb: seq<bool>)
    requires NodesBelow(cands, |tomb|) && forall v :: 0 <= v < |tomb| ==> !tomb[v]
    ensures LiveOf(cands, tomb) == cands
  {
    if cands != [] { AllLive(cands[1..], tomb); }
  }

  // ---------- inserting ----------

  /**
   The list a new node gets on a layer entered at `ep`: as many of the nodes it can reach as fit, `M` at most, and the
   best of them if the construction beam is wide enough; `next`, the entry of the layer below, is no worse than any.
   */
  ghost predicate Filled(sim: Similarity, cfg: Config, s: Index, vec: Vec, layer: nat, ep: nat, list: seq<nat>, next: nat) {
    var reach := ReachableFrom(s.graph, layer, ep);
    && |s.vecs| == |s.graph| && ep < |s.vecs| && NoDuplicates(list) && (forall x :: x in list ==> x in reach)
    && |list| == (if |reach| < cfg.M then |reach| else cfg.M)
    && next in reach && sim(vec, s.vecs[next]) >= sim(vec, s.vecs[ep])
    && (forall x :: x in list ==> sim(vec, s.vecs[x]) <= sim(vec, s.vecs[next]))
    && (cfg.efConstruction >= |reach| ==>
          forall x, y :: x in reach && x !in list && y in list ==> sim(vec, s.vecs[x]) <= sim(vec, s.vecs[y]))
  }

  lemma ChosenFilled(sim: Similarity, cfg: Config, s: Index, vec: Vec, layer: nat, ep: nat, out: seq<Scored>, nbs: seq<nat>)
    requires cfg.M >= 1 && Hit(sim, s, vec, ep, Larger(cfg.efConstruction, cfg.M), layer, out) && Select(out, cfg.M, nbs)
    ensures Filled(sim, cfg, s, vec, layer, ep, nbs, Front(out, ep))
  {
    var ef, scores, reach := Larger(cfg.efConstruction, cfg.M), ScoresTo(sim, s.vecs, vec), ReachableFrom(s.graph, layer, ep);
    var visited := FinalBeam(s.graph, layer, scores, ep, ef).visited;
    FoundOnLayer(sim, s, vec, layer, ep, ef, out);
    hide Hit, Select, FinalBeam, ReachableFrom, SearchLayer;
    SelectIsTop(out, cfg.M, nbs, scores);
    DistinctCount(Nodes(out), SetOf(Nodes(out)));
    SubsetCount(visited, reach);
    BestFirst(out, scores, nbs);
    if cfg.efConstruction >= |reach| { SameSet(SetOf(Nodes(out)), visited); }
  }

  lemma SameSet(small: set<nat>, big: set<nat>)
    requires small <= big && |small| == |big|
    ensures small == big
  {
    SubsetCount(small, big);
  }

  /** What a layer search finds, against what it can reach. */
  lemma FoundOnLayer(sim: Similarity, s: Index, vec: Vec, layer: nat, ep: nat, ef: int, out: seq<Scored>)
    requires Hit(sim, s, vec, ep, ef, layer, out)
    ensures |s.vecs| == |s.graph| && ep < |s.vecs|
    ensures out != [] && Descending(out) && NoDuplicates(Nodes(out)) && out[0].score >= sim(vec, s.vecs[ep])
    ensures forall e :: e in out ==> e.node < |s.vecs| && e.score == sim(vec, s.vecs[e.node])
    ensures
      var visited := FinalBeam(s.graph, layer, ScoresTo(sim, s.vecs, vec), ep, ef).visited;
      && SetOf(Nodes(out)) <= visited <= ReachableFrom(s.graph, layer, ep)
      && |out| == (if |visited| < Width(ef) then |visited| else Width(ef))
      && (|visited| > Width(ef) || visited == ReachableFrom(s.graph, layer, ep))
  {
    var scores := ScoresTo(sim, s.vecs, vec);
    var found := SearchLayer(s.graph, layer, scores, ep, ef);
    BeamClosure(s.graph, layer, scores, ep, ef);
    VisitsEnough(s.graph, layer, scores, ep, ef);
    BestBeatsEntry(s.graph, layer, scores, ep, ef);
    HitImproves(sim, s, vec, ep, ef, layer, out);
    hide SearchLayer, FinalBeam, ReachableFrom;
    SortedCopyElements(out, found);
    NodesDistinctAfterSort(out, found);
    assert out[0] in found;
    forall x | x in SetOf(Nodes(out)) ensures x in FinalBeam(s.graph, layer, scores, ep, ef).visited {
      var i :| 0 <= i < |out| && Nodes(out)[i] == x;
      assert out[i] in found;
    }
  }

  lemma BestFirst(out: seq<Scored>, scores: seq<real>, nbs: seq<nat>)
    requires out != [] && Descending(out) && forall e :: e in out ==> e.node < |scores| && e.score == scores[e.node]
    requires forall x :: x in nbs ==> x in Nodes(out)
    ensures out[0].node in Nodes(out) && forall x :: x in nbs ==> x < |scores| && scores[x] <= scores[out[0].node]
  {
    assert Nodes(out)[0] == out[0].node && out[0] in out;
    forall x | x in nbs ensures x < |scores| && scores[x] <= scores[out[0].node] {
      var i :| 0 <= i < |out| && Nodes(out)[i] == x;
      assert out[i] in out;
    }
  }

  // ---------- a layer an insertion has not come to yet ----------

  /** On this layer `u` has the vectors and links of `s`, and maybe more nodes. */
  ghost predicate Untouched(s: Index, u: Index, layer: nat) {
    && |s.vecs| == |s.graph| <= |u.graph| == |u.vecs| && s.vecs <= u.vecs
    && forall v :: 0 <= v < |s.graph| ==> Links(u.graph, layer, v) == Links(s.graph, layer, v)
  }

  lemma SameReach(s: Index, u: Index, layer: nat, a: nat)
    requires Untouched(s, u, layer) && LinksInRange(s.graph, layer) && a < |s.graph|
    ensures ReachableFrom(u.graph, layer, a) == ReachableFrom(s.graph, layer, a)
  {
    var small, big := LayerLinks(s.graph, layer), LayerLinks(u.graph, layer);
    var reach := ReachableFrom(s.graph, layer, a);
    forall v | v in reach ensures v in ReachableFrom(u.graph, layer, a) { ReachesGrows(small, big, a, v); }
    ReachesSelf(small, a);
    forall v, x | v in reach && v < |big| && x in big[v] ensures x in reach {
      assert x in small[v];
      var i :| 0 <= i < |Links(s.graph, layer, v)| && Links(s.graph, layer, v)[i] == x;
      ReachesEdge(small, a, v, x);
    }
    ClosedHoldsAll(u.graph, layer, a, reach);
  }

  lemma SameGreedyStep(sim: Similarity, s: Index, u: Index, vec: Vec, layer: nat, a: nat, b: nat)
    requires Untouched(s, u, layer) && LinksInRange(s.graph, layer) && a < |s.graph| && GreedyStep(sim, u, vec, layer, a, b)
    ensures GreedyStep(sim, s, vec, layer, a, b)
  {
    SameReach(s, u, layer, a);
    forall x | x in Links(s.graph, layer, b) ensures x < |s.vecs| {
      var i :| 0 <= i < |Links(s.graph, layer, b)| && Links(s.graph, layer, b)[i] == x;
    }
  }

  lemma SameFilled(sim: Similarity, cfg: Config, s: Index, u: Index, vec: Vec, layer: nat, a: nat, list: seq<nat>, next: nat)
    requires Untouched(s, u, layer) && LinksInRange(s.graph, layer) && a < |s.graph| && Filled(sim, cfg, u, vec, layer, a, list, next)
    ensures Filled(sim, cfg, s, vec, layer, a, list, next) && next < |s.graph| && forall x :: x in list ==> x < |s.graph|
  {
    SameReach(s, u, layer, a);
    var reach := ReachableFrom(s.graph, layer, a);
    assert forall x :: x in reach ==> x < |s.graph| && u.vecs[x] == s.vecs[x];
  }

  // ---------- what linking a layer touches ----------

  /** Links differ at most in the lists `who` has on the layer. */
  ghost predicate TouchesOnly(s: Index, t: Index, layer: nat, who: set<nat>) {
    && t.vecs == s.vecs && |t.graph| == |s.graph|
    && forall v: nat, l: nat :: (v !in who || l != layer) && v < |s.graph| ==> Links(t.graph, l, v) == Links(s.graph, l, v)
  }

  lemma BackLinkTouches(sim: Similarity, cfg: Config, s: Index, q: nat, layer: nat, nb: nat, t: Index)
    requires BackLink(sim, cfg, s, q, layer, nb, t)
    ensures TouchesOnly(s, t, layer, {nb})
  {
    hide Pruned;
    var r := Raise(s, nb, layer);
    var list :| Pruned(sim, s.vecs, nb, Mmax(cfg, layer), r.graph[nb][layer] + [q], list) && t == PutList(r, nb, layer, list, {q});
    RaiseTouches(s, nb, layer);
    PutTouches(r, nb, layer, list, {q});
    hide Raise;
  }

  lemma RaiseTouches(s: Index, v: nat, layer: nat)
    requires v < |s.graph| && v < |s.offered| && |s.graph[v]| == |s.offered[v]|
    ensures TouchesOnly(s, Raise(s, v, layer), layer, {})
  {
  }

  lemma PutTouches(s: Index, v: nat, layer: nat, list: seq<nat>, pool: set<nat>)
    requires HasLayer(s, v, layer)
    ensures TouchesOnly(s, PutList(s, v, layer, list, pool), layer, {v})
    ensures Links(PutList(s, v, layer, list, pool).graph, layer, v) == list
  {
  }

  lemma {:induction false} BackLinksTouch(sim: Similarity, cfg: Config, s: Index, q: nat, layer: nat, nbs: seq<nat>, t: Index)
    requires BackLinks(sim, cfg, s, q, layer, nbs, t)
    ensures TouchesOnly(s, t, layer, SetOf(nbs))
  {
    hide BackLink;
    if nbs != [] {
      var last := |nbs| - 1;
      var mid :| BackLinks(sim, cfg, s, q, layer, nbs[..last], mid) && BackLink(sim, cfg, mid, q, layer, nbs[last], t);
      BackLinksTouch(sim, cfg, s, q, layer, nbs[..last], mid);
      BackLinkTouches(sim, cfg, mid, q, layer, nbs[last], t);
    }
  }

  /** Linking `q` on a layer gives it the filled list and leaves every other layer as it was. */
  lemma LinkLayerFills(sim: Similarity, cfg: Config, s: Index, u: Index, vec: Vec, q: nat, ep: nat, layer: nat, t: Index, next: nat)
    requires cfg.M >= 1 && Untouched(s, u, layer) && LinksInRange(s.graph, layer) && ep < |s.graph| == q
    requires LinkLayer(sim, cfg, u, vec, q, ep, layer, t, next)
    ensures Filled(sim, cfg, s, vec, layer, ep, Links(t.graph, layer, q), next) && next < |s.graph|
    ensures t.vecs == u.vecs && |t.graph| == |u.graph|
    ensures forall v: nat, l: nat :: l != layer && v < |u.graph| ==> Links(t.graph, l, v) == Links(u.graph, l, v)
  {
    hide Hit, Select, BackLinks, Untouched, Filled;
    var out, nbs := LinkParts(sim, cfg, u, vec, q, ep, layer, t, next);
    ChosenFilled(sim, cfg, u, vec, layer, ep, out, nbs);
    SameFilled(sim, cfg, s, u, vec, layer, ep, nbs, next);
    PutTouches(u, q, layer, nbs, SetOf(nbs));
    BackLinksTouch(sim, cfg, PutList(u, q, layer, nbs, SetOf(nbs)), q, layer, nbs, t);
    assert q !in SetOf(nbs);
  }

  // ---------- a whole insertion ----------

  ghost predicate FilledAt(sim: Similarity, cfg: Config, s: Index, vec: Vec, hi: int, path: seq<nat>, g: Graph, q: nat, i: nat) {
    && i + 1 < |path| && hi - i >= 0
    && Filled(sim, cfg, s, vec, hi - i, path[i], Links(g, hi - i, q), path[i + 1])
  }

  /** The layers `hi`, ..., `lo + 1` of node `q`, each filled from where the one above ended. */
  ghost predicate FilledPath(sim: Similarity, cfg: Config, s: Index, vec: Vec, hi: int, lo: int, path: seq<nat>, g: Graph, q: nat) {
    && lo <= hi && |path| == hi - lo + 1
    && forall i :: 0 <= i < hi - lo ==> FilledAt(sim, cfg, s, vec, hi, path, g, q, i)
  }

  lemma {:induction false} LinkLayersFill(sim: Similarity, cfg: Config, s: Index, u: Index, vec: Vec, q: nat, ep: nat,
                                          hi: int, lo: int, t: Index, next: nat) returns (path: seq<nat>)
    requires cfg.M >= 1 && -1 <= lo <= hi && ep < |s.graph| == q < |u.graph| && Searchable(s)
    requires forall layer: nat :: Untouched(s, u, layer)
    requires LinkLayers(sim, cfg, u, vec, q, ep, hi, lo, t, next)
    ensures FilledPath(sim, cfg, s, vec, hi, lo, path, t.graph, q) && |path| == hi - lo + 1
    ensures path[0] == ep && path[hi - lo] == next < |s.graph|
    ensures t.vecs == u.vecs && |t.graph| == |u.graph|
    ensures forall v: nat, l: nat :: l <= lo && v < |u.graph| ==> Links(t.graph, l, v) == Links(u.graph, l, v)
    decreases hi - lo
  {
    hide Filled, FilledPath, LinkLayer;
    if hi == lo {
      path := [ep];
      NothingFilled(sim, cfg, s, vec, hi, ep, t.graph, q);
    } else {
      var mid, at :|
        && LinkLayers(sim, cfg, u, vec, q, ep, hi, Above(lo), mid, at)
        && LinkLayer(sim, cfg, mid, vec, q, at, Above(lo), t, next);
      var upper := LinkLayersFill(sim, cfg, s, u, vec, q, ep, hi, Above(lo), mid, at);
      assert Untouched(s, mid, Above(lo)) by { assert Untouched(s, u, Above(lo)); }
      LinkLayerFills(sim, cfg, s, mid, vec, q, at, Above(lo), t, next);
      path := upper + [next];
      MoreFilled(sim, cfg, s, vec, hi, lo, upper, next, mid.graph, t.graph, q);
    }
  }

  lemma NothingFilled(sim: Similarity, cfg: Config, s: Index, vec: Vec, hi: int, ep: nat, g: Graph, q: nat)
    ensures FilledPath(sim, cfg, s, vec, hi, hi, [ep], g, q)
  {
  }

  lemma MoreFilled(sim: Similarity, cfg: Config, s: Index, vec: Vec, hi: int, lo: int, upper: seq<nat>, next: nat,
                   g: Graph, g': Graph, q: nat)
    requires -1 <= lo < hi && FilledPath(sim, cfg, s, vec, hi, lo + 1, upper, g, q)
    requires forall l: nat :: l != lo + 1 ==> Links(g', l, q) == Links(g, l, q)
    requires Filled(sim, cfg, s, vec, lo + 1, upper[hi - lo - 1], Links(g', lo + 1, q), next)
    ensures FilledPath(sim, cfg, s, vec, hi, lo, upper + [next], g', q)
  {
    hide Filled;
    forall i | 0 <= i < hi - lo ensures FilledAt(sim, cfg, s, vec, hi, upper + [next], g', q, i) {
      if i < hi - lo - 1 { assert FilledAt(sim, cfg, s, vec, hi, upper, g, q, i); }
    }
  }

  lemma AppendUntouched(s: Index, id: u64, vec: Vec, meta: Data, level: nat, layer: nat)
    requires |s.vecs| == |s.graph|
    ensures Untouched(s, Append(s, id, vec, meta, level), layer)
  {
  }

  lemma DescentOf(sim: Similarity, slot: Index, vec: Vec, start: nat, hi: int, level: nat, ep: nat)
    requires hi >= 0 && Descend(sim, slot, vec, start, hi, level, ep)
    ensures Descend(sim, slot, vec, start, hi, Smaller(level, hi), ep)
  {
  }

  /** A greedy path in the grown index is one in the index before. */
  lemma SamePath(sim: Similarity, s: Index, u: Index, vec: Vec, hi: int, lo: int, path: seq<nat>)
    requires GreedyPath(sim, u, vec, hi, lo, path) && path[0] < |s.graph| && Searchable(s)
    requires forall layer: nat :: Untouched(s, u, layer)
    ensures GreedyPath(sim, s, vec, hi, lo, path) && path[hi - lo] < |s.graph|
  {
    hide GreedyStep, Untouched, Searchable;
    PathStaysBelow(sim, s, u, vec, hi, lo, path, hi - lo);
    forall i | 0 <= i < hi - lo ensures StepAt(sim, s, vec, hi, path, i) {
      PathStaysBelow(sim, s, u, vec, hi, lo, path, i);
      SameNext(sim, s, u, vec, hi, lo, path, i);
    }
  }

  lemma {:induction false} PathStaysBelow(sim: Similarity, s: Index, u: Index, vec: Vec, hi: int, lo: int, path: seq<nat>, n: nat)
    requires GreedyPath(sim, u, vec, hi, lo, path) && path[0] < |s.graph| && Searchable(s) && n <= hi - lo
    requires forall layer: nat :: Untouched(s, u, layer)
    ensures path[n] < |s.graph|
  {
    hide GreedyStep, Untouched, Searchable;
    if n > 0 {
      PathStaysBelow(sim, s, u, vec, hi, lo, path, n - 1);
      SameNext(sim, s, u, vec, hi, lo, path, n - 1);
    }
  }

  lemma SameNext(sim: Similarity, s: Index, u: Index, vec: Vec, hi: int, lo: int, path: seq<nat>, n: nat)
    requires GreedyPath(sim, u, vec, hi, lo, path) && n < hi - lo && path[n] < |s.graph| && Searchable(s)
    requires forall layer: nat :: Untouched(s, u, layer)
    ensures hi - n >= 0 && GreedyStep(sim, s, vec, hi - n, path[n], path[n + 1]) && path[n + 1] < |s.graph|
  {
    hide GreedyStep, Untouched;
    var next := path[n + 1];
    assert StepAt(sim, u, vec, hi, path, n);
    assert Untouched(s, u, hi - n);
    SameGreedyStep(sim, s, u, vec, hi - n, path[n], next);
    StepInRange(sim, s, vec, hi - n, path[n], next);
  }

  lemma StepInRange(sim: Similarity, s: Index, vec: Vec, layer: nat, a: nat, b: nat)
    requires GreedyStep(sim, s, vec, layer, a, b)
    ensures b < |s.graph|
  {
  }

  /**
   What an insertion does, for every level it draws: starting at the entry point it goes greedily down to the layers
   the new node reaches up to, and on each of those the new node gets a list filled from the node it has come to.
   All of it is said of the graph as it was before the insertion.
   */
  lemma InsertPath(sim: Similarity, cfg: Config, s: Index, id: u64, vec: Vec, meta: Data, level: nat, t: Index)
    returns (down: seq<nat>, across: seq<nat>)
    requires cfg.M >= 1 && Inv(sim, cfg, s) && s.ids != [] && Insert(sim, cfg, s, id, vec, meta, level, t)
    ensures
      var top := if level < s.maxLayer then level else s.maxLayer;
      && GreedyPath(sim, s, vec, s.maxLayer, top, down) && down[0] == s.entry
      && FilledPath(sim, cfg, s, vec, top, -1, across, t.graph, |s.ids|) && across[0] == down[s.maxLayer - top]
  {
    hide Inv, Untouched, Searchable, Append, Insert, FilledPath, GreedyPath;
    var slot := Append(s, id, vec, meta, level);
    GrownSlots(sim, cfg, s, id, vec, meta, level);
    InvLinksInRange(sim, cfg, s);
    SearchableFrom(s);
    var ep, linked, last := InsertParts(sim, cfg, s, id, vec, meta, level, t);
    down, across := InsertPathBy(sim, cfg, s, slot, vec, level, ep, linked, last);
  }

  lemma SearchableFrom(s: Index)
    requires |s.graph| == |s.vecs| && forall layer: nat :: LinksInRange(s.graph, layer)
    ensures Searchable(s)
  {
  }

  lemma GrownSlots(sim: Similarity, cfg: Config, s: Index, id: u64, vec: Vec, meta: Data, level: nat)
    requires Inv(sim, cfg, s) && s.ids != []
    ensures
      var slot := Append(s, id, vec, meta, level);
      && |s.ids| == |s.graph| && s.entry < |s.graph| < |slot.graph| == |slot.vecs|
      && slot.entry == s.entry && slot.maxLayer == s.maxLayer
      && forall layer: nat :: Untouched(s, slot, layer)
  {
    forall layer: nat ensures Untouched(s, Append(s, id, vec, meta, level), layer) { AppendUntouched(s, id, vec, meta, level, layer); }
  }

  lemma InsertPathBy(sim: Similarity, cfg: Config, s: Index, slot: Index, vec: Vec, level: nat, ep: nat, linked: Index, last: nat)
    returns (down: seq<nat>, across: seq<nat>)
    requires cfg.M >= 1 && Searchable(s) && s.entry < |s.graph| < |slot.graph| == |slot.vecs|
    requires forall layer: nat :: Untouched(s, slot, layer)
    requires Descend(sim, slot, vec, s.entry, s.maxLayer, level, ep)
    requires LinkLayers(sim, cfg, slot, vec, |s.graph|, ep, Smaller(level, s.maxLayer), -1, linked, last)
    ensures
      var top := if level < s.maxLayer then level else s.maxLayer;
      && GreedyPath(sim, s, vec, s.maxLayer, top, down) && down[0] == s.entry
      && FilledPath(sim, cfg, s, vec, top, -1, across, linked.graph, |s.graph|) && across[0] == down[s.maxLayer - top]
  {
    hide Descend, LinkLayers, GreedyPath, FilledPath, Untouched;
    var top := Smaller(level, s.maxLayer);
    DescentOf(sim, slot, vec, s.entry, s.maxLayer, level, ep);
    down := DescentPath(sim, slot, vec, s.entry, s.maxLayer, top, ep);
    SamePath(sim, s, slot, vec, s.maxLayer, top, down);
    across := LinkLayersFill(sim, cfg, s, slot, vec, |s.graph|, ep, top, -1, linked, last);
  }
}
