/**
 What a wide search finds: exactly the live slots that layer 0 connects to the node where the descent
 lands.  It is exact if and only if those are all live slots, which holds while nothing was pruned.
 */
module HnswExact {
  import opened Bytes
  import opened Ranking
  import opened Reachability
  import opened BeamSearch
  import opened Selection
  import opened Hnsw
  import opened HnswLists
  import opened HnswInvariant
  import opened HnswInsert
  import opened HnswSearch

  // ---------- where the descent lands ----------

  lemma InvLinksInRange(sim: Similarity, cfg: Config, s: Index)
    requires Inv(sim, cfg, s)
    ensures |s.graph| == |s.vecs| && forall layer: nat :: LinksInRange(s.graph, layer)
  {
    forall layer: nat ensures LinksInRange(s.graph, layer) { ListsInRange(sim, cfg, s, layer); }
  }

  ghost predicate Searchable(s: Index) {
    |s.vecs| == |s.graph| && forall layer: nat :: LinksInRange(s.graph, layer)
  }

  /** The node the greedy descent over layers `hi`, ..., `lo + 1` ends at. */
  ghost function Landing(sim: Similarity, s: Index, query: Vec, start: nat, hi: int, lo: int): (ep: nat)
    requires lo >= -1 && Searchable(s) && start < |s.graph|
    ensures ep < |s.graph|
    decreases hi - lo
  {
    if hi <= lo then start
    else
      var prev := Landing(sim, s, query, start, hi, Above(lo));
      var scores := ScoresTo(sim, s.vecs, query);
      GreedyLocalMaximum(s.graph, Above(lo), scores, prev, 1);
      SearchLayer(s.graph, Above(lo), scores, prev, 1)[0].node
  }

  /** A beam of width one leaves no tie open: the descent always lands on the same node. */
  lemma {:induction false} DescentLands(sim: Similarity, s: Index, query: Vec, start: nat, hi: int, lo: int, ep: nat)
    requires lo >= -1 && Searchable(s) && start < |s.graph|
    ensures Descend(sim, s, query, start, hi, lo, ep) <==> ep == Landing(sim, s, query, start, hi, lo)
    decreases hi - lo
  {
    if lo < hi {
      var prev := Landing(sim, s, query, start, hi, Above(lo));
      if Descend(sim, s, query, start, hi, lo, ep) {
        var p, out :|
          && Descend(sim, s, query, start, hi, Above(lo), p)
          && Hit(sim, s, query, p, 1, Above(lo), out)
          && ep == Front(out, p);
        DescentLands(sim, s, query, start, hi, Above(lo), p);
        OneHit(sim, s, query, prev, Above(lo), out);
      }
      DescentLands(sim, s, query, start, hi, Above(lo), prev);
      var found := SearchLayer(s.graph, Above(lo), ScoresTo(sim, s.vecs, query), prev, 1);
      OneHit(sim, s, query, prev, Above(lo), found);
      if ep == Front(found, prev) {
        assert Descend(sim, s, query, start, hi, lo, ep);
      }
    }
  }

  lemma OneHit(sim: Similarity, s: Index, query: Vec, ep: nat, layer: nat, out: seq<Scored>)
    requires Searchable(s) && ep < |s.graph|
    ensures
      var found := SearchLayer(s.graph, layer, ScoresTo(sim, s.vecs, query), ep, 1);
      |found| == 1 && Hit(sim, s, query, ep, 1, layer, found) && (Hit(sim, s, query, ep, 1, layer, out) ==> out == found)
  {
    var scores := ScoresTo(sim, s.vecs, query);
    var found := SearchLayer(s.graph, layer, scores, ep, 1);
    GreedyLocalMaximum(s.graph, layer, scores, ep, 1);
    if Hit(sim, s, query, ep, 1, layer, out) {
      SortedCopyElements(out, found);
      assert out[0] in found;
    }
  }

  /** There is a live slot to start from. */
  predicate Startable(s: Index) {
    s.ids != [] && StartNode(s) != |s.tomb|
  }

  /** The slots that layer 0 connects to the node a search lands on. */
  ghost function Reached(sim: Similarity, s: Index, query: Vec): set<nat> {
    if Searchable(s) && Startable(s) && StartNode(s) < |s.graph|
    then ReachableFrom(s.graph, 0, Landing(sim, s, query, StartNode(s), s.maxLayer, 0))
    else {}
  }

  lemma ReachedInRange(sim: Similarity, s: Index, query: Vec)
    ensures Reached(sim, s, query) <= AllNodes(s) && |Reached(sim, s, query)| <= |s.graph|
  {
    SubsetCount(Reached(sim, s, query), AllNodes(s));
  }

  /**
   Every answer of every search is a live slot with its own similarity that layer 0 connects to the
   landing node, best first, each slot once, at most `k` for `k >= 1`.
   */
  lemma SearchSound(sim: Similarity, cfg: Config, ef: int, s: Index, query: Vec, k: int, out: seq<Answer>)
    returns (slots: seq<nat>)
    requires Inv(sim, cfg, s) && Search(sim, ef, s, query, k, out)
    ensures AnswersFrom(sim, s, query, slots, out)
    ensures forall i :: 0 <= i < |slots| ==> slots[i] in Reached(sim, s, query)
    ensures k >= 1 ==> |out| <= k
  {
    InvLinksInRange(sim, cfg, s);
    if Startable(s) { StartNodeInRange(s); }
    assert |s.vecs| == |s.ids| == |s.tomb|;
    hide Inv, Search;
    slots := SearchReaches(sim, ef, s, query, k, out);
  }

  /** So much needs only links and a starting node in range. */
  lemma SearchReaches(sim: Similarity, ef: int, s: Index, query: Vec, k: int, out: seq<Answer>) returns (slots: seq<nat>)
    requires Searchable(s) && |s.vecs| == |s.ids| == |s.tomb| && (Startable(s) ==> StartNode(s) < |s.graph|)
    requires Search(sim, ef, s, query, k, out)
    ensures AnswersFrom(sim, s, query, slots, out)
    ensures forall i :: 0 <= i < |slots| ==> slots[i] in Reached(sim, s, query)
    ensures k >= 1 ==> |out| <= k
  {
    if !Startable(s) { return []; }
    var ep, cands :|
      && Descend(sim, s, query, StartNode(s), s.maxLayer, 0, ep)
      && Hit(sim, s, query, ep, ef, 0, cands)
      && NodesBelow(cands, |s.ids|)
      && out == Collect(cands, s.tomb, s.ids, k, []);
    DescentLands(sim, s, query, StartNode(s), s.maxLayer, 0, ep);
    hide Descend, Collect;
    HitReaches(sim, s, query, ep, ef, cands);
    CollectTakesLive(cands, s.tomb, s.ids, k);
    slots := AnsweredSlots(sim, s, query, cands, k, out);
  }

  /** Whatever its width, a layer search returns reachable nodes. */
  lemma HitReaches(sim: Similarity, s: Index, query: Vec, ep: nat, ef: int, cands: seq<Scored>)
    requires Searchable(s) && Hit(sim, s, query, ep, ef, 0, cands)
    ensures Descending(cands) && NoDuplicates(Nodes(cands))
    ensures forall e :: e in cands ==> e.node < |s.vecs| && e.score == sim(query, s.vecs[e.node])
    ensures forall v :: v in Nodes(cands) ==> v in ReachableFrom(s.graph, 0, ep)
  {
    var scores := ScoresTo(sim, s.vecs, query);
    var found := SearchLayer(s.graph, 0, scores, ep, ef);
    BeamClosure(s.graph, 0, scores, ep, ef);
    SortedCopyElements(cands, found);
    NodesDistinctAfterSort(cands, found);
    forall v | v in Nodes(cands) ensures v in ReachableFrom(s.graph, 0, ep) {
      var i :| 0 <= i < |cands| && Nodes(cands)[i] == v;
      assert cands[i] in found;
    }
  }

  // ---------- what a search of any width answers ----------

  /** The slots a search looks at on layer 0. */
  ghost function Visited(sim: Similarity, ef: int, s: Index, query: Vec): set<nat> {
    if Searchable(s) && Startable(s) && StartNode(s) < |s.graph| then
      var ep := Landing(sim, s, query, StartNode(s), s.maxLayer, 0);
      FinalBeam(s.graph, 0, ScoresTo(sim, s.vecs, query), ep, ef).visited
    else {}
  }

  lemma VisitedReached(sim: Similarity, ef: int, s: Index, query: Vec)
    ensures Visited(sim, ef, s, query) <= Reached(sim, s, query)
    ensures |Visited(sim, ef, s, query)| > Width(ef) || Visited(sim, ef, s, query) == Reached(sim, s, query)
  {
    if Searchable(s) && Startable(s) && StartNode(s) < |s.graph| {
      var ep := Landing(sim, s, query, StartNode(s), s.maxLayer, 0);
      VisitsEnough(s.graph, 0, ScoresTo(sim, s.vecs, query), ep, ef);
    }
  }

  /** No answer is less similar than this. */
  ghost predicate NoBetter(score: real, out: seq<Answer>) {
    forall i :: 0 <= i < |out| ==> score <= out[i].score
  }

  /**
   In every index and for every beam: no live slot that was looked at and left out is better than any answer,
   and the layer-0 links of an answered slot lead to answered slots, deleted slots, or slots no better than any
   answer.  More slots are looked at than the beam is wide, or all that can be reached.
   */
  lemma AnswersAreLocallyBest(sim: Similarity, cfg: Config, ef: int, s: Index, query: Vec, k: int, out: seq<Answer>)
    returns (slots: seq<nat>)
    requires Inv(sim, cfg, s) && Search(sim, ef, s, query, k, out)
    ensures |s.vecs| == |s.tomb| == |s.graph| && AnswersFrom(sim, s, query, slots, out)
    ensures Visited(sim, ef, s, query) <= Reached(sim, s, query)
    ensures |Visited(sim, ef, s, query)| > Width(ef) || Visited(sim, ef, s, query) == Reached(sim, s, query)
    ensures forall i :: 0 <= i < |slots| ==> slots[i] in Visited(sim, ef, s, query)
    ensures
      forall v :: v in Visited(sim, ef, s, query) && v < |s.vecs| && !s.tomb[v] && v !in slots ==>
        NoBetter(sim(query, s.vecs[v]), out)
    ensures
      forall i, x :: 0 <= i < |slots| && x in Links(s.graph, 0, slots[i]) ==>
        x < |s.vecs| && (x in slots || s.tomb[x] || NoBetter(sim(query, s.vecs[x]), out))
  {
    VisitedReached(sim, ef, s, query);
    if !Startable(s) { return []; }
    InvLinksInRange(sim, cfg, s);
    StartNodeInRange(s);
    var ep, cands :|
      && Descend(sim, s, query, StartNode(s), s.maxLayer, 0, ep)
      && Hit(sim, s, query, ep, ef, 0, cands)
      && NodesBelow(cands, |s.ids|)
      && out == Collect(cands, s.tomb, s.ids, k, []);
    DescentLands(sim, s, query, StartNode(s), s.maxLayer, 0, ep);
    hide Inv, Descend, Collect, Reached, Landing;
    slots := HitAnswers(sim, s, query, ep, ef, cands, k, out);
  }

  /** Where the search visited `seen` on layer 0, every candidate's links included. */
  ghost predicate BestOfSeen(sim: Similarity, s: Index, query: Vec, seen: set<nat>, cands: seq<Scored>)
    requires |s.vecs| == |s.graph|
  {
    && (forall v :: v in seen ==> v < |s.vecs| && (v in Nodes(cands) || AtLeast(cands, sim(query, s.vecs[v]))))
    && (forall v :: v in Nodes(cands) ==> v in seen)
    && forall v, x :: v in Nodes(cands) && x in Links(s.graph, 0, v) ==> x in seen
  }

  lemma HitAnswers(sim: Similarity, s: Index, query: Vec, ep: nat, ef: int, cands: seq<Scored>, k: int, out: seq<Answer>)
    returns (slots: seq<nat>)
    requires Searchable(s) && |s.vecs| == |s.ids| == |s.tomb| && Hit(sim, s, query, ep, ef, 0, cands)
    requires NodesBelow(cands, |s.ids|) && out == Collect(cands, s.tomb, s.ids, k, [])
    ensures AnswersFrom(sim, s, query, slots, out)
    ensures
      var seen := FinalBeam(s.graph, 0, ScoresTo(sim, s.vecs, query), ep, ef).visited;
      && (forall i :: 0 <= i < |slots| ==> slots[i] in seen)
      && (forall v :: v in seen && v < |s.vecs| && !s.tomb[v] && v !in slots ==> NoBetter(sim(query, s.vecs[v]), out))
      && (forall i, x :: 0 <= i < |slots| && x in Links(s.graph, 0, slots[i]) ==>
            x < |s.vecs| && (x in slots || s.tomb[x] || NoBetter(sim(query, s.vecs[x]), out)))
  {
    HitReaches(sim, s, query, ep, ef, cands);
    HitBestOfSeen(sim, s, query, ep, ef, cands);
    CollectTakesLive(cands, s.tomb, s.ids, k);
    hide Hit, Collect, FinalBeam;
    var seen := FinalBeam(s.graph, 0, ScoresTo(sim, s.vecs, query), ep, ef).visited;
    slots := AnsweredSlots(sim, s, query, cands, k, out);
    hide LiveOf;
    forall v | v in seen && v < |s.vecs| && !s.tomb[v] && v !in slots ensures NoBetter(sim(query, s.vecs[v]), out) {
      LeftOutNoBetter(sim, s, query, seen, cands, slots, out, v);
    }
    forall i, x | 0 <= i < |slots| && x in Links(s.graph, 0, slots[i]) ensures x in seen && x < |s.vecs| {
      assert slots[i] in Nodes(cands);
    }
  }

  lemma HitBestOfSeen(sim: Similarity, s: Index, query: Vec, ep: nat, ef: int, cands: seq<Scored>)
    requires Searchable(s) && Hit(sim, s, query, ep, ef, 0, cands)
    ensures BestOfSeen(sim, s, query, FinalBeam(s.graph, 0, ScoresTo(sim, s.vecs, query), ep, ef).visited, cands)
  {
    hide FinalBeam, SearchLayer, BestOfSeen;
    var scores := ScoresTo(sim, s.vecs, query);
    var found := SearchLayer(s.graph, 0, scores, ep, ef);
    LayerBestOfSeen(sim, s, query, ep, ef);
    SortedCopyElements(cands, found);
    SameNodes(cands, found);
    SameBestOfSeen(sim, s, query, FinalBeam(s.graph, 0, scores, ep, ef).visited, found, cands);
  }

  lemma LayerBestOfSeen(sim: Similarity, s: Index, query: Vec, ep: nat, ef: int)
    requires Searchable(s) && ep < |s.graph|
    ensures
      var scores := ScoresTo(sim, s.vecs, query);
      BestOfSeen(sim, s, query, FinalBeam(s.graph, 0, scores, ep, ef).visited, SearchLayer(s.graph, 0, scores, ep, ef))
  {
    var scores := ScoresTo(sim, s.vecs, query);
    hide SearchLayer, FinalBeam, Descending, NoDuplicates, Reaches, BestOfSeen, AtLeast;
    BeamClosure(s.graph, 0, scores, ep, ef);
    FoundBestOfSeen(sim, s, query, FinalBeam(s.graph, 0, scores, ep, ef).visited, SearchLayer(s.graph, 0, scores, ep, ef));
  }

  lemma FoundBestOfSeen(sim: Similarity, s: Index, query: Vec, seen: set<nat>, found: seq<Scored>)
    requires |s.vecs| == |s.graph| && forall v :: v in seen ==> v < |s.graph|
    requires forall e :: e in found ==> e.node in seen
    requires forall v :: v in seen && v !in Nodes(found) ==> AtLeast(found, ScoresTo(sim, s.vecs, query)[v])
    requires forall e, x :: e in found && x in Links(s.graph, 0, e.node) ==> x in seen
    ensures BestOfSeen(sim, s, query, seen, found)
  {
    hide AtLeast;
    forall v | v in Nodes(found) ensures exists e :: e in found && e.node == v {
      var i :| 0 <= i < |found| && Nodes(found)[i] == v;
      assert found[i] in found;
    }
  }

  lemma SameBestOfSeen(sim: Similarity, s: Index, query: Vec, seen: set<nat>, found: seq<Scored>, cands: seq<Scored>)
    requires |s.vecs| == |s.graph| && BestOfSeen(sim, s, query, seen, found)
    requires (forall e :: e in cands <==> e in found) && forall v :: v in Nodes(cands) <==> v in Nodes(found)
    ensures BestOfSeen(sim, s, query, seen, cands)
  {
  }

  lemma LeftOutNoBetter(sim: Similarity, s: Index, query: Vec, seen: set<nat>, cands: seq<Scored>, slots: seq<nat>,
                        out: seq<Answer>, v: nat)
    requires |s.vecs| == |s.graph| == |s.tomb| && NodesBelow(cands, |s.tomb|) && v in seen && v < |s.vecs| && !s.tomb[v]
    requires BestOfSeen(sim, s, query, seen, cands) && Descending(cands) && NoDuplicates(Nodes(cands))
    requires forall e :: e in cands ==> e.node < |s.vecs| && e.score == sim(query, s.vecs[e.node])
    requires AnswersFrom(sim, s, query, slots, out)
    requires |out| <= |LiveOf(cands, s.tomb)| && slots == Nodes(LiveOf(cands, s.tomb))[..|out|] && v !in slots
    ensures NoBetter(sim(query, s.vecs[v]), out)
  {
    LiveOfKeeps(cands, s.tomb);
    LiveNode(cands, s.tomb, v);
    var live := LiveOf(cands, s.tomb);
    hide LiveOf;
    assert forall j :: 0 <= j < |out| ==> slots[j] == Nodes(live)[j];
    forall i | 0 <= i < |out| ensures sim(query, s.vecs[v]) <= out[i].score {
      assert live[i] in live && slots[i] == live[i].node;
      if v in Nodes(live) {
        var j :| 0 <= j < |live| && Nodes(live)[j] == v;
        assert live[j] in live && j >= |out|;
      }
    }
  }

  // ---------- what a wide search answers ----------

  ghost function ScoresOfAnswers(out: seq<Answer>): (r: seq<real>)
    ensures |r| == |out| && forall i :: 0 <= i < |out| ==> r[i] == out[i].score
  {
    seq(|out|, i requires 0 <= i < |out| => out[i].score)
  }

  /** Live slots among the given ones. */
  ghost function LiveIn(tomb: seq<bool>, seen: set<nat>): (r: seq<bool>)
    ensures |r| == |tomb| && forall v :: 0 <= v < |tomb| ==> r[v] == (!tomb[v] && v in seen)
  {
    seq(|tomb|, v requires 0 <= v < |tomb| => !tomb[v] && v in seen)
  }

  /** The scores of the live ones of the given slots, ranked. */
  ghost function RankingOver(sim: Similarity, s: Index, query: Vec, seen: set<nat>): seq<real>
    requires |s.vecs| == |s.tomb|
  {
    Ranked(KeepWhere(ScoresTo(sim, s.vecs, query), LiveIn(s.tomb, seen)))
  }

  /** The beam has room for everything the search can reach; a beam as wide as the index always has. */
  ghost predicate Wide(sim: Similarity, ef: int, s: Index, query: Vec) {
    Width(ef) >= |Reached(sim, s, query)|
  }

  lemma WideEnough(sim: Similarity, ef: int, s: Index, query: Vec)
    requires ef >= |s.ids| == |s.graph|
    ensures Wide(sim, ef, s, query)
  {
    ReachedInRange(sim, s, query);
  }

  /** A wide layer-0 search finds exactly what is reachable. */
  lemma WideSearchFindsReached(sim: Similarity, s: Index, query: Vec, ep: nat, ef: int, cands: seq<Scored>)
    requires Hit(sim, s, query, ep, ef, 0, cands) && Width(ef) >= |ReachableFrom(s.graph, 0, ep)|
    ensures Descending(cands) && NoDuplicates(Nodes(cands))
    ensures forall v :: v in Nodes(cands) <==> v in ReachableFrom(s.graph, 0, ep)
    ensures forall e :: e in cands ==> e.node < |s.vecs| && e.score == sim(query, s.vecs[e.node])
  {
    var scores := ScoresTo(sim, s.vecs, query);
    var found := SearchLayer(s.graph, 0, scores, ep, ef);
    ReachabilityExact(s.graph, 0, scores, ep, ef);
    SortedCopyElements(cands, found);
    NodesDistinctAfterSort(cands, found);
    SameNodes(cands, found);
  }

  /**
   In every index, pruned or not: a wide search answers the first `k` of the ranking of exactly those
   live slots that layer 0 connects to the node the descent lands on.
   */
  lemma AnswersAreTheReached(sim: Similarity, cfg: Config, ef: int, s: Index, query: Vec, k: int, out: seq<Answer>)
    requires Inv(sim, cfg, s) && Wide(sim, ef, s, query) && Search(sim, ef, s, query, k, out)
    ensures ScoresOfAnswers(out) == FirstK(RankingOver(sim, s, query, Reached(sim, s, query)), k)
  {
    InvLinksInRange(sim, cfg, s);
    if Startable(s) {
      StartNodeInRange(s);
      var ep, cands :|
        && Descend(sim, s, query, StartNode(s), s.maxLayer, 0, ep)
        && Hit(sim, s, query, ep, ef, 0, cands)
        && NodesBelow(cands, |s.ids|)
        && out == Collect(cands, s.tomb, s.ids, k, []);
      DescentLands(sim, s, query, StartNode(s), s.maxLayer, 0, ep);
      hide Inv, Descend;
      WideSearchFindsReached(sim, s, query, ep, ef, cands);
      LiveScoresRanked(sim, s, query, cands, Reached(sim, s, query));
      CollectScores(cands, s.tomb, s.ids, k);
    } else {
      NothingKept(s.tomb, Reached(sim, s, query));
      KeepWhereIsScoresAt(ScoresTo(sim, s.vecs, query), LiveIn(s.tomb, Reached(sim, s, query)));
    }
  }

  lemma CollectScores(cands: seq<Scored>, tomb: seq<bool>, ids: seq<u64>, k: int)
    requires |tomb| == |ids| && NodesBelow(cands, |ids|)
    ensures ScoresOfAnswers(Collect(cands, tomb, ids, k, [])) == FirstK(ScoresOf(LiveOf(cands, tomb)), k)
  {
    CollectTakesLive(cands, tomb, ids, k);
  }

  lemma NothingKept(tomb: seq<bool>, seen: set<nat>)
    requires seen == {}
    ensures KeptSlots(LiveIn(tomb, seen)) == []
  {
    var kept := KeptSlots(LiveIn(tomb, seen));
    if kept != [] { SomeElement(kept); }
  }

  lemma SomeElement<T>(xs: seq<T>)
    requires xs != []
    ensures exists x :: x in xs
  {
    assert xs[0] in xs;
  }

  lemma LiveScoresRanked(sim: Similarity, s: Index, query: Vec, cands: seq<Scored>, seen: set<nat>)
    requires |s.vecs| == |s.ids| == |s.tomb| && NodesBelow(cands, |s.ids|)
    requires Descending(cands) && NoDuplicates(Nodes(cands))
    requires forall v :: v in Nodes(cands) <==> v in seen
    requires forall e :: e in cands ==> e.score == sim(query, s.vecs[e.node])
    ensures ScoresOf(LiveOf(cands, s.tomb)) == RankingOver(sim, s, query, seen)
  {
    var scores := ScoresTo(sim, s.vecs, query);
    var keep := LiveIn(s.tomb, seen);
    var live := LiveOf(cands, s.tomb);
    LiveOfKeeps(cands, s.tomb);
    LiveNodesAreKept(cands, s.tomb, seen);
    assert forall i :: 0 <= i < |live| ==> live[i] in cands;
    RankedSlots(scores, keep, live);
  }

  lemma LiveNodesAreKept(cands: seq<Scored>, tomb: seq<bool>, seen: set<nat>)
    requires NodesBelow(cands, |tomb|)
    requires forall v :: v in Nodes(cands) <==> v in seen
    ensures forall v :: v in Nodes(LiveOf(cands, tomb)) <==> v in KeptSlots(LiveIn(tomb, seen))
  {
    forall v ensures v in Nodes(LiveOf(cands, tomb)) <==> v in KeptSlots(LiveIn(tomb, seen)) {
      LiveNode(cands, tomb, v);
    }
  }

  lemma LiveNode(cands: seq<Scored>, tomb: seq<bool>, v: nat)
    requires NodesBelow(cands, |tomb|)
    ensures v in Nodes(LiveOf(cands, tomb)) <==> v < |tomb| && !tomb[v] && v in Nodes(cands)
  {
    LiveOfElements(cands, tomb);
    var live := LiveOf(cands, tomb);
    if v in Nodes(live) {
      var i :| 0 <= i < |live| && Nodes(live)[i] == v;
      assert live[i] in live;
      var j :| 0 <= j < |cands| && cands[j] == live[i];
      assert Nodes(cands)[j] == v;
    }
    if v in Nodes(cands) && !(v < |tomb| && tomb[v]) {
      var i :| 0 <= i < |cands| && Nodes(cands)[i] == v;
      assert cands[i] in cands;
      var j :| 0 <= j < |live| && live[j] == cands[i];
      assert Nodes(live)[j] == v;
    }
  }

  // ---------- when it is exact ----------

  /** The reference answer: the scores of all live vectors, ranked. */
  ghost function LiveRanking(sim: Similarity, s: Index, query: Vec): seq<real>
    requires |s.vecs| == |s.tomb|
  {
    Ranked(KeepWhere(ScoresTo(sim, s.vecs, query), Negated(s.tomb)))
  }

  /** Layer 0 connects every live slot to the node the search lands on. */
  ghost predicate AllLiveReached(sim: Similarity, s: Index, query: Vec) {
    forall v :: 0 <= v < |s.tomb| && !s.tomb[v] ==> v in Reached(sim, s, query)
  }

  /** Every search for at least one result scores like a full scan of the live vectors. */
  ghost predicate AlwaysExact(sim: Similarity, ef: int, s: Index, query: Vec)
    requires |s.vecs| == |s.tomb|
  {
    forall k: int, out :: k >= 1 && Search(sim, ef, s, query, k, out) ==> ScoresOfAnswers(out) == FirstK(LiveRanking(sim, s, query), k)
  }

  /** A wide search is exact for every `k` if and only if every live slot is reached. */
  lemma ExactIffReached(sim: Similarity, cfg: Config, ef: int, s: Index, query: Vec)
    requires Inv(sim, cfg, s) && Wide(sim, ef, s, query)
    ensures AlwaysExact(sim, ef, s, query) <==> AllLiveReached(sim, s, query)
  {
    assert |s.vecs| == |s.tomb|;
    hide Search, Inv, Wide;
    forall k: int, out | k >= 1 && Search(sim, ef, s, query, k, out) && AllLiveReached(sim, s, query)
      ensures ScoresOfAnswers(out) == FirstK(LiveRanking(sim, s, query), k)
    {
      ExactWhereReached(sim, cfg, ef, s, query, k, out);
    }
    if AlwaysExact(sim, ef, s, query) {
      var out := SearchExists(sim, cfg, ef, s, query, |s.tomb| + 1);
      ExactOnlyWhereReached(sim, cfg, ef, s, query, |s.tomb| + 1, out);
    }
  }

  lemma ExactWhereReached(sim: Similarity, cfg: Config, ef: int, s: Index, query: Vec, k: int, out: seq<Answer>)
    requires Inv(sim, cfg, s) && Wide(sim, ef, s, query) && Search(sim, ef, s, query, k, out)
    requires AllLiveReached(sim, s, query)
    ensures ScoresOfAnswers(out) == FirstK(LiveRanking(sim, s, query), k)
  {
    AnswersAreTheReached(sim, cfg, ef, s, query, k, out);
    assert LiveIn(s.tomb, Reached(sim, s, query)) == Negated(s.tomb);
  }

  /** One answer with room for every live slot already tells. */
  lemma ExactOnlyWhereReached(sim: Similarity, cfg: Config, ef: int, s: Index, query: Vec, k: int, out: seq<Answer>)
    requires Inv(sim, cfg, s) && Wide(sim, ef, s, query) && Search(sim, ef, s, query, k, out)
    requires (k <= 0 || k >= |s.tomb|) && ScoresOfAnswers(out) == FirstK(LiveRanking(sim, s, query), k)
    ensures AllLiveReached(sim, s, query)
  {
    AnswersAreTheReached(sim, cfg, ef, s, query, k, out);
    hide Inv, Search, Wide, Reached;
    var seen := Reached(sim, s, query);
    RankingSize(sim, s, query, LiveIn(s.tomb, seen));
    RankingSize(sim, s, query, Negated(s.tomb));
    NoneMissing(s.tomb, seen);
  }

  lemma RankingSize(sim: Similarity, s: Index, query: Vec, keep: seq<bool>)
    requires |s.vecs| == |keep|
    ensures |Ranked(KeepWhere(ScoresTo(sim, s.vecs, query), keep))| == |KeptSlots(keep)| <= |keep|
  {
    var kept := KeepWhere(ScoresTo(sim, s.vecs, query), keep);
    KeepWhereIsScoresAt(ScoresTo(sim, s.vecs, query), keep);
    assert |Ranked(kept)| == |multiset(Ranked(kept))| == |multiset(kept)| == |kept|;
    DistinctCount(KeptSlots(keep), SetOf(KeptSlots(keep)));
    assert SetOf(KeptSlots(keep)) <= Below(|keep|);
    SubsetCount(SetOf(KeptSlots(keep)), Below(|keep|));
  }

  lemma NoneKeptIff(keep: seq<bool>)
    ensures |KeptSlots(keep)| == 0 <==> forall i :: 0 <= i < |keep| ==> !keep[i]
  {
    var kept := KeptSlots(keep);
    if kept != [] { SomeElement(kept); }
    forall i | 0 <= i < |keep| && keep[i] ensures kept != [] { assert i in kept; }
  }

  lemma NoneLiveIff(tomb: seq<bool>, seen: set<nat>)
    ensures |KeptSlots(LiveIn(tomb, seen))| == 0 <==> forall v :: v in seen && v < |tomb| ==> tomb[v]
  {
    hide KeptSlots;
    NoneKeptIff(LiveIn(tomb, seen));
    forall v | v in seen && v < |tomb| ensures LiveIn(tomb, seen)[v] <==> !tomb[v] {}
  }

  /** A search without a limit answers nothing if and only if it reaches nothing live. */
  lemma NothingAnsweredIff(sim: Similarity, cfg: Config, ef: int, s: Index, query: Vec, k: int, out: seq<Answer>)
    requires Inv(sim, cfg, s) && Wide(sim, ef, s, query) && k <= 0 && Search(sim, ef, s, query, k, out)
    ensures out == [] <==> forall v :: v in Reached(sim, s, query) && v < |s.tomb| ==> s.tomb[v]
  {
    AnswersAreTheReached(sim, cfg, ef, s, query, k, out);
    var seen := Reached(sim, s, query);
    hide Search, Inv, Wide, Reached;
    RankingSize(sim, s, query, LiveIn(s.tomb, seen));
    NoneLiveIff(s.tomb, seen);
    hide Ranked, KeepWhere, KeptSlots, LiveIn;
    assert |out| == |RankingOver(sim, s, query, seen)|;
  }

  lemma NoneMissing(tomb: seq<bool>, seen: set<nat>)
    requires |KeptSlots(LiveIn(tomb, seen))| == |KeptSlots(Negated(tomb))|
    ensures forall v :: 0 <= v < |tomb| && !tomb[v] ==> v in seen
  {
    var some, all := KeptSlots(LiveIn(tomb, seen)), KeptSlots(Negated(tomb));
    DistinctCount(some, SetOf(some));
    DistinctCount(all, SetOf(all));
    assert SetOf(some) <= SetOf(all);
    SubsetCount(SetOf(some), SetOf(all));
    forall v | 0 <= v < |tomb| && !tomb[v] ensures v in seen {
      assert Negated(tomb)[v] && v in all;
      assert v in SetOf(some);
    }
  }

  /** Every search has a possible answer. */
  lemma SearchExists(sim: Similarity, cfg: Config, ef: int, s: Index, query: Vec, k: int) returns (out: seq<Answer>)
    requires Inv(sim, cfg, s)
    ensures Search(sim, ef, s, query, k, out)
  {
    if !Startable(s) { return []; }
    InvLinksInRange(sim, cfg, s);
    StartNodeInRange(s);
    assert |s.tomb| == |s.ids| == |s.graph|;
    hide Inv, Descend, Collect, Hit, SearchLayer, Landing;
    var ep := Landing(sim, s, query, StartNode(s), s.maxLayer, 0);
    DescentLands(sim, s, query, StartNode(s), s.maxLayer, 0, ep);
    var cands := HitExists(sim, s, query, ep, ef);
    out := Collect(cands, s.tomb, s.ids, k, []);
  }

  lemma HitExists(sim: Similarity, s: Index, query: Vec, ep: nat, ef: int) returns (cands: seq<Scored>)
    requires Searchable(s) && ep < |s.graph|
    ensures Hit(sim, s, query, ep, ef, 0, cands) && NodesBelow(cands, |s.graph|)
  {
    hide SearchLayer;
    cands := SortDescending(SearchLayer(s.graph, 0, ScoresTo(sim, s.vecs, query), ep, ef));
    AllNodesClosed(s, 0);
    HitWithin(sim, s, query, ep, ef, 0, cands, AllNodes(s));
    forall i | 0 <= i < |cands| ensures cands[i].node < |s.graph| { assert cands[i] in cands; }
  }

  // ---------- while nothing was pruned ----------

  /** No list of layer 0 has ever lost a link. */
  ghost predicate NothingPruned(s: Index)
    requires Shape(s)
  {
    forall v :: 0 <= v < |s.graph| ==> SetOf(s.graph[v][0]) == s.offered[v][0]
  }

  /** Up to `2M + 1` slots the layer-0 lists are too short to be pruned. */
  lemma SmallIndexUnpruned(sim: Similarity, cfg: Config, s: Index)
    requires cfg.M >= 1 && Inv(sim, cfg, s) && |s.ids| <= 2 * cfg.M + 1
    ensures NothingPruned(s)
  {
    forall v | 0 <= v < |s.graph| ensures SetOf(s.graph[v][0]) == s.offered[v][0] {
      assert HasLayer(s, v, 0) && ListOk(sim, cfg, s, v, 0);
      var pool := s.offered[v][0];
      assert pool <= AllNodes(s) - {v};
      SubsetCount(pool, AllNodes(s) - {v});
      UnfilledHoldsAll(s.graph[v][0], pool, Mmax(cfg, 0), ScoresTo(sim, s.vecs, s.vecs[v]));
    }
  }

  lemma LinksAreOffered(s: Index)
    requires Shape(s) && NothingPruned(s)
    ensures LayerLinks(s.graph, 0) == OfferedGraph(s, 0)
  {
    forall v | 0 <= v < |s.graph| ensures LayerLinks(s.graph, 0)[v] == OfferedGraph(s, 0)[v] {
      assert Links(s.graph, 0, v) == s.graph[v][0];
    }
  }

  /** While no layer-0 link has been pruned, every slot is reached, wherever the search enters. */
  lemma UnprunedAllReached(sim: Similarity, cfg: Config, s: Index, query: Vec)
    requires Inv(sim, cfg, s) && NothingPruned(s)
    ensures AllLiveReached(sim, s, query)
  {
    InvLinksInRange(sim, cfg, s);
    if Startable(s) {
      StartNodeInRange(s);
      LinksAreOffered(s);
      var ep := Landing(sim, s, query, StartNode(s), s.maxLayer, 0);
      forall v: nat | v < |s.graph| ensures v in Reached(sim, s, query) {
        assert ep in Members(s, 0) && v in Members(s, 0);
        assert Reaches(OfferedGraph(s, 0), ep, v);
      }
    }
  }

  /** So then a search at least as wide as the index scores exactly like a full scan, whatever is deleted. */
  lemma ExactUntilPruned(sim: Similarity, cfg: Config, ef: int, s: Index, query: Vec, k: int, out: seq<Answer>)
    requires Inv(sim, cfg, s) && NothingPruned(s) && ef >= |s.ids|
    requires Search(sim, ef, s, query, k, out)
    ensures ScoresOfAnswers(out) == FirstK(LiveRanking(sim, s, query), k)
  {
    WideEnough(sim, ef, s, query);
    UnprunedAllReached(sim, cfg, s, query);
    ExactWhereReached(sim, cfg, ef, s, query, k, out);
  }
}
