/**
 Beam search on one layer, as a function of the layer's link lists.

 `Offer`, `Turn` and `Explore` are the loop bodies and the loop of the source; the theorems
 below say what the loop finds.  The method that runs it with heaps and the tagged visited
 buffer is proved equal to `SearchLayer` in module LayerSearch, and the concurrent model takes
 the same steps one lock region at a time.
 */
module BeamSearch {
  import opened Ranking
  import opened Reachability

  /** node -> layer -> list of neighbours */
  type Graph = seq<seq<seq<nat>>>

  /** A node that does not reach up to the layer has no links there. */
  function Links(g: Graph, layer: nat, v: nat): seq<nat> {
    if v < |g| && layer < |g[v]| then g[v][layer] else []
  }

  ghost function LayerLinks(g: Graph, layer: nat): (adj: Adj)
    ensures |adj| == |g|
    ensures forall v :: 0 <= v < |g| ==> adj[v] == set x | x in Links(g, layer, v)
  {
    seq(|g|, v requires 0 <= v < |g| => set x | x in Links(g, layer, v))
  }

  ghost predicate LinksInRange(g: Graph, layer: nat) {
    forall v, i :: 0 <= v < |g| && 0 <= i < |Links(g, layer, v)| ==> Links(g, layer, v)[i] < |g|
  }

  /** Candidate heap, result heap and visited nodes of a running search. */
  datatype Beam = Beam(cands: seq<Scored>, results: seq<Scored>, visited: set<nat>)

  function StartAt(scores: seq<real>, ep: nat): Beam
    requires ep < |scores|
  {
    var e := Scored(scores[ep], ep);
    Beam([e], [e], {ep})
  }

  /** The test that lets a neighbour into both heaps. */
  predicate Welcome(ef: int, b: Beam, score: real) {
    b.results == [] || score > b.results[|b.results| - 1].score || |b.results| < ef
  }

  /** One neighbour met during expansion. */
  function Offer(scores: seq<real>, ef: int, b: Beam, v: nat): Beam
    requires v < |scores|
  {
    if v in b.visited then b
    else
      var e := Scored(scores[v], v);
      var seen := b.visited + {v};
      if Welcome(ef, b, e.score) then
        var grown := Enqueue(b.results, e);
        Beam(Enqueue(b.cands, e), if |grown| > ef then grown[..|grown| - 1] else grown, seen)
      else
        Beam(b.cands, b.results, seen)
  }

  function OfferAll(scores: seq<real>, ef: int, b: Beam, nbs: seq<nat>): (r: Beam)
    requires forall i :: 0 <= i < |nbs| ==> nbs[i] < |scores|
    ensures b.visited <= r.visited
    ensures forall i :: 0 <= i < |nbs| ==> nbs[i] in r.visited
    ensures forall v :: v in r.visited ==> v in b.visited || v in nbs
    ensures r.visited == b.visited ==> r == b
  {
    if nbs == [] then b
    else
      var last := |nbs| - 1;
      var before := OfferAll(scores, ef, b, nbs[..last]);
      assert forall i :: 0 <= i < last ==> nbs[i] == nbs[..last][i];
      Offer(scores, ef, before, nbs[last])
  }

  /** The loop's exit test on the best queued candidate. */
  predicate Hopeless(ef: int, b: Beam, c: Scored) {
    b.results != [] && c.score < b.results[|b.results| - 1].score && |b.results| >= ef
  }

  /** Pop the best candidate. */
  function Pop(b: Beam): Beam
    requires b.cands != []
  {
    b.(cands := b.cands[1..])
  }

  /** All nodes of the graph not seen yet: every expansion that learns nothing shrinks the queue. */
  function Unseen(n: nat, b: Beam): set<nat> {
    set v: nat | v < n && v !in b.visited
  }

  /** One turn of the loop: pop the best candidate and offer its neighbours in list order. */
  function Turn(g: Graph, layer: nat, scores: seq<real>, ef: int, b: Beam): (r: Beam)
    requires |scores| == |g| && LinksInRange(g, layer)
    requires b.cands != []
    ensures Unseen(|g|, r) < Unseen(|g|, b) || (r.visited == b.visited && |r.cands| < |b.cands|)
  {
    var r := OfferAll(scores, ef, Pop(b), Links(g, layer, b.cands[0].node));
    assert r.visited != b.visited ==> exists v :: v in r.visited && v !in b.visited && v in Unseen(|g|, b);
    r
  }

  /** The search loop, from any intermediate state. */
  function Explore(g: Graph, layer: nat, scores: seq<real>, ef: int, b: Beam): Beam
    requires |scores| == |g| && LinksInRange(g, layer)
    decreases Unseen(|g|, b), |b.cands|
  {
    if b.cands == [] || Hopeless(ef, b, b.cands[0]) then b
    else Explore(g, layer, scores, ef, Turn(g, layer, scores, ef, b))
  }

  function SearchLayer(g: Graph, layer: nat, scores: seq<real>, ep: nat, ef: int): seq<Scored>
    requires |scores| == |g| && LinksInRange(g, layer) && ep < |g|
  {
    Explore(g, layer, scores, ef, StartAt(scores, ep)).results
  }

  /** The width the search really uses: with `ef <= 0` the result heap still holds one entry. */
  function Width(ef: int): nat {
    if ef <= 1 then 1 else ef
  }

  // ---------- what the loop keeps ----------

  ghost predicate EntriesOf(scores: seq<real>, b: Beam, q: seq<Scored>) {
    forall e :: e in q ==> e.node in b.visited && e.node < |scores| && e.score == scores[e.node]
  }

  ghost predicate HoldsBest(scores: seq<real>, ef: int, b: Beam)
    requires b.results != []
    requires forall v :: v in b.visited ==> v < |scores|
  {
    forall v :: v in b.visited ==>
      || Scored(scores[v], v) in b.results
      || (|b.results| == Width(ef) && scores[v] <= b.results[|b.results| - 1].score)
  }

  ghost predicate SoundBeam(scores: seq<real>, ef: int, b: Beam) {
    && (forall v :: v in b.visited ==> v < |scores|)
    && Queue(b.cands) && Queue(b.results)
    && EntriesOf(scores, b, b.cands) && EntriesOf(scores, b, b.results)
    && 0 < |b.results| <= Width(ef)
    && HoldsBest(scores, ef, b)
  }

  /** Every kept result is still queued, is `busy`, or has had all its links visited. */
  ghost predicate Expanded(g: Graph, layer: nat, b: Beam, busy: set<nat>) {
    forall e :: e in b.results ==> e in b.cands || e.node in busy || AllVisited(g, layer, b, e.node)
  }

  ghost predicate AllVisited(g: Graph, layer: nat, b: Beam, v: nat) {
    forall x :: x in Links(g, layer, v) ==> x in b.visited
  }

  ghost predicate VisitedReachable(g: Graph, layer: nat, ep: nat, b: Beam) {
    ep in b.visited && forall v :: v in b.visited ==> v < |g| && Reaches(LayerLinks(g, layer), ep, v)
  }

  lemma WorstIsLast(q: seq<Scored>, e: Scored)
    requires Queue(q) && e in q
    ensures e.score >= q[|q| - 1].score
  {
  }

  /** Pushing onto the result heap and dropping the worst of too many entries. */
  lemma PushAndDrop(q: seq<Scored>, e: Scored, ef: int, grown: seq<Scored>, kept: seq<Scored>)
    requires Queue(q) && 0 < |q| <= Width(ef) && e !in q
    requires |grown| == |q| + 1 && Queue(grown) && forall x :: x in grown <==> x in q || x == e
    requires kept == if |grown| > ef then grown[..|grown| - 1] else grown
    ensures Queue(kept) && 0 < |kept| <= Width(ef)
    ensures forall x :: x in kept ==> x in q || x == e
    ensures forall x :: (x in q || x == e) && x !in kept ==> |kept| == Width(ef) && x.score <= kept[|kept| - 1].score
    ensures |q| == Width(ef) ==> |kept| == Width(ef) && kept[|kept| - 1].score >= q[|q| - 1].score
  {
    if |grown| > ef {
      var n := |q|;
      var top, dropped := grown[n - 1], grown[n];
      assert top in grown && dropped in grown && Before(top, dropped);
      forall i | 0 <= i < n ensures grown[i] in kept { assert kept[i] == grown[i]; }
      var inQ := if top == e then dropped else top;
      WorstIsLast(q, inQ);
    }
  }

  lemma OfferSound(scores: seq<real>, ef: int, b: Beam, v: nat)
    requires SoundBeam(scores, ef, b) && v < |scores|
    ensures SoundBeam(scores, ef, Offer(scores, ef, b, v))
    ensures forall e :: e in Offer(scores, ef, b, v).results ==> e in b.results || e in Offer(scores, ef, b, v).cands
    ensures forall e :: e in b.cands ==> e in Offer(scores, ef, b, v).cands
  {
    hide Enqueue, SoundBeam;
    if v !in b.visited {
      if Welcome(ef, b, scores[v]) {
        OfferJoins(scores, ef, b, v);
      } else {
        OfferSkips(scores, ef, b, v);
      }
    }
  }

  lemma OfferSkips(scores: seq<real>, ef: int, b: Beam, v: nat)
    requires SoundBeam(scores, ef, b) && v < |scores| && v !in b.visited && !Welcome(ef, b, scores[v])
    ensures SoundBeam(scores, ef, Offer(scores, ef, b, v))
  {
    var r := Offer(scores, ef, b, v);
    assert r == Beam(b.cands, b.results, b.visited + {v});
  }

  lemma OfferJoins(scores: seq<real>, ef: int, b: Beam, v: nat)
    requires SoundBeam(scores, ef, b) && v < |scores| && v !in b.visited && Welcome(ef, b, scores[v])
    ensures SoundBeam(scores, ef, Offer(scores, ef, b, v))
    ensures forall e :: e in Offer(scores, ef, b, v).results ==> e in b.results || e == Scored(scores[v], v)
  {
    hide SoundBeam, Enqueue, Welcome;
    JoinedSound(scores, ef, b, v, Offer(scores, ef, b, v));
  }

  lemma JoinedSound(scores: seq<real>, ef: int, b: Beam, v: nat, r: Beam)
    requires SoundBeam(scores, ef, b) && v < |scores| && v !in b.visited
    requires
      var grown := Enqueue(b.results, Scored(scores[v], v));
      r.results == if |grown| > ef then grown[..|grown| - 1] else grown
    requires r.cands == Enqueue(b.cands, Scored(scores[v], v)) && r.visited == b.visited + {v}
    ensures SoundBeam(scores, ef, r)
    ensures forall e :: e in r.results ==> e in b.results || e == Scored(scores[v], v)
  {
    var e := Scored(scores[v], v);
    hide HoldsBest, Queue, Enqueue, EntriesOf;
    JoinedQueue(scores, b, v, b.cands);
    JoinedQueue(scores, b, v, b.results);
    PushAndDrop(b.results, e, ef, Enqueue(b.results, e), r.results);
    OfferedHoldsBest(scores, ef, b, v, r);
    JoinedEntries(scores, b, v, r, b.cands, r.cands);
    JoinedEntries(scores, b, v, r, b.results, r.results);
  }

  lemma JoinedQueue(scores: seq<real>, b: Beam, v: nat, q: seq<Scored>)
    requires EntriesOf(scores, b, q) && Queue(q) && v < |scores| && v !in b.visited
    ensures Scored(scores[v], v) !in q && Queue(Enqueue(q, Scored(scores[v], v)))
  {
    EnqueueKeepsQueue(q, Scored(scores[v], v));
  }

  lemma JoinedEntries(scores: seq<real>, b: Beam, v: nat, r: Beam, q: seq<Scored>, joined: seq<Scored>)
    requires EntriesOf(scores, b, q) && v < |scores| && r.visited == b.visited + {v}
    requires forall x :: x in joined ==> x in q || x == Scored(scores[v], v)
    ensures EntriesOf(scores, r, joined)
  {
  }

  lemma OfferedHoldsBest(scores: seq<real>, ef: int, b: Beam, v: nat, r: Beam)
    requires b.results != [] && r.results != [] && v < |scores| && r.visited == b.visited + {v}
    requires (forall x :: x in b.visited ==> x < |scores|) && HoldsBest(scores, ef, b)
    requires
      forall x :: (x in b.results || x == Scored(scores[v], v)) && x !in r.results ==>
                    |r.results| == Width(ef) && x.score <= r.results[|r.results| - 1].score
    requires
      |b.results| == Width(ef) ==>
        |r.results| == Width(ef) && r.results[|r.results| - 1].score >= b.results[|b.results| - 1].score
    ensures HoldsBest(scores, ef, r)
  {
  }

  lemma {:induction false} OfferAllSound(g: Graph, layer: nat, scores: seq<real>, ef: int, b: Beam, nbs: seq<nat>, busy: set<nat>)
    requires SoundBeam(scores, ef, b) && Expanded(g, layer, b, busy)
    requires forall i :: 0 <= i < |nbs| ==> nbs[i] < |scores|
    ensures SoundBeam(scores, ef, OfferAll(scores, ef, b, nbs))
    ensures Expanded(g, layer, OfferAll(scores, ef, b, nbs), busy)
  {
    if nbs != [] {
      var last := |nbs| - 1;
      var before := OfferAll(scores, ef, b, nbs[..last]);
      OfferAllSound(g, layer, scores, ef, b, nbs[..last], busy);
      OfferExpanded(g, layer, scores, ef, before, nbs[last], busy);
      assert OfferAll(scores, ef, b, nbs) == Offer(scores, ef, before, nbs[last]);
    }
  }

  lemma OfferExpanded(g: Graph, layer: nat, scores: seq<real>, ef: int, b: Beam, v: nat, busy: set<nat>)
    requires SoundBeam(scores, ef, b) && Expanded(g, layer, b, busy) && v < |scores|
    ensures SoundBeam(scores, ef, Offer(scores, ef, b, v))
    ensures Expanded(g, layer, Offer(scores, ef, b, v), busy)
  {
    OfferSound(scores, ef, b, v);
    var r := Offer(scores, ef, b, v);
    forall e | e in r.results && e !in r.cands && e.node !in busy ensures AllVisited(g, layer, r, e.node) {
      assert AllVisited(g, layer, b, e.node);
    }
  }

  /** What holds whenever the loop tests its guard. */
  ghost predicate Searching(g: Graph, layer: nat, scores: seq<real>, ep: nat, ef: int, b: Beam) {
    SoundBeam(scores, ef, b) && Expanded(g, layer, b, {}) && VisitedReachable(g, layer, ep, b)
  }

  lemma StartSound(g: Graph, layer: nat, scores: seq<real>, ep: nat, ef: int)
    requires |scores| == |g| && ep < |g|
    ensures Searching(g, layer, scores, ep, ef, StartAt(scores, ep))
  {
    ReachesSelf(LayerLinks(g, layer), ep);
  }

  lemma TurnSound(g: Graph, layer: nat, scores: seq<real>, ep: nat, ef: int, b: Beam)
    requires |scores| == |g| && LinksInRange(g, layer)
    requires Searching(g, layer, scores, ep, ef, b) && b.cands != []
    ensures Searching(g, layer, scores, ep, ef, Turn(g, layer, scores, ef, b))
  {
    var c := b.cands[0];
    var nbs := Links(g, layer, c.node);
    assert c in b.cands;
    assert SoundBeam(scores, ef, Pop(b));
    assert Expanded(g, layer, Pop(b), {c.node});
    OfferAllSound(g, layer, scores, ef, Pop(b), nbs, {c.node});
    var r := OfferAll(scores, ef, Pop(b), nbs);
    assert AllVisited(g, layer, r, c.node);
    assert Expanded(g, layer, r, {});
    var adj := LayerLinks(g, layer);
    forall v | v in r.visited ensures v < |g| && Reaches(adj, ep, v) {
      if v !in b.visited {
        assert v in adj[c.node];
        ReachesEdge(adj, ep, c.node, v);
      }
    }
  }

  /** What a finished search guarantees. */
  ghost predicate Finished(g: Graph, layer: nat, scores: seq<real>, ep: nat, ef: int, b: Beam) {
    && SoundBeam(scores, ef, b)
    && VisitedReachable(g, layer, ep, b)
    && forall e :: e in b.results ==> AllVisited(g, layer, b, e.node)
  }

  lemma {:induction false} ExploreFinishes(g: Graph, layer: nat, scores: seq<real>, ep: nat, ef: int, b: Beam)
    requires |scores| == |g| && LinksInRange(g, layer)
    requires Searching(g, layer, scores, ep, ef, b)
    ensures Finished(g, layer, scores, ep, ef, Explore(g, layer, scores, ef, b))
    decreases Unseen(|g|, b), |b.cands|
  {
    if b.cands == [] || Hopeless(ef, b, b.cands[0]) {
      LoopExit(g, layer, ef, b);
      assert Explore(g, layer, scores, ef, b) == b;
    } else {
      var next := Turn(g, layer, scores, ef, b);
      TurnSound(g, layer, scores, ep, ef, b);
      ExploreFinishes(g, layer, scores, ep, ef, next);
      assert Explore(g, layer, scores, ef, b) == Explore(g, layer, scores, ef, next);
    }
  }

  lemma LoopExit(g: Graph, layer: nat, ef: int, b: Beam)
    requires Queue(b.cands) && Queue(b.results) && Expanded(g, layer, b, {})
    requires b.cands == [] || Hopeless(ef, b, b.cands[0])
    ensures forall e :: e in b.results ==> AllVisited(g, layer, b, e.node)
  {
    if b.cands != [] { HopelessQueue(ef, b); }
    forall e | e in b.results ensures AllVisited(g, layer, b, e.node) {
      assert e !in b.cands;
    }
  }

  /** When the best candidate left is worse than every result, no result is still queued. */
  lemma HopelessQueue(ef: int, b: Beam)
    requires Queue(b.cands) && Queue(b.results)
    requires b.cands != [] && Hopeless(ef, b, b.cands[0])
    ensures forall e :: e in b.results ==> e !in b.cands
  {
    forall e | e in b.results ensures e !in b.cands {
      WorstIsLast(b.results, e);
    }
  }

  ghost function FinalBeam(g: Graph, layer: nat, scores: seq<real>, ep: nat, ef: int): Beam
    requires |scores| == |g| && LinksInRange(g, layer) && ep < |g|
  {
    Explore(g, layer, scores, ef, StartAt(scores, ep))
  }

  /** The loop is on its way to the final beam. */
  ghost predicate OnTrack(g: Graph, layer: nat, scores: seq<real>, ep: nat, ef: int, b: Beam)
    requires |scores| == |g| && LinksInRange(g, layer) && ep < |g|
  {
    Searching(g, layer, scores, ep, ef, b) && Explore(g, layer, scores, ef, b) == FinalBeam(g, layer, scores, ep, ef)
  }

  lemma StartOnTrack(g: Graph, layer: nat, scores: seq<real>, ep: nat, ef: int)
    requires |scores| == |g| && LinksInRange(g, layer) && ep < |g|
    ensures OnTrack(g, layer, scores, ep, ef, StartAt(scores, ep))
  {
    StartSound(g, layer, scores, ep, ef);
  }

  lemma OnTrackTurn(g: Graph, layer: nat, scores: seq<real>, ep: nat, ef: int, b: Beam)
    requires |scores| == |g| && LinksInRange(g, layer) && ep < |g|
    requires OnTrack(g, layer, scores, ep, ef, b)
    ensures b.cands == [] ==> b.results == SearchLayer(g, layer, scores, ep, ef)
    ensures b.cands != [] ==> b.cands[0].node < |g|
    ensures b.cands != [] && Hopeless(ef, b, b.cands[0]) ==> b.results == SearchLayer(g, layer, scores, ep, ef)
    ensures b.cands != [] && !Hopeless(ef, b, b.cands[0]) ==> OnTrack(g, layer, scores, ep, ef, Turn(g, layer, scores, ef, b))
  {
    if b.cands != [] {
      assert b.cands[0] in b.cands;
      TurnSound(g, layer, scores, ep, ef, b);
    }
  }

  lemma SearchFinishes(g: Graph, layer: nat, scores: seq<real>, ep: nat, ef: int)
    requires |scores| == |g| && LinksInRange(g, layer) && ep < |g|
    ensures Finished(g, layer, scores, ep, ef, FinalBeam(g, layer, scores, ep, ef))
  {
    StartSound(g, layer, scores, ep, ef);
    ExploreFinishes(g, layer, scores, ep, ef, StartAt(scores, ep));
  }

  // ---------- theorems about the returned list ----------

  ghost predicate AtLeast(xs: seq<Scored>, bound: real) {
    forall e :: e in xs ==> bound <= e.score
  }

  lemma QueueDistinctNodes(scores: seq<real>, b: Beam, q: seq<Scored>)
    requires Queue(q) && EntriesOf(scores, b, q)
    ensures NoDuplicates(Nodes(q)) && Descending(q)
  {
    forall i, j | 0 <= i < j < |q| ensures q[i].node != q[j].node {
      assert q[i] in q && q[j] in q && Before(q[i], q[j]);
    }
  }

  /** Nothing visited and left out is better than anything returned. */
  lemma LeftOut(scores: seq<real>, ef: int, b: Beam, v: nat)
    requires SoundBeam(scores, ef, b) && v in b.visited && v !in Nodes(b.results)
    ensures |b.results| == Width(ef) && AtLeast(b.results, scores[v])
  {
    forall i | 0 <= i < |b.results| ensures b.results[i] != Scored(scores[v], v) {
      assert Nodes(b.results)[i] == b.results[i].node;
    }
    hide HoldsBest;
    forall e | e in b.results ensures scores[v] <= e.score { WorstIsLast(b.results, e); }
  }

  lemma NodesVisited(scores: seq<real>, b: Beam)
    requires EntriesOf(scores, b, b.results)
    ensures forall v :: v in Nodes(b.results) ==> v in b.visited
  {
    forall v | v in Nodes(b.results) ensures v in b.visited {
      var i :| 0 <= i < |b.results| && Nodes(b.results)[i] == v;
      assert b.results[i] in b.results;
    }
  }

  lemma ResultCount(scores: seq<real>, ef: int, b: Beam)
    requires SoundBeam(scores, ef, b) && NoDuplicates(Nodes(b.results))
    ensures |b.results| == if |b.visited| < Width(ef) then |b.visited| else Width(ef)
  {
    var ns := set v | v in Nodes(b.results);
    DistinctCount(Nodes(b.results), ns);
    NodesVisited(scores, b);
    SubsetCount(ns, b.visited);
    if |b.results| < Width(ef) {
      forall v | v in b.visited ensures v in ns {
        if v !in Nodes(b.results) { LeftOut(scores, ef, b, v); }
      }
      assert ns == b.visited;
    }
  }

  /**
   Beam closure, for every `ef`: the result is a descending list of `min(width, visited)` distinct
   nodes, a top selection of all visited nodes, and every link of a returned node is visited, so it
   leads to a returned node or to one no more similar than the worst returned.
   */
  lemma BeamClosure(g: Graph, layer: nat, scores: seq<real>, ep: nat, ef: int)
    requires |scores| == |g| && LinksInRange(g, layer) && ep < |g|
    ensures
      var out := SearchLayer(g, layer, scores, ep, ef);
      var visited := FinalBeam(g, layer, scores, ep, ef).visited;
      && ep in visited
      && (forall v :: v in visited ==> v < |g| && Reaches(LayerLinks(g, layer), ep, v))
      && Descending(out) && NoDuplicates(Nodes(out))
      && (forall e :: e in out ==> e.node in visited && e.score == scores[e.node])
      && |out| == (if |visited| < Width(ef) then |visited| else Width(ef))
      && (forall v :: v in visited && v !in Nodes(out) ==> |out| == Width(ef) && AtLeast(out, scores[v]))
      && (forall e, x :: e in out && x in Links(g, layer, e.node) ==> x in visited && (x in Nodes(out) || AtLeast(out, scores[x])))
  {
    SearchFinishes(g, layer, scores, ep, ef);
    var b := FinalBeam(g, layer, scores, ep, ef);
    QueueDistinctNodes(scores, b, b.results);
    ResultCount(scores, ef, b);
    hide AtLeast, HoldsBest, NoDuplicates, Queue, Descending, Explore;
    forall v | v in b.visited && v !in Nodes(b.results) ensures |b.results| == Width(ef) && AtLeast(b.results, scores[v]) {
      LeftOut(scores, ef, b, v);
    }
    forall e, x | e in b.results && x in Links(g, layer, e.node) ensures x in b.visited {
      assert AllVisited(g, layer, b, e.node);
    }
  }

  lemma SubsetCount<T>(small: set<T>, big: set<T>)
    requires small <= big
    ensures |small| <= |big|
    ensures |small| == |big| ==> small == big
  {
    assert big == small + (big - small);
  }

  /** The nodes `ep` reaches on the layer. */
  ghost function ReachableFrom(g: Graph, layer: nat, ep: nat): set<nat> {
    set v | 0 <= v < |g| && Reaches(LayerLinks(g, layer), ep, v)
  }

  /** A search visits at least as many nodes as its beam is wide, or all it can reach. */
  lemma VisitsEnough(g: Graph, layer: nat, scores: seq<real>, ep: nat, ef: int)
    requires |scores| == |g| && LinksInRange(g, layer) && ep < |g|
    ensures
      var visited := FinalBeam(g, layer, scores, ep, ef).visited;
      && visited <= ReachableFrom(g, layer, ep)
      && (|visited| > Width(ef) || visited == ReachableFrom(g, layer, ep))
  {
    BeamClosure(g, layer, scores, ep, ef);
    var out := SearchLayer(g, layer, scores, ep, ef);
    var visited := FinalBeam(g, layer, scores, ep, ef).visited;
    hide FinalBeam, SearchLayer, AtLeast, Descending, LayerLinks, Reaches, NoDuplicates, Width, Closed;
    if |visited| <= Width(ef) {
      AllReturned(out, visited);
      LinksReturned(g, layer, out, visited);
      ClosedHoldsAll(g, layer, ep, visited);
    }
  }

  lemma ClosedHoldsAll(g: Graph, layer: nat, ep: nat, s: set<nat>)
    requires ep in s && Closed(LayerLinks(g, layer), s)
    ensures ReachableFrom(g, layer, ep) <= s
  {
    forall v | v in ReachableFrom(g, layer, ep) ensures v in s {
      ClosedHoldsReachable(LayerLinks(g, layer), s, ep, v);
    }
  }

  lemma LinksReturned(g: Graph, layer: nat, out: seq<Scored>, visited: set<nat>)
    requires forall v :: v in visited ==> v in Nodes(out)
    requires forall e, x :: e in out && x in Links(g, layer, e.node) ==> x in visited
    ensures Closed(LayerLinks(g, layer), visited)
  {
    var adj := LayerLinks(g, layer);
    forall v, x | v in visited && v < |adj| && x in adj[v] ensures x in visited {
      var i :| 0 <= i < |out| && Nodes(out)[i] == v;
      assert out[i] in out;
    }
  }

  /** A list of distinct visited nodes that is as long as the visited set names all of it. */
  lemma AllReturned(out: seq<Scored>, visited: set<nat>)
    requires NoDuplicates(Nodes(out)) && |out| == |visited| && forall e :: e in out ==> e.node in visited
    ensures forall v :: v in Nodes(out) <==> v in visited
  {
    var ns := set v | v in Nodes(out);
    DistinctCount(Nodes(out), ns);
    forall v | v in ns ensures v in visited {
      var i :| 0 <= i < |out| && Nodes(out)[i] == v;
      assert out[i] in out;
    }
    SubsetCount(ns, visited);
  }

  /**
   Reachability exactness: a beam at least as wide as the reachable set returns exactly that
   set, best first; the early exit of the loop never loses a node.
   */
  lemma ReachabilityExact(g: Graph, layer: nat, scores: seq<real>, ep: nat, ef: int)
    requires |scores| == |g| && LinksInRange(g, layer) && ep < |g|
    requires Width(ef) >= |ReachableFrom(g, layer, ep)|
    ensures
      var out := SearchLayer(g, layer, scores, ep, ef);
      && Descending(out) && NoDuplicates(Nodes(out))
      && (forall v :: v in Nodes(out) <==> v in ReachableFrom(g, layer, ep))
      && (forall e :: e in out ==> e.node < |g| && e.score == scores[e.node])
  {
    BeamClosure(g, layer, scores, ep, ef);
    VisitsEnough(g, layer, scores, ep, ef);
    hide ReachableFrom, FinalBeam, SearchLayer, AtLeast, Descending;
    var visited := FinalBeam(g, layer, scores, ep, ef).visited;
    SubsetCount(visited, ReachableFrom(g, layer, ep));
    AllReturned(SearchLayer(g, layer, scores, ep, ef), visited);
  }

  /** Greedy descent (`ef <= 1`): one node, at least as similar as the entry, and no link of it is better. */
  lemma GreedyLocalMaximum(g: Graph, layer: nat, scores: seq<real>, ep: nat, ef: int)
    requires |scores| == |g| && LinksInRange(g, layer) && ep < |g|
    requires ef <= 1
    ensures
      var out := SearchLayer(g, layer, scores, ep, ef);
      && |out| == 1
      && out[0].node < |g| && out[0].score == scores[out[0].node] >= scores[ep]
      && forall x :: x in Links(g, layer, out[0].node) ==> scores[x] <= out[0].score
  {
    BeamClosure(g, layer, scores, ep, ef);
    var out := SearchLayer(g, layer, scores, ep, ef);
    SearchFinishes(g, layer, scores, ep, ef);
    assert out[0] in out;
    assert Nodes(out)[0] == out[0].node;
    forall v | v in Nodes(out) ensures v == out[0].node {}
    forall x | x in Links(g, layer, out[0].node) ensures scores[x] <= out[0].score {
      assert x in Nodes(out) || AtLeast(out, scores[x]);
    }
  }

  /** At any width the best returned node is no worse than the entry. */
  lemma BestBeatsEntry(g: Graph, layer: nat, scores: seq<real>, ep: nat, ef: int)
    requires |scores| == |g| && LinksInRange(g, layer) && ep < |g|
    ensures var out := SearchLayer(g, layer, scores, ep, ef); out != [] && out[0].score >= scores[ep]
  {
    BeamClosure(g, layer, scores, ep, ef);
    var out := SearchLayer(g, layer, scores, ep, ef);
    SearchFinishes(g, layer, scores, ep, ef);
    if ep in Nodes(out) {
      var i :| 0 <= i < |out| && Nodes(out)[i] == ep;
      assert out[i] in out;
    } else {
      assert out[0] in out && AtLeast(out, scores[ep]);
    }
  }

  /** The search never leaves a closed set of nodes it starts in. */
  lemma SearchStaysWithin(g: Graph, layer: nat, scores: seq<real>, ep: nat, ef: int, s: set<nat>)
    requires |scores| == |g| && LinksInRange(g, layer) && ep < |g|
    requires ep in s && Closed(LayerLinks(g, layer), s)
    ensures forall e :: e in SearchLayer(g, layer, scores, ep, ef) ==> e.node < |g| && e.node in s
  {
    BeamClosure(g, layer, scores, ep, ef);
    forall e | e in SearchLayer(g, layer, scores, ep, ef) ensures e.node < |g| && e.node in s {
      ClosedHoldsReachable(LayerLinks(g, layer), s, ep, e.node);
    }
  }
}
