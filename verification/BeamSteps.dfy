/** What single turns of the beam search do, in terms of similarities and ids alone. */
module BeamSteps {
  import opened Ranking
  import opened BeamSearch

  /** A queued node that comes before every other: most similar, and of equally similar ones the smallest id. */
  ghost predicate BestQueued(b: Beam, e: Scored) {
    && e in b.cands
    && forall x :: x in b.cands && x != e ==> e.score > x.score || (e.score == x.score && e.node < x.node)
  }

  /** A turn takes the best queued node off the queue and sees exactly its links. */
  lemma TurnTakesBest(g: Graph, layer: nat, scores: seq<real>, ef: int, b: Beam, e: Scored)
    requires |scores| == |g| && LinksInRange(g, layer) && SoundBeam(scores, ef, b) && BestQueued(b, e)
    ensures b.cands != [] && Turn(g, layer, scores, ef, b).visited == b.visited + set x | x in Links(g, layer, e.node)
    ensures forall x :: x in Turn(g, layer, scores, ef, b).cands && x in b.cands ==> x != e
    ensures forall x :: x in b.cands && x != e ==> x in Turn(g, layer, scores, ef, b).cands
  {
    FirstIsBest(b, e);
    PopTakesFirst(b);
    assert e.node in b.visited;
    hide SoundBeam, BestQueued;
    OfferedQueue(scores, ef, Pop(b), Links(g, layer, e.node));
    assert Turn(g, layer, scores, ef, b) == OfferAll(scores, ef, Pop(b), Links(g, layer, e.node));
  }

  lemma FirstIsBest(b: Beam, e: Scored)
    requires Queue(b.cands) && BestQueued(b, e)
    ensures b.cands != [] && b.cands[0] == e
  {
    assert b.cands[0] in b.cands;
    var i :| 0 <= i < |b.cands| && b.cands[i] == e;
    assert i > 0 ==> Before(b.cands[0], b.cands[i]);
  }

  lemma PopTakesFirst(b: Beam)
    requires Queue(b.cands) && b.cands != []
    ensures b.cands[0] !in Pop(b).cands && forall x :: x in b.cands && x != b.cands[0] ==> x in Pop(b).cands
    ensures forall x :: x in Pop(b).cands ==> x in b.cands
  {
    forall i | 1 <= i < |b.cands| ensures Before(b.cands[0], b.cands[i]) && b.cands[i] in Pop(b).cands {
      assert b.cands[i] == Pop(b).cands[i - 1];
    }
  }

  /** Offering nodes only ever adds to the queue, and only nodes not seen before. */
  lemma {:induction false} OfferedQueue(scores: seq<real>, ef: int, b: Beam, nbs: seq<nat>)
    requires forall i :: 0 <= i < |nbs| ==> nbs[i] < |scores|
    ensures OfferAll(scores, ef, b, nbs).visited == b.visited + set x | x in nbs
    ensures forall x :: x in b.cands ==> x in OfferAll(scores, ef, b, nbs).cands
    ensures forall x :: x in OfferAll(scores, ef, b, nbs).cands ==> x in b.cands || x.node !in b.visited
  {
    if nbs != [] {
      var last := |nbs| - 1;
      OfferedQueue(scores, ef, b, nbs[..last]);
      OfferedNode(scores, ef, OfferAll(scores, ef, b, nbs[..last]), nbs[last]);
      assert (set x | x in nbs) == (set x | x in nbs[..last]) + {nbs[last]} by { assert nbs == nbs[..last] + [nbs[last]]; }
    }
  }

  lemma OfferedNode(scores: seq<real>, ef: int, b: Beam, v: nat)
    requires v < |scores|
    ensures Offer(scores, ef, b, v).visited == b.visited + {v}
    ensures forall x :: x in b.cands ==> x in Offer(scores, ef, b, v).cands
    ensures forall x :: x in Offer(scores, ef, b, v).cands ==> x in b.cands || (x.node == v && v !in b.visited)
  {
  }

  /**
   A node seen for the first time is queued and kept exactly when the results are not full or it beats the worst
   of them; a tie does not count.  What it displaces is the worst, and of equally bad ones the largest id.
   */
  lemma NewcomerAdmittedIff(scores: seq<real>, ef: int, b: Beam, v: nat)
    requires SoundBeam(scores, ef, b) && v < |scores| && v !in b.visited
    ensures
      var r, e := Offer(scores, ef, b, v), Scored(scores[v], v);
      var full := |b.results| >= if ef <= 1 then 1 else ef;
      && (e in r.results <==> !full || exists x :: x in b.results && x.score < scores[v])
      && (e in r.cands <==> e in r.results)
      && (!full ==> forall x :: x in b.results ==> x in r.results)
      && forall x, y :: x in b.results && x !in r.results && y in r.results ==>
           y.score > x.score || (y.score == x.score && y.node < x.node)
  {
    var e := Scored(scores[v], v);
    JoinedQueue(scores, b, v, b.cands);
    JoinedQueue(scores, b, v, b.results);
    WorstOfResults(b.results, scores[v]);
    hide Enqueue, HoldsBest, EntriesOf;
    if Welcome(ef, b, scores[v]) {
      var grown := Enqueue(b.results, e);
      DroppedIsLast(b.results, e, ef, grown, if |grown| > ef then grown[..|grown| - 1] else grown);
    }
  }

  lemma WorstOfResults(q: seq<Scored>, score: real)
    requires Queue(q) && q != []
    ensures score > q[|q| - 1].score <==> exists x :: x in q && x.score < score
  {
    assert q[|q| - 1] in q;
    forall x | x in q ensures x.score >= q[|q| - 1].score { WorstIsLast(q, x); }
  }

  lemma DroppedIsLast(q: seq<Scored>, e: Scored, ef: int, grown: seq<Scored>, kept: seq<Scored>)
    requires Queue(q) && q != [] && e !in q && Queue(grown) && |grown| == |q| + 1
    requires forall x :: x in grown <==> x in q || x == e
    requires kept == if |grown| > ef then grown[..|grown| - 1] else grown
    requires e.score > q[|q| - 1].score || |q| < ef
    ensures e in kept && (|q| < ef ==> forall x :: x in q ==> x in kept)
    ensures forall x, y :: x in q && x !in kept && y in kept ==> y.score > x.score || (y.score == x.score && y.node < x.node)
  {
    if |grown| > ef {
      var n := |q|;
      forall i | 0 <= i < n ensures grown[i] in kept && Before(grown[i], grown[n]) { assert kept[i] == grown[i]; }
      assert q[n - 1] in grown;
      assert forall x :: x in grown && x !in kept ==> x == grown[n];
    }
  }

  ghost predicate AllBelow(nbs: seq<nat>, n: nat) {
    forall i :: 0 <= i < |nbs| ==> nbs[i] < n
  }

  /** Links are offered in list order, each one to the heaps that the ones before it left. */
  lemma OfferedInOrder(scores: seq<real>, ef: int, b: Beam, front: seq<nat>, v: nat)
    requires AllBelow(front, |scores|) && v < |scores|
    ensures AllBelow(front + [v], |scores|)
    ensures OfferAll(scores, ef, b, []) == b
    ensures OfferAll(scores, ef, b, front + [v]) == Offer(scores, ef, OfferAll(scores, ef, b, front), v)
  {
    hide Offer;
    assert (front + [v])[..|front|] == front;
  }

  // ---------- when the loop stops ----------

  /** Another turn leaves more nodes seen, or fewer queued: the loop never comes back to the same state. */
  lemma {:induction false} ExploreNeverReturns(g: Graph, layer: nat, scores: seq<real>, ef: int, b: Beam)
    requires |scores| == |g| && LinksInRange(g, layer)
    ensures
      var r := Explore(g, layer, scores, ef, b);
      Unseen(|g|, r) <= Unseen(|g|, b) && (r.visited == b.visited ==> |r.cands| <= |b.cands|)
      && (Unseen(|g|, r) == Unseen(|g|, b) ==> |r.cands| <= |b.cands|)
    decreases Unseen(|g|, b), |b.cands|
  {
    if b.cands != [] && !Hopeless(ef, b, b.cands[0]) {
      ExploreNeverReturns(g, layer, scores, ef, Turn(g, layer, scores, ef, b));
    }
  }

  /**
   The loop stops exactly when nothing is queued, or the results are full and the best queued node is less similar
   than all of them.
   */
  lemma StopsIff(g: Graph, layer: nat, scores: seq<real>, ef: int, b: Beam)
    requires |scores| == |g| && LinksInRange(g, layer) && SoundBeam(scores, ef, b)
    ensures
      Explore(g, layer, scores, ef, b) == b <==>
        b.cands == [] || (|b.results| >= ef && forall c, x :: c in b.cands && x in b.results ==> c.score < x.score)
  {
    if b.cands != [] {
      AllBelowIff(b.cands, b.results);
      if !Hopeless(ef, b, b.cands[0]) {
        ExploreNeverReturns(g, layer, scores, ef, Turn(g, layer, scores, ef, b));
      }
    }
  }

  lemma AllBelowIff(cands: seq<Scored>, results: seq<Scored>)
    requires Queue(cands) && Queue(results) && cands != [] && results != []
    ensures cands[0].score < results[|results| - 1].score <==> forall c, x :: c in cands && x in results ==> c.score < x.score
  {
    assert cands[0] in cands && results[|results| - 1] in results;
    forall x | x in results ensures x.score >= results[|results| - 1].score { WorstIsLast(results, x); }
    forall c | c in cands ensures c.score <= cands[0].score { FirstIsLargest(cands, c); }
  }

  lemma FirstIsLargest(q: seq<Scored>, c: Scored)
    requires Queue(q) && c in q
    ensures c.score <= q[0].score
  {
  }

  // ---------- greedy search ----------

  /** Greedy search (`ef <= 1`) stays where it is unless it finds something strictly more similar. */
  lemma GreedyMovesUp(g: Graph, layer: nat, scores: seq<real>, ep: nat, ef: int)
    requires |scores| == |g| && LinksInRange(g, layer) && ep < |g| && ef <= 1
    ensures
      var out := SearchLayer(g, layer, scores, ep, ef);
      |out| == 1 && (out[0] == Scored(scores[ep], ep) || out[0].score > scores[ep])
  {
    GreedyLocalMaximum(g, layer, scores, ep, ef);
    StartSound(g, layer, scores, ep, ef);
    ExploreMovesUp(g, layer, scores, ep, ef, StartAt(scores, ep));
  }

  ghost predicate MovedUp(scores: seq<real>, ep: nat, b: Beam)
    requires ep < |scores|
  {
    |b.results| == 1 && (b.results[0] == Scored(scores[ep], ep) || b.results[0].score > scores[ep])
  }

  lemma {:induction false} ExploreMovesUp(g: Graph, layer: nat, scores: seq<real>, ep: nat, ef: int, b: Beam)
    requires |scores| == |g| && LinksInRange(g, layer) && ep < |g| && ef <= 1 && MovedUp(scores, ep, b)
    ensures MovedUp(scores, ep, Explore(g, layer, scores, ef, b))
    decreases Unseen(|g|, b), |b.cands|
  {
    if b.cands != [] && !Hopeless(ef, b, b.cands[0]) {
      OfferAllMovesUp(scores, ep, ef, Pop(b), Links(g, layer, b.cands[0].node));
      ExploreMovesUp(g, layer, scores, ep, ef, Turn(g, layer, scores, ef, b));
    }
  }

  lemma {:induction false} OfferAllMovesUp(scores: seq<real>, ep: nat, ef: int, b: Beam, nbs: seq<nat>)
    requires ep < |scores| && ef <= 1 && MovedUp(scores, ep, b) && forall i :: 0 <= i < |nbs| ==> nbs[i] < |scores|
    ensures MovedUp(scores, ep, OfferAll(scores, ef, b, nbs))
  {
    if nbs != [] {
      OfferAllMovesUp(scores, ep, ef, b, nbs[..|nbs| - 1]);
      OfferMovesUp(scores, ep, ef, OfferAll(scores, ef, b, nbs[..|nbs| - 1]), nbs[|nbs| - 1]);
    }
  }

  lemma OfferMovesUp(scores: seq<real>, ep: nat, ef: int, b: Beam, v: nat)
    requires ep < |scores| && ef <= 1 && MovedUp(scores, ep, b) && v < |scores|
    ensures MovedUp(scores, ep, Offer(scores, ef, b, v))
  {
    var e := Scored(scores[v], v);
    if v !in b.visited && Welcome(ef, b, e.score) {
      assert Enqueue(b.results, e) == [e] + b.results;
    }
  }
}
