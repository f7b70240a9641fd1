/** `search_layer_`: two heaps and the tagged buffer compute exactly the beam search of module BeamSearch. */
module LayerSearch {
  import opened Bytes
  import opened Ranking
  import opened BeamSearch
  import opened Hnsw
  import VB = VisitedBuffer

  /** The inner loop: look at the neighbours of the node just popped. */
  method OfferNeighbours(sim: Similarity, vecs: seq<Vec>, visited: VB.VisitedBuffer, query: Vec, ef: int,
                         nbs: seq<nat>, cands0: seq<Scored>, results0: seq<Scored>)
    returns (cands: seq<Scored>, results: seq<Scored>)
    requires visited.Valid() && visited.buf.Length >= |vecs|
    requires forall i :: 0 <= i < |nbs| ==> nbs[i] < |vecs|
    modifies visited.buf
    ensures visited.Valid()
    ensures Beam(cands, results, visited.Marked())
      == OfferAll(ScoresTo(sim, vecs, query), ef, Beam(cands0, results0, old(visited.Marked())), nbs)
  {
    ghost var scores := ScoresTo(sim, vecs, query);
    ghost var b := Beam(cands0, results0, visited.Marked());
    cands, results := cands0, results0;
    for i := 0 to |nbs|
      invariant visited.Valid()
      invariant Beam(cands, results, visited.Marked()) == OfferAll(scores, ef, b, nbs[..i])
    {
      assert nbs[..i + 1][..i] == nbs[..i];
      cands, results := OfferOne(sim, vecs, visited, query, ef, nbs[i], cands, results);
    }
    assert nbs[..|nbs|] == nbs;
  }

  method OfferOne(sim: Similarity, vecs: seq<Vec>, visited: VB.VisitedBuffer, query: Vec, ef: int,
                  nb: nat, cands0: seq<Scored>, results0: seq<Scored>)
    returns (cands: seq<Scored>, results: seq<Scored>)
    requires visited.Valid() && visited.buf.Length >= |vecs| && nb < |vecs|
    modifies visited.buf
    ensures visited.Valid()
    ensures Beam(cands, results, visited.Marked())
      == Offer(ScoresTo(sim, vecs, query), ef, Beam(cands0, results0, old(visited.Marked())), nb)
  {
    cands, results := cands0, results0;
    var seen := visited.IsMarked(nb);
    if seen { return; }
    visited.Mark(nb);
    var e := Scored(sim(query, vecs[nb]), nb);
    if results == [] || e.score > results[|results| - 1].score || |results| < ef {
      cands := Enqueue(cands, e);
      results := Enqueue(results, e);
      if |results| > ef { results := results[..|results| - 1]; }
    }
  }

  /** Read the popped node's links, if it reaches up to the layer, and offer them. */
  method Expand(sim: Similarity, vecs: seq<Vec>, graph: Graph, visited: VB.VisitedBuffer, query: Vec, ef: int, layer: nat,
                c: Scored, cands0: seq<Scored>, results0: seq<Scored>)
    returns (cands: seq<Scored>, results: seq<Scored>)
    requires visited.Valid() && |vecs| == |graph| <= visited.buf.Length
    requires LinksInRange(graph, layer) && c.node < |graph|
    modifies visited.buf
    ensures visited.Valid()
    ensures Beam(cands, results, visited.Marked())
      == Turn(graph, layer, ScoresTo(sim, vecs, query), ef, Beam([c] + cands0, results0, old(visited.Marked())))
  {
    var nbs := if layer < |graph[c.node]| then graph[c.node][layer] else [];
    assert nbs == Links(graph, layer, c.node);
    assert Pop(Beam([c] + cands0, results0, visited.Marked())) == Beam(cands0, results0, visited.Marked());
    cands, results := OfferNeighbours(sim, vecs, visited, query, ef, nbs, cands0, results0);
  }

  method SearchOneLayer(sim: Similarity, vecs: seq<Vec>, graph: Graph, visited: VB.VisitedBuffer,
                        query: Vec, ep: nat, ef: int, layer: nat)
    returns (out: seq<Scored>)
    requires visited.Valid() && |vecs| == |graph|
    requires LinksInRange(graph, layer) && ep < |graph|
    modifies visited, visited.buf
    ensures visited.Valid() && (visited.buf == old(visited.buf) || fresh(visited.buf))
    ensures SortedCopy(out, SearchLayer(graph, layer, ScoresTo(sim, vecs, query), ep, ef))
  {
    hide OnTrack, Turn, SearchLayer;
    ghost var scores := ScoresTo(sim, vecs, query);
    visited.Begin(|vecs|);
    var first := Scored(sim(query, vecs[ep]), ep);
    var cands, results := [first], [first];
    visited.Mark(ep);
    ghost var b := StartAt(scores, ep);
    StartOnTrack(graph, layer, scores, ep, ef);
    while cands != []
      invariant visited.Valid() && visited.buf.Length >= |vecs|
      invariant visited.buf == old(visited.buf) || fresh(visited.buf)
      invariant b == Beam(cands, results, visited.Marked())
      invariant OnTrack(graph, layer, scores, ep, ef, b)
      decreases Unseen(|graph|, b), |cands|
    {
      OnTrackTurn(graph, layer, scores, ep, ef, b);
      var c := cands[0];
      cands := cands[1..];
      assert b.cands == [c] + cands;
      if results != [] && c.score < results[|results| - 1].score && |results| >= ef { break; }
      cands, results := Expand(sim, vecs, graph, visited, query, ef, layer, c, cands, results);
      b := Turn(graph, layer, scores, ef, b);
    }
    OnTrackTurn(graph, layer, scores, ep, ef, b);
    out := Drain(results);
  }

  /** Empty the result heap, worst first, and sort what came out. */
  method Drain(heap: seq<Scored>) returns (out: seq<Scored>)
    ensures SortedCopy(out, heap)
  {
    out := [];
    var results := heap;
    while results != []
      invariant multiset(out) + multiset(results) == multiset(heap)
    {
      var last := |results| - 1;
      assert results == results[..last] + [results[last]];
      out := out + [results[last]];
      results := results[..last];
    }
    out := SortDescending(out);
  }
}
