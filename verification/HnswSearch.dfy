/** What `search` returns: live slots with their own scores, best first. */
module HnswSearch {
  import opened Bytes
  import opened Ranking
  import opened Reachability
  import opened BeamSearch
  import opened Hnsw
  import opened HnswInvariant
  import opened HnswInsert

  // ---------- the descent ----------

  ghost function Below(n: nat): (r: set<nat>)
    ensures |r| == n && forall v: nat :: v in r <==> v < n
  {
    if n == 0 then {} else Below(n - 1) + {n - 1}
  }

  ghost function AllNodes(s: Index): set<nat> {
    Below(|s.graph|)
  }

  lemma AllNodesClosed(s: Index, layer: nat)
    requires LinksInRange(s.graph, layer)
    ensures Closed(LayerLinks(s.graph, layer), AllNodes(s))
  {
  }

  /** The descent stays in range and never lowers the similarity of the current entry, whatever it starts from. */
  lemma {:induction false} DescentImproves(sim: Similarity, s: Index, query: Vec, start: nat, hi: int, lo: int, ep: nat)
    requires lo >= -1 && start < |s.graph| == |s.vecs|
    requires Descend(sim, s, query, start, hi, lo, ep)
    ensures ep < |s.graph| && sim(query, s.vecs[ep]) >= sim(query, s.vecs[start])
    decreases hi - lo
  {
    if lo < hi {
      var prev, out :|
        && Descend(sim, s, query, start, hi, Above(lo), prev)
        && Hit(sim, s, query, prev, 1, Above(lo), out)
        && ep == Front(out, prev);
      DescentImproves(sim, s, query, start, hi, Above(lo), prev);
      HitImproves(sim, s, query, prev, 1, Above(lo), out);
    }
  }

  lemma HitImproves(sim: Similarity, s: Index, query: Vec, ep: nat, ef: int, layer: nat, out: seq<Scored>)
    requires Hit(sim, s, query, ep, ef, layer, out)
    ensures Front(out, ep) < |s.vecs| && sim(query, s.vecs[Front(out, ep)]) >= sim(query, s.vecs[ep])
  {
    var scores := ScoresTo(sim, s.vecs, query);
    var found := SearchLayer(s.graph, layer, scores, ep, ef);
    AllNodesClosed(s, layer);
    HitWithin(sim, s, query, ep, ef, layer, out, AllNodes(s));
    BestBeatsEntry(s.graph, layer, scores, ep, ef);
    SortedCopyElements(out, found);
    assert found[0] in out && out[0] in out;
    var i :| 0 <= i < |out| && out[i] == found[0];
  }

  // ---------- collecting live answers ----------

  function LiveOf(cands: seq<Scored>, tomb: seq<bool>): (r: seq<Scored>)
    requires NodesBelow(cands, |tomb|)
    ensures NodesBelow(r, |tomb|)
  {
    if cands == [] then []
    else (if tomb[cands[0].node] then [] else [cands[0]]) + LiveOf(cands[1..], tomb)
  }

  function Answers(cands: seq<Scored>, ids: seq<u64>): (r: seq<Answer>)
    requires NodesBelow(cands, |ids|)
    ensures |r| == |cands|
    ensures forall i :: 0 <= i < |cands| ==> r[i] == Answer(cands[i].score, ids[cands[i].node])
  {
    seq(|cands|, i requires 0 <= i < |cands| => Answer(cands[i].score, ids[cands[i].node]))
  }

  /** The first `k` of a list, or all of it when `k` is not positive. */
  function FirstK<T>(xs: seq<T>, k: int): (r: seq<T>)
    ensures |r| <= |xs| && r == xs[..|r|]
  {
    if k <= 0 then xs else TakeUpTo(xs, k)
  }

  lemma {:induction false} LiveOfElements(cands: seq<Scored>, tomb: seq<bool>)
    requires NodesBelow(cands, |tomb|)
    ensures forall e :: e in LiveOf(cands, tomb) <==> e in cands && !tomb[e.node]
  {
    if cands != [] {
      LiveOfElements(cands[1..], tomb);
      assert cands == [cands[0]] + cands[1..];
    }
  }

  lemma {:induction false} LiveOfDescends(cands: seq<Scored>, tomb: seq<bool>)
    requires NodesBelow(cands, |tomb|) && Descending(cands)
    ensures Descending(LiveOf(cands, tomb))
  {
    if cands != [] {
      var rest := LiveOf(cands[1..], tomb);
      LiveOfDescends(cands[1..], tomb);
      LiveOfElements(cands[1..], tomb);
      forall i | 0 <= i < |rest| ensures cands[0].score >= rest[i].score {
        assert rest[i] in cands[1..];
      }
    }
  }

  lemma {:induction false} LiveOfDistinct(cands: seq<Scored>, tomb: seq<bool>)
    requires NodesBelow(cands, |tomb|) && NoDuplicates(Nodes(cands))
    ensures NoDuplicates(Nodes(LiveOf(cands, tomb)))
  {
    if cands != [] {
      NodesTail(cands);
      LiveOfDistinct(cands[1..], tomb);
      LiveOfElements(cands[1..], tomb);
    }
    hide NoDuplicates;
    if cands != [] && !tomb[cands[0].node] { HeadDistinct(cands, LiveOf(cands[1..], tomb)); }
  }

  /** The first of a list without repetition, before a part of the rest. */
  lemma HeadDistinct(cands: seq<Scored>, rest: seq<Scored>)
    requires cands != [] && NoDuplicates(Nodes(cands)) && NoDuplicates(Nodes(rest))
    requires forall e :: e in rest ==> e in cands[1..]
    ensures NoDuplicates(Nodes([cands[0]] + rest))
  {
    hide NoDuplicates;
    HeadNotAgain(cands, rest);
    ConsDistinct(cands[0].node, Nodes(rest));
    assert Nodes([cands[0]] + rest) == [cands[0].node] + Nodes(rest);
  }

  lemma HeadNotAgain(cands: seq<Scored>, rest: seq<Scored>)
    requires cands != [] && NoDuplicates(Nodes(cands)) && forall e :: e in rest ==> e in cands[1..]
    ensures cands[0].node !in Nodes(rest)
  {
    forall i | 0 <= i < |rest| ensures Nodes(rest)[i] != cands[0].node {
      assert rest[i] in cands[1..];
      var j :| 0 <= j < |cands[1..]| && cands[1..][j] == rest[i];
      assert Nodes(cands)[0] != Nodes(cands)[j + 1];
    }
  }

  lemma NodesTail(cands: seq<Scored>)
    requires cands != [] && NoDuplicates(Nodes(cands))
    ensures NoDuplicates(Nodes(cands[1..]))
  {
    var tail := cands[1..];
    forall i, j | 0 <= i < j < |tail| ensures tail[i].node != tail[j].node {
      assert Nodes(cands)[i + 1] != Nodes(cands)[j + 1];
    }
  }

  /** The live part of a ranked candidate list is ranked, without repetition. */
  lemma LiveOfKeeps(cands: seq<Scored>, tomb: seq<bool>)
    requires NodesBelow(cands, |tomb|) && Descending(cands) && NoDuplicates(Nodes(cands))
    ensures forall e :: e in LiveOf(cands, tomb) <==> e in cands && !tomb[e.node]
    ensures Descending(LiveOf(cands, tomb)) && NoDuplicates(Nodes(LiveOf(cands, tomb)))
  {
    LiveOfElements(cands, tomb);
    LiveOfDescends(cands, tomb);
    LiveOfDistinct(cands, tomb);
  }

  lemma Reassociate<T>(got: seq<T>, x: T, more: seq<T>)
    ensures (got + [x]) + more == got + ([x] + more)
  {
  }

  lemma LiveHead(cands: seq<Scored>, tomb: seq<bool>, ids: seq<u64>)
    requires |tomb| == |ids| && NodesBelow(cands, |ids|) && cands != []
    ensures tomb[cands[0].node] ==> Answers(LiveOf(cands, tomb), ids) == Answers(LiveOf(cands[1..], tomb), ids)
    ensures !tomb[cands[0].node] ==>
      Answers(LiveOf(cands, tomb), ids) == [Answer(cands[0].score, ids[cands[0].node])] + Answers(LiveOf(cands[1..], tomb), ids)
  {
    if tomb[cands[0].node] {
      assert LiveOf(cands, tomb) == LiveOf(cands[1..], tomb);
    }
  }

  lemma TakeCons<T>(x: T, xs: seq<T>, k: nat)
    requires k >= 1
    ensures TakeUpTo([x] + xs, k) == [x] + TakeUpTo(xs, k - 1)
  {
  }

  lemma {:induction false} CollectAll(cands: seq<Scored>, tomb: seq<bool>, ids: seq<u64>, k: int, got: seq<Answer>)
    requires |tomb| == |ids| && NodesBelow(cands, |ids|) && k <= 0
    ensures Collect(cands, tomb, ids, k, got) == got + Answers(LiveOf(cands, tomb), ids)
  {
    if cands != [] {
      LiveHead(cands, tomb, ids);
      if tomb[cands[0].node] {
        CollectAll(cands[1..], tomb, ids, k, got);
      } else {
        var first := Answer(cands[0].score, ids[cands[0].node]);
        CollectAll(cands[1..], tomb, ids, k, got + [first]);
        Reassociate(got, first, Answers(LiveOf(cands[1..], tomb), ids));
      }
    }
  }

  lemma {:induction false} CollectFirst(cands: seq<Scored>, tomb: seq<bool>, ids: seq<u64>, k: int, got: seq<Answer>)
    requires |tomb| == |ids| && NodesBelow(cands, |ids|) && |got| < k
    ensures Collect(cands, tomb, ids, k, got) == got + TakeUpTo(Answers(LiveOf(cands, tomb), ids), k - |got|)
  {
    if cands != [] {
      LiveHead(cands, tomb, ids);
      if tomb[cands[0].node] {
        CollectFirst(cands[1..], tomb, ids, k, got);
      } else {
        var first := Answer(cands[0].score, ids[cands[0].node]);
        var rest := Answers(LiveOf(cands[1..], tomb), ids);
        TakeCons(first, rest, k - |got|);
        if |got| + 1 < k {
          CollectFirst(cands[1..], tomb, ids, k, got + [first]);
          Reassociate(got, first, TakeUpTo(rest, k - |got| - 1));
        }
      }
    }
  }

  /** The collecting loop returns the first `k` live candidates; for `k <= 0` it never stops early and returns all of them. */
  lemma CollectTakesLive(cands: seq<Scored>, tomb: seq<bool>, ids: seq<u64>, k: int)
    requires |tomb| == |ids| && NodesBelow(cands, |ids|)
    ensures Collect(cands, tomb, ids, k, []) == FirstK(Answers(LiveOf(cands, tomb), ids), k)
  {
    if k <= 0 {
      CollectAll(cands, tomb, ids, k, []);
    } else {
      CollectFirst(cands, tomb, ids, k, []);
    }
  }

  // ---------- soundness ----------

  /** `out` lists distinct live slots, best first, each with its own vector's similarity. */
  ghost predicate AnswersFrom(sim: Similarity, s: Index, query: Vec, slots: seq<nat>, out: seq<Answer>) {
    && |slots| == |out| && NoDuplicates(slots)
    && |s.vecs| == |s.ids| == |s.tomb|
    && (forall i :: 0 <= i < |slots| ==>
         && slots[i] < |s.ids| && !s.tomb[slots[i]]
         && out[i] == Answer(sim(query, s.vecs[slots[i]]), s.ids[slots[i]]))
    && (forall i, j :: 0 <= i < j < |out| ==> out[i].score >= out[j].score)
  }

  lemma StartNodeInRange(s: Index)
    requires Shape(s) && EntryOk(s) && s.ids != [] && StartNode(s) != |s.tomb|
    ensures StartNode(s) < |s.graph|
  {
  }

  lemma AnsweredSlots(sim: Similarity, s: Index, query: Vec, cands: seq<Scored>, k: int,
                      out: seq<Answer>) returns (slots: seq<nat>)
    requires |s.vecs| == |s.ids| == |s.tomb| && NodesBelow(cands, |s.ids|)
    requires Descending(cands) && NoDuplicates(Nodes(cands))
    requires forall e :: e in cands ==> e.score == sim(query, s.vecs[e.node])
    requires out == FirstK(Answers(LiveOf(cands, s.tomb), s.ids), k)
    ensures AnswersFrom(sim, s, query, slots, out)
    ensures forall i :: 0 <= i < |slots| ==> slots[i] in Nodes(cands)
    ensures |out| <= |LiveOf(cands, s.tomb)| && slots == Nodes(LiveOf(cands, s.tomb))[..|out|]
  {
    LiveOfKeeps(cands, s.tomb);
    var live := LiveOf(cands, s.tomb);
    slots := Nodes(live)[..|out|];
    forall i | 0 <= i < |slots|
      ensures !s.tomb[slots[i]] && out[i] == Answer(sim(query, s.vecs[slots[i]]), s.ids[slots[i]])
    {
      assert live[i] in live && slots[i] == live[i].node;
    }
    forall i | 0 <= i < |slots| ensures slots[i] in Nodes(cands) {
      assert live[i] in live && live[i] in cands;
      var j :| 0 <= j < |cands| && cands[j] == live[i];
      assert Nodes(cands)[j] == slots[i];
    }
    forall i, j | 0 <= i < j < |slots| ensures slots[i] != slots[j] {
      assert Nodes(live)[i] != Nodes(live)[j];
    }
  }
}
