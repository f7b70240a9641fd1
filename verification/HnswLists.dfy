/** Pruning: a neighbour list is always a best selection of everything it was offered. */
module HnswLists {
  import opened Bytes
  import opened Ranking
  import opened BeamSearch
  import opened Hnsw

  lemma SortKeepsNodes(sorted: seq<Scored>, cands: seq<Scored>)
    requires SortedCopy(sorted, cands)
    ensures SetOf(Nodes(sorted)) <= SetOf(Nodes(cands))
  {
    SortedCopyElements(sorted, cands);
    forall x | x in SetOf(Nodes(sorted)) ensures x in SetOf(Nodes(cands)) {
      var i :| 0 <= i < |sorted| && Nodes(sorted)[i] == x;
      assert sorted[i] in cands;
      var a :| 0 <= a < |cands| && cands[a] == sorted[i];
      assert Nodes(cands)[a] == x;
    }
  }

  /** A prefix of a descending list is a best selection of it. */
  lemma PrefixIsTop(sorted: seq<Scored>, m: nat, scores: seq<real>)
    requires Descending(sorted) && NoDuplicates(Nodes(sorted))
    requires forall i :: 0 <= i < |sorted| ==> sorted[i].node < |scores| && sorted[i].score == scores[sorted[i].node]
    ensures TopSelection(Nodes(TakeUpTo(sorted, m)), SetOf(Nodes(sorted)), m, scores)
  {
    var picked := Nodes(TakeUpTo(sorted, m));
    var all := Nodes(sorted);
    DistinctCount(all, SetOf(all));
    assert picked == all[..|picked|];
    forall kept, dropped | kept in picked && dropped in all && dropped !in picked
      ensures scores[dropped] <= scores[kept]
    {
      var i :| 0 <= i < |picked| && picked[i] == kept;
      var j :| 0 <= j < |all| && all[j] == dropped;
      assert j >= |picked|;
    }
  }

  /** `select_neighbours_` keeps the best `m` candidates. */
  lemma SelectIsTop(cands: seq<Scored>, m: int, picked: seq<nat>, scores: seq<real>)
    requires Select(cands, m, picked) && m >= 0
    requires NoDuplicates(Nodes(cands))
    requires forall e :: e in cands ==> e.node < |scores| && e.score == scores[e.node]
    ensures TopSelection(picked, SetOf(Nodes(cands)), m, scores)
  {
    var sorted: seq<Scored> :| SortedCopy(sorted, cands) && picked == Nodes(TakeUpTo(sorted, Larger(m, 0)));
    SortedCopyElements(sorted, cands);
    NodesDistinctAfterSort(sorted, cands);
    SortKeepsNodes(sorted, cands);
    DistinctCount(Nodes(sorted), SetOf(Nodes(sorted)));
    DistinctCount(Nodes(cands), SetOf(Nodes(cands)));
    SubsetCount(SetOf(Nodes(sorted)), SetOf(Nodes(cands)));
    forall i | 0 <= i < |sorted| ensures sorted[i].node < |scores| && sorted[i].score == scores[sorted[i].node] {
      assert sorted[i] in cands;
    }
    PrefixIsTop(sorted, m, scores);
  }

  /** A selection that dropped nothing holds the whole pool. */
  lemma UnfilledHoldsAll(list: seq<nat>, pool: set<nat>, cap: int, scores: seq<real>)
    requires TopSelection(list, pool, cap, scores) && (|list| < cap || |pool| <= cap)
    ensures SetOf(list) == pool && |list| == |pool|
  {
    DistinctCount(list, SetOf(list));
    SubsetCount(SetOf(list), pool);
  }

  lemma PushedSet(list: seq<nat>, q: nat)
    ensures SetOf(list + [q]) == SetOf(list) + {q}
    ensures NoDuplicates(list) && q !in list ==> NoDuplicates(list + [q])
  {
    assert forall x :: x in list + [q] <==> x in list || x == q;
  }

  /** Pushing a newcomer and pruning keeps the list a best selection of all it was offered. */
  lemma PrunedIsTop(sim: Similarity, vecs: seq<Vec>, owner: nat, cap: int, list: seq<nat>, pool: set<nat>, q: nat,
                    pruned: seq<nat>)
    requires owner < |vecs| && q < |vecs| && q !in pool && cap >= 1
    requires TopSelection(list, pool, cap, ScoresTo(sim, vecs, vecs[owner]))
    requires Pruned(sim, vecs, owner, cap, list + [q], pruned)
    ensures TopSelection(pruned, pool + {q}, cap, ScoresTo(sim, vecs, vecs[owner]))
  {
    var scores := ScoresTo(sim, vecs, vecs[owner]);
    PushedSet(list, q);
    if |list| < cap {
      UnfilledHoldsAll(list, pool, cap, scores);
      assert |pool + {q}| == |pool| + 1;
    } else {
      var rated := Rated(sim, vecs, owner, list + [q]);
      assert Nodes(rated) == list + [q];
      SelectIsTop(rated, cap, pruned, scores);
      TopOfGrown(list, pool, cap, scores, q, pruned);
    }
  }

  /** The best of (the best of a pool, and a newcomer) are the best of the grown pool. */
  lemma TopOfGrown(list: seq<nat>, pool: set<nat>, cap: int, scores: seq<real>, q: nat, pruned: seq<nat>)
    requires TopSelection(list, pool, cap, scores) && |list| == cap
    requires q < |scores| && q !in pool
    requires TopSelection(pruned, SetOf(list) + {q}, cap, scores)
    ensures TopSelection(pruned, pool + {q}, cap, scores)
  {
    DistinctCount(list, SetOf(list));
    assert q !in SetOf(list);
    assert |SetOf(list) + {q}| == cap + 1 && |pool + {q}| == |pool| + 1;
    SomethingDropped(pruned, SetOf(list) + {q});
    var spare :| spare in SetOf(list) + {q} && spare !in pruned;
    forall kept, dropped | kept in pruned && dropped in pool + {q} && dropped !in pruned
      ensures scores[dropped] <= scores[kept]
    {
      assert kept in SetOf(list) + {q};
      if dropped !in SetOf(list) + {q} && kept == q {
        // an old entry made room for q: no worse than what was dropped earlier, no better than q
        assert spare in list;
      }
    }
  }

  lemma SomethingDropped(list: seq<nat>, pool: set<nat>)
    requires NoDuplicates(list) && |list| < |pool|
    ensures exists x :: x in pool && x !in list
  {
    DistinctCount(list, SetOf(list));
    if forall x :: x in pool ==> x in list {
      SubsetCount(pool, SetOf(list));
    }
  }

  /** The list after one back-link: the newcomer last while there is room, else as many entries as fit, none of them new. */
  ghost predicate LinkedBack(cfg: Config, s: Index, q: nat, layer: nat, nb: nat, t: Index) {
    && nb < |t.graph| && layer < |t.graph[nb]|
    && var links, list, cap := Links(s.graph, layer, nb), t.graph[nb][layer], if layer == 0 then 2 * cfg.M else cfg.M;
       if |links| < cap then list == links + [q] else |list| == cap && forall x :: x in list ==> x in links || x == q
  }

  lemma BackLinkList(sim: Similarity, cfg: Config, s: Index, q: nat, layer: nat, nb: nat, t: Index)
    requires cfg.M >= 0 && BackLink(sim, cfg, s, q, layer, nb, t)
    ensures LinkedBack(cfg, s, q, layer, nb, t)
  {
    hide Pruned;
    var r := Raise(s, nb, layer);
    var list :| Pruned(sim, s.vecs, nb, Mmax(cfg, layer), r.graph[nb][layer] + [q], list) && t == PutList(r, nb, layer, list, {q});
    PrunedSize(sim, s.vecs, nb, Mmax(cfg, layer), Links(s.graph, layer, nb), q, list);
  }

  lemma PrunedSize(sim: Similarity, vecs: seq<Vec>, owner: nat, cap: int, links: seq<nat>, q: nat, list: seq<nat>)
    requires cap >= 0 && Pruned(sim, vecs, owner, cap, links + [q], list)
    ensures if |links| < cap then list == links + [q] else |list| == cap && forall x :: x in list ==> x in links || x == q
  {
    hide Select;
    if |links| >= cap {
      var rated := Rated(sim, vecs, owner, links + [q]);
      assert Nodes(rated) == links + [q];
      SelectedFrom(rated, cap, list);
    }
  }

  lemma SelectedFrom(cands: seq<Scored>, m: nat, picked: seq<nat>)
    requires Select(cands, m, picked)
    ensures |picked| == (if |cands| < m then |cands| else m) && forall x :: x in picked ==> x in Nodes(cands)
  {
    var sorted: seq<Scored> :| SortedCopy(sorted, cands) && picked == Nodes(TakeUpTo(sorted, Larger(m, 0)));
    SortedCopyElements(sorted, cands);
    SortKeepsNodes(sorted, cands);
    forall x | x in picked ensures x in SetOf(Nodes(sorted)) {
      var i :| 0 <= i < |picked| && picked[i] == x;
      assert Nodes(sorted)[i] == x;
    }
  }
}
