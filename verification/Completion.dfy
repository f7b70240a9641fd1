/**
 Every insertion completes: with no new ones arriving, any interleaving takes at most a number of regions
 that can be told from the state it starts in, and stops only when every insertion is done.
 */
module Completion {
  import opened Ranking
  import opened BeamSearch
  import opened Hnsw
  import opened Concurrent

  // ---------- how much is left to do ----------

  function WaitingCount(threads: seq<Thread>): nat {
    if threads == [] then 0
    else WaitingCount(threads[..|threads| - 1]) + if threads[|threads| - 1].pc.Waiting? then 1 else 0
  }

  /** How many slots there will be once every waiting insertion has its own. */
  function FinalSlots(s: System): nat {
    s.shared.num + WaitingCount(s.threads)
  }

  function Tallest(threads: seq<Thread>): (h: nat)
    ensures forall i :: 0 <= i < |threads| ==> threads[i].job.level <= h
  {
    if threads == [] then 0
    else
      var last := |threads| - 1;
      var h := Tallest(threads[..last]);
      assert forall i :: 0 <= i < last ==> threads[i] == threads[..last][i];
      if threads[last].job.level > h then threads[last].job.level else h
  }

  /** More than any list is long. */
  function LinkCost(cfg: Config): nat
    requires cfg.M >= 1
  {
    2 * cfg.M + 1
  }

  /** Enough regions for all of one layer, in an index of `n` slots. */
  function LayerCost(cfg: Config, n: nat): nat
    requires cfg.M >= 1
  {
    n * LinkCost(cfg) + cfg.M + 6
  }

  /** A running search: each node is met once and expanded once, and each pending link looked at once. */
  function SearchCost(cfg: Config, n: nat, b: Beam, pending: seq<nat>): nat
    requires cfg.M >= 1
  {
    (|Unseen(n, b)| + |b.cands|) * LinkCost(cfg) + |pending|
  }

  /** Regions a thread may still take, in an index of finally `n` slots and layers up to `h`. */
  function Work(cfg: Config, n: nat, h: nat, t: Thread): (w: int)
    requires cfg.M >= 1
  {
    var layer := LayerCost(cfg, n);
    match t.pc
    case Waiting => (h + 1) * layer + 3
    case Allocated(q) => (h + 1) * layer + 2
    case AtLayer(q, ep, at) => (at + 1) * layer + 1
    case InLayer(q, ep, lc, b, pending) => lc * layer + cfg.M + 5 + SearchCost(cfg, n, b, pending)
    case Chosen(q, lc, nbs, next) => lc * layer + cfg.M + 4
    case BackLinking(q, lc, rest, next) => lc * layer + |rest| + 2
    case Done(q) => 0
  }

  function TotalWork(cfg: Config, n: nat, h: nat, threads: seq<Thread>): int
    requires cfg.M >= 1
  {
    if threads == [] then 0
    else TotalWork(cfg, n, h, threads[..|threads| - 1]) + Work(cfg, n, h, threads[|threads| - 1])
  }

  function WorkLeft(cfg: Config, s: System): int
    requires cfg.M >= 1
  {
    TotalWork(cfg, FinalSlots(s), Tallest(s.threads), s.threads)
  }

  // ---------- one region ----------

  lemma Times(a: nat, b: nat, c: nat)
    requires a <= b
    ensures a * c <= b * c && (b + 1) * c == b * c + c
  {
  }

  lemma FewerUnseen(n: nat, b: Beam, seen: set<nat>, v: nat)
    requires v < n && v !in b.visited && seen == b.visited + {v}
    ensures |Unseen(n, b.(visited := seen))| == |Unseen(n, b)| - 1
  {
    assert Unseen(n, b) == Unseen(n, b.(visited := seen)) + {v};
  }

  lemma SameUnseen(n: nat, a: Beam, b: Beam)
    requires a.visited == b.visited
    ensures Unseen(n, a) == Unseen(n, b)
  {
  }

  lemma {:induction false} UnseenAtMost(n: nat, b: Beam)
    ensures |Unseen(n, b)| <= n
  {
    if n > 0 {
      UnseenAtMost(n - 1, b);
      assert Unseen(n, b) == Unseen(n - 1, b) + if n - 1 in b.visited then {} else {n - 1};
    }
  }

  /** Looking at a neighbour: one pending link fewer, and a queued node only for a newly seen one. */
  lemma OfferCosts(cfg: Config, n: nat, scores: seq<real>, ef: int, b: Beam, pending: seq<nat>)
    requires cfg.M >= 1 && pending != [] && pending[0] < |scores| && pending[0] < n
    ensures SearchCost(cfg, n, Offer(scores, ef, b, pending[0]), pending[1..]) < SearchCost(cfg, n, b, pending)
  {
    var v := pending[0];
    var after := Offer(scores, ef, b, v);
    if v !in b.visited {
      FewerUnseen(n, b, b.visited + {v}, v);
      SameUnseen(n, after, b.(visited := b.visited + {v}));
      Times(|Unseen(n, after)| + |after.cands|, |Unseen(n, b)| + |b.cands|, LinkCost(cfg));
    }
  }

  /** Expanding a node: one queued node fewer, for fewer links than that is worth. */
  lemma ReadCosts(cfg: Config, n: nat, b: Beam, links: seq<nat>)
    requires cfg.M >= 1 && b.cands != [] && |links| <= 2 * cfg.M
    ensures SearchCost(cfg, n, Pop(b), links) < SearchCost(cfg, n, b, [])
  {
    SameUnseen(n, Pop(b), b);
    Times(|Unseen(n, b)| + |b.cands| - 1, |Unseen(n, b)| + |b.cands| - 1, LinkCost(cfg));
  }

  lemma StartCosts(cfg: Config, n: nat, scores: seq<real>, ep: nat)
    requires cfg.M >= 1 && ep < |scores| && ep < n
    ensures SearchCost(cfg, n, StartAt(scores, ep), []) <= n * LinkCost(cfg)
  {
    var none := Beam([], [], {});
    FewerUnseen(n, none, none.visited + {ep}, ep);
    SameUnseen(n, StartAt(scores, ep), none.(visited := none.visited + {ep}));
    UnseenAtMost(n, none);
    Times(|Unseen(n, StartAt(scores, ep))| + 1, n, LinkCost(cfg));
  }

  lemma ShortLists(cfg: Config, s: Shared, lc: nat, v: nat)
    requires cfg.M >= 1 && SharedOk(cfg, s)
    ensures |Links(s.ix.graph, lc, v)| <= 2 * cfg.M
  {
    if v < |s.ix.graph| && lc < |s.ix.graph[v]| { assert Up(s.ix, v, lc) && ListFits(cfg, s.ix, v, lc); }
  }

  /** A region spent searching. */
  lemma SearchStepCosts(sim: Similarity, cfg: Config, n: nat, h: nat, s: Shared, t: Thread, s': Shared, t': Thread)
    requires cfg.M >= 1 && SharedOk(cfg, s) && ThreadOk(cfg, s.ix, t) && s.num <= n
    requires BeginLayer(sim, s, t, s', t') || ReadLinks(cfg, s, t, s', t') || OfferNext(sim, cfg, s, t, s', t')
    ensures Work(cfg, n, h, t') < Work(cfg, n, h, t)
  {
    hide SearchCost, Offer, LinkCost;
    if t.pc.AtLayer? {
      StartCosts(cfg, n, ScoresTo(sim, s.ix.vecs, t.job.vec), t.pc.ep);
      Times(t.pc.at, t.pc.at, LayerCost(cfg, n));
    } else if t.pc.pending == [] {
      ShortLists(cfg, s, t.pc.lc, t.pc.beam.cands[0].node);
      ReadCosts(cfg, n, t.pc.beam, t'.pc.pending);
    } else {
      OfferCosts(cfg, n, ScoresTo(sim, s.ix.vecs, t.job.vec), BeamWidth(cfg, t, t.pc.lc), t.pc.beam, t.pc.pending);
    }
  }

  lemma OtherStepCosts(sim: Similarity, cfg: Config, n: nat, h: nat, s: Shared, t: Thread, s': Shared, t': Thread)
    requires cfg.M >= 1 && SharedOk(cfg, s) && ThreadOk(cfg, s.ix, t) && s.ix.maxLayer <= h
    requires || Allocate(s, t, s', t') || ReadEntry(s, t, s', t') || EndLayer(cfg, s, t, s', t') || WriteList(s, t, s', t')
             || LinkBack(sim, cfg, s, t, s', t') || NextLayer(s, t, s', t') || Finish(s, t, s', t')
    ensures Work(cfg, n, h, t') < Work(cfg, n, h, t)
  {
    hide SearchCost, LayerCost, Append, PutList, BackLink, SortedCopy, Select, LinksOk, Crown;
    Times(s.ix.maxLayer + 1, h + 1, LayerCost(cfg, n));
    if t.pc.InLayer? { assert 0 <= SearchCost(cfg, n, t.pc.beam, t.pc.pending); }
  }

  /** Every region takes something off the thread's remaining work. */
  lemma StepCosts(sim: Similarity, cfg: Config, n: nat, h: nat, s: Shared, t: Thread, s': Shared, t': Thread)
    requires cfg.M >= 1 && SharedOk(cfg, s) && ThreadOk(cfg, s.ix, t) && s.num <= n && s.ix.maxLayer <= h
    requires ThreadStep(sim, cfg, s, t, s', t')
    ensures Work(cfg, n, h, t') < Work(cfg, n, h, t)
  {
    hide Work, SharedOk, ThreadOk;
    hide Allocate, ReadEntry, BeginLayer, ReadLinks, OfferNext, EndLayer, WriteList, LinkBack, NextLayer, Finish;
    if BeginLayer(sim, s, t, s', t') || ReadLinks(cfg, s, t, s', t') || OfferNext(sim, cfg, s, t, s', t') {
      SearchStepCosts(sim, cfg, n, h, s, t, s', t');
    } else {
      OtherStepCosts(sim, cfg, n, h, s, t, s', t');
    }
  }

  // ---------- the whole system ----------

  lemma {:induction false} TotalUpdate(cfg: Config, n: nat, h: nat, threads: seq<Thread>, i: nat, t: Thread)
    requires cfg.M >= 1 && i < |threads|
    ensures TotalWork(cfg, n, h, threads[i := t]) == TotalWork(cfg, n, h, threads) - Work(cfg, n, h, threads[i]) + Work(cfg, n, h, t)
  {
    hide Work;
    var last := |threads| - 1;
    if i == last {
      assert threads[i := t][..last] == threads[..last];
    } else {
      assert threads[i := t][..last] == threads[..last][i := t];
      TotalUpdate(cfg, n, h, threads[..last], i, t);
    }
  }

  lemma {:induction false} CountUpdate(threads: seq<Thread>, i: nat, t: Thread)
    requires i < |threads|
    ensures WaitingCount(threads[i := t]) ==
            WaitingCount(threads) - (if threads[i].pc.Waiting? then 1 else 0) + if t.pc.Waiting? then 1 else 0
  {
    var last := |threads| - 1;
    if i == last {
      assert threads[i := t][..last] == threads[..last];
    } else {
      assert threads[i := t][..last] == threads[..last][i := t];
      CountUpdate(threads[..last], i, t);
    }
  }

  lemma {:induction false} SameTallest(threads: seq<Thread>, i: nat, t: Thread)
    requires i < |threads| && t.job == threads[i].job
    ensures Tallest(threads[i := t]) == Tallest(threads)
  {
    var last := |threads| - 1;
    if i == last {
      assert threads[i := t][..last] == threads[..last];
    } else {
      assert threads[i := t][..last] == threads[..last][i := t];
      SameTallest(threads[..last], i, t);
    }
  }

  /** The entry point's height is that of some insertion. */
  lemma LayersBelow(cfg: Config, s: System)
    requires Inv(cfg, s)
    ensures s.shared.ix.maxLayer <= Tallest(s.threads)
  {
    if s.shared.num > 0 {
      assert Owned(s.threads, s.shared.ix.entry);
      var i :| 0 <= i < |s.threads| && SlotOf(s.threads[i]) == s.shared.ix.entry;
      assert ThreadOk(cfg, s.shared.ix, s.threads[i]);
    }
  }

  /** Only a slot allocation changes the number of slots and of waiting threads, and it moves one from the latter to the former. */
  lemma SlotsConserved(sim: Similarity, cfg: Config, s: Shared, t: Thread, s': Shared, t': Thread)
    requires ThreadStep(sim, cfg, s, t, s', t')
    ensures t'.job == t.job && !t'.pc.Waiting? && s'.num == s.num + if t.pc.Waiting? then 1 else 0
  {
  }

  /** Whoever moves, less is left to do. */
  lemma AdvanceCosts(sim: Similarity, cfg: Config, s: System, i: nat, s': System)
    requires cfg.M >= 1 && Inv(cfg, s) && Next(sim, cfg, s, Advance(i), s')
    ensures WorkLeft(cfg, s') < WorkLeft(cfg, s)
  {
    var t, t' := s.threads[i], s'.threads[i];
    assert ThreadOk(cfg, s.shared.ix, t) && SharedOk(cfg, s.shared);
    LayersBelow(cfg, s);
    hide ThreadStep, Inv, Work, SharedOk, ThreadOk;
    SameFinalSize(sim, cfg, s, i, s');
    TotalUpdate(cfg, FinalSlots(s), Tallest(s.threads), s.threads, i, t');
    StepCosts(sim, cfg, FinalSlots(s), Tallest(s.threads), s.shared, t, s'.shared, t');
  }

  lemma SameFinalSize(sim: Similarity, cfg: Config, s: System, i: nat, s': System)
    requires Next(sim, cfg, s, Advance(i), s')
    ensures FinalSlots(s') == FinalSlots(s) && Tallest(s'.threads) == Tallest(s.threads)
  {
    hide ThreadStep;
    SlotsConserved(sim, cfg, s.shared, s.threads[i], s'.shared, s'.threads[i]);
    CountUpdate(s.threads, i, s'.threads[i]);
    SameTallest(s.threads, i, s'.threads[i]);
  }

  lemma {:induction false} NoNegativeWork(cfg: Config, n: nat, h: nat, ix: Index, threads: seq<Thread>)
    requires cfg.M >= 1 && forall i :: 0 <= i < |threads| ==> ThreadOk(cfg, ix, threads[i])
    ensures TotalWork(cfg, n, h, threads) >= 0
    ensures TotalWork(cfg, n, h, threads) == 0 ==> forall i :: 0 <= i < |threads| ==> threads[i].pc.Done?
  {
    if threads != [] {
      var last := |threads| - 1;
      forall i | 0 <= i < last ensures ThreadOk(cfg, ix, threads[..last][i]) { assert threads[..last][i] == threads[i]; }
      NoNegativeWork(cfg, n, h, ix, threads[..last]);
      SomeWork(cfg, n, h, ix, threads[last]);
      hide Work, ThreadOk;
      forall i | 0 <= i < |threads| && TotalWork(cfg, n, h, threads) == 0 ensures threads[i].pc.Done? {
        if i < last { assert threads[..last][i] == threads[i]; }
      }
    }
  }

  lemma SomeWork(cfg: Config, n: nat, h: nat, ix: Index, t: Thread)
    requires cfg.M >= 1 && ThreadOk(cfg, ix, t)
    ensures Work(cfg, n, h, t) >= 0 && (Work(cfg, n, h, t) == 0 <==> t.pc.Done?)
  {
    hide SearchCost, LayerCost, OwnSlot;
    var layer := LayerCost(cfg, n);
    match t.pc
    case Waiting => NoLoss(h + 1, layer);
    case Allocated(_) => NoLoss(h + 1, layer);
    case AtLayer(_, _, at) => NoLoss(at + 1, layer);
    case InLayer(_, _, lc, b, pending) =>
      NoLoss(lc, layer);
      assert 0 <= SearchCost(cfg, n, b, pending);
    case Chosen(_, lc, _, _) => NoLoss(lc, layer);
    case BackLinking(_, lc, _, _) => NoLoss(lc, layer);
    case Done(_) =>
  }

  lemma NoLoss(x: nat, y: nat)
    ensures x * y >= 0
  {
  }

  /** How many of the actions `m`, ..., `n - 1` are regions of insertions. */
  function Advances(actions: seq<Action>, m: nat, n: nat): nat
    requires m <= n <= |actions|
  {
    if m == n then 0 else Advances(actions, m, n - 1) + if actions[n - 1].Advance? then 1 else 0
  }

  /** While no insertion arrives, every region taken comes off the work left; deletions change nothing about it. */
  lemma {:induction false} WorkBounds(sim: Similarity, cfg: Config, dim: nat, run: seq<System>, actions: seq<Action>,
                                      m: nat, n: nat)
    requires cfg.M >= 1 && Execution(sim, cfg, dim, run, actions) && m <= n < |run|
    requires forall i :: m <= i < n ==> !actions[i].Spawn?
    ensures Advances(actions, m, n) + WorkLeft(cfg, run[n]) <= WorkLeft(cfg, run[m])
  {
    hide Next, Inv, WorkLeft;
    if m < n {
      WorkBounds(sim, cfg, dim, run, actions, m, n - 1);
      ExecutionKeeps(sim, cfg, dim, run, actions, n - 1);
      NextCosts(sim, cfg, run[n - 1], actions[n - 1], run[n]);
    }
  }

  lemma NextCosts(sim: Similarity, cfg: Config, s: System, a: Action, s': System)
    requires cfg.M >= 1 && Inv(cfg, s) && Next(sim, cfg, s, a, s') && !a.Spawn?
    ensures (if a.Advance? then 1 else 0) + WorkLeft(cfg, s') <= WorkLeft(cfg, s)
  {
    if a.Advance? { AdvanceCosts(sim, cfg, s, a.i, s'); } else { RemoveCostsNothing(sim, cfg, s, a, s'); }
  }

  lemma RemoveCostsNothing(sim: Similarity, cfg: Config, s: System, a: Action, s': System)
    requires cfg.M >= 1 && a.Remove? && Next(sim, cfg, s, a, s')
    ensures WorkLeft(cfg, s') == WorkLeft(cfg, s)
  {
  }

  /**
   Every insertion completes: from any reachable state on, as long as no new insertion arrives, threads take
   at most `WorkLeft` regions in all, and once they have taken that many every insertion is done.
   */
  lemma InsertionsComplete(sim: Similarity, cfg: Config, dim: nat, run: seq<System>, actions: seq<Action>, m: nat, n: nat)
    requires cfg.M >= 1 && Execution(sim, cfg, dim, run, actions) && m <= n < |run|
    requires forall i :: m <= i < n ==> !actions[i].Spawn?
    ensures Advances(actions, m, n) <= WorkLeft(cfg, run[m])
    ensures Advances(actions, m, n) == WorkLeft(cfg, run[m]) ==> forall i :: 0 <= i < |run[n].threads| ==> run[n].threads[i].pc.Done?
    ensures (forall i :: 0 <= i < |run[n].threads| ==> !CanStep(sim, cfg, run[n].shared, run[n].threads[i])) ==>
            forall i :: 0 <= i < |run[n].threads| ==> run[n].threads[i].pc.Done?
  {
    WorkBounds(sim, cfg, dim, run, actions, m, n);
    ExecutionKeeps(sim, cfg, dim, run, actions, n);
    NoNegativeWork(cfg, FinalSlots(run[n]), Tallest(run[n].threads), run[n].shared.ix, run[n].threads);
    hide Inv, CanStep, TotalWork, Execution;
    forall i | 0 <= i < |run[n].threads| && !run[n].threads[i].pc.Done? ensures CanStep(sim, cfg, run[n].shared, run[n].threads[i]) {
      NeverStuck(sim, cfg, dim, run, actions, n, i);
    }
  }
}
