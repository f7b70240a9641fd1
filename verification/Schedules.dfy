/**
 The converse of module Serial: whatever sequential operations can produce, the step system can too, one
 insertion after another.
 */
module Schedules {
  import opened Ranking
  import opened BeamSearch
  import opened Hnsw
  import I = HnswInvariant
  import HnswRuns
  import C = Concurrent
  import opened Serial

  // ---------- one thread at work ----------

  /** A thread alone takes `n` regions. */
  ghost predicate Steps(sim: Similarity, cfg: Config, n: nat, s: C.Shared, t: C.Thread, s': C.Shared, t': C.Thread) {
    if n == 0 then s' == s && t' == t
    else exists sm, tm :: Steps(sim, cfg, n - 1, s, t, sm, tm) && C.ThreadStep(sim, cfg, sm, tm, s', t')
  }

  ghost predicate Solo(sim: Similarity, cfg: Config, s: C.Shared, t: C.Thread, s': C.Shared, t': C.Thread) {
    exists n: nat :: Steps(sim, cfg, n, s, t, s', t')
  }

  lemma Rest(sim: Similarity, cfg: Config, s: C.Shared, t: C.Thread)
    ensures Solo(sim, cfg, s, t, s, t)
  {
    assert Steps(sim, cfg, 0, s, t, s, t);
  }

  lemma ThenStep(sim: Similarity, cfg: Config, s: C.Shared, t: C.Thread, sm: C.Shared, tm: C.Thread, s': C.Shared, t': C.Thread)
    requires Solo(sim, cfg, s, t, sm, tm) && C.ThreadStep(sim, cfg, sm, tm, s', t')
    ensures Solo(sim, cfg, s, t, s', t')
  {
    hide C.ThreadStep;
    var n: nat :| Steps(sim, cfg, n, s, t, sm, tm);
    assert Steps(sim, cfg, n + 1, s, t, s', t');
  }

  lemma {:induction false} ThenSteps(sim: Similarity, cfg: Config, s: C.Shared, t: C.Thread, sm: C.Shared, tm: C.Thread,
                                     n: nat, s': C.Shared, t': C.Thread)
    requires Solo(sim, cfg, s, t, sm, tm) && Steps(sim, cfg, n, sm, tm, s', t')
    ensures Solo(sim, cfg, s, t, s', t')
  {
    hide C.ThreadStep;
    if n > 0 {
      var sl, tl :| Steps(sim, cfg, n - 1, sm, tm, sl, tl) && C.ThreadStep(sim, cfg, sl, tl, s', t');
      ThenSteps(sim, cfg, s, t, sm, tm, n - 1, sl, tl);
      ThenStep(sim, cfg, s, t, sl, tl, s', t');
    }
  }

  lemma Then(sim: Similarity, cfg: Config, s: C.Shared, t: C.Thread, sm: C.Shared, tm: C.Thread, s': C.Shared, t': C.Thread)
    requires Solo(sim, cfg, s, t, sm, tm) && Solo(sim, cfg, sm, tm, s', t')
    ensures Solo(sim, cfg, s, t, s', t')
  {
    hide C.ThreadStep;
    var n: nat :| Steps(sim, cfg, n, sm, tm, s', t');
    ThenSteps(sim, cfg, s, t, sm, tm, n, s', t');
  }

  // ---------- searching a layer ----------

  function InSearch(j: C.Job, q: nat, ep: nat, lc: nat, b: Beam, pending: seq<nat>): C.Thread {
    C.Thread(j, C.InLayer(q, ep, lc, b, pending))
  }

  lemma {:induction false} Offers(sim: Similarity, cfg: Config, s: C.Shared, j: C.Job, q: nat, ep: nat, lc: nat,
                                  b: Beam, pending: seq<nat>)
    requires forall i :: 0 <= i < |pending| ==> pending[i] < |s.ix.vecs|
    ensures
      var t := InSearch(j, q, ep, lc, b, pending);
      var scores := ScoresTo(sim, s.ix.vecs, j.vec);
      Solo(sim, cfg, s, t, s, InSearch(j, q, ep, lc, OfferAll(scores, C.BeamWidth(cfg, t, lc), b, pending), []))
    decreases |pending|
  {
    var t := InSearch(j, q, ep, lc, b, pending);
    var scores, ef := ScoresTo(sim, s.ix.vecs, j.vec), C.BeamWidth(cfg, t, lc);
    if pending == [] {
      Rest(sim, cfg, s, t);
    } else {
      var next := InSearch(j, q, ep, lc, Offer(scores, ef, b, pending[0]), pending[1..]);
      OfferFirst(scores, ef, b, pending);
      assert C.OfferNext(sim, cfg, s, t, s, next);
      hide Offer, OfferAll, Solo, C.OfferNext;
      Rest(sim, cfg, s, t);
      ThenStep(sim, cfg, s, t, s, t, s, next);
      Offers(sim, cfg, s, j, q, ep, lc, Offer(scores, ef, b, pending[0]), pending[1..]);
      Then(sim, cfg, s, t, s, next, s, InSearch(j, q, ep, lc, OfferAll(scores, ef, b, pending), []));
    }
  }

  lemma {:induction false} Explores(sim: Similarity, cfg: Config, s: C.Shared, j: C.Job, q: nat, ep: nat, lc: nat,
                                    ef: int, b: Beam)
    requires |s.ix.vecs| == |s.ix.graph| && LinksInRange(s.ix.graph, lc) &&
             ef == C.BeamWidth(cfg, InSearch(j, q, ep, lc, b, []), lc)
    ensures
      var end := Explore(s.ix.graph, lc, ScoresTo(sim, s.ix.vecs, j.vec), ef, b);
      && (end.cands == [] || Hopeless(ef, end, end.cands[0]))
      && Solo(sim, cfg, s, InSearch(j, q, ep, lc, b, []), s, InSearch(j, q, ep, lc, end, []))
    decreases Unseen(|s.ix.graph|, b), |b.cands|
  {
    var scores := ScoresTo(sim, s.ix.vecs, j.vec);
    var t := InSearch(j, q, ep, lc, b, []);
    Rest(sim, cfg, s, t);
    if b.cands != [] && !Hopeless(ef, b, b.cands[0]) {
      var links := Links(s.ix.graph, lc, b.cands[0].node);
      var read := InSearch(j, q, ep, lc, Pop(b), links);
      assert C.ReadLinks(cfg, s, t, s, read);
      var after := Turn(s.ix.graph, lc, scores, ef, b);
      assert after == OfferAll(scores, ef, Pop(b), links);
      var end := Explore(s.ix.graph, lc, scores, ef, b);
      assert end == Explore(s.ix.graph, lc, scores, ef, after);
      InRangeLinks(s.ix, lc, b.cands[0].node);
      hide Explore, OfferAll, Solo, C.ReadLinks;
      ThenStep(sim, cfg, s, t, s, t, s, read);
      Offers(sim, cfg, s, j, q, ep, lc, Pop(b), links);
      Then(sim, cfg, s, t, s, read, s, InSearch(j, q, ep, lc, after, []));
      Explores(sim, cfg, s, j, q, ep, lc, ef, after);
      Then(sim, cfg, s, t, s, InSearch(j, q, ep, lc, after, []), s, InSearch(j, q, ep, lc, end, []));
    }
  }

  lemma InRangeLinks(ix: Index, lc: nat, v: nat)
    requires |ix.vecs| == |ix.graph| && LinksInRange(ix.graph, lc)
    ensures forall i :: 0 <= i < |Links(ix.graph, lc, v)| ==> Links(ix.graph, lc, v)[i] < |ix.vecs|
  {
  }

  function AtLayer(j: C.Job, q: nat, ep: nat, at: int): C.Thread {
    C.Thread(j, C.AtLayer(q, ep, at))
  }

  /** From a layer's entry to the end of its search, with the result the layer search has. */
  lemma SearchesLayer(sim: Similarity, cfg: Config, s: C.Shared, j: C.Job, q: nat, ep: nat, lc: nat, ef: int, out: seq<Scored>)
    returns (end: Beam)
    requires Hit(sim, s.ix, j.vec, ep, ef, lc, out) && ef == C.BeamWidth(cfg, AtLayer(j, q, ep, lc), lc)
    ensures end.cands == [] || Hopeless(ef, end, end.cands[0])
    ensures SortedCopy(out, end.results)
    ensures Solo(sim, cfg, s, AtLayer(j, q, ep, lc), s, InSearch(j, q, ep, lc, end, []))
  {
    var scores := ScoresTo(sim, s.ix.vecs, j.vec);
    var t, first := AtLayer(j, q, ep, lc), InSearch(j, q, ep, lc, StartAt(scores, ep), []);
    assert C.BeginLayer(sim, s, t, s, first);
    end := FinalBeam(s.ix.graph, lc, scores, ep, ef);
    hide Solo, C.BeginLayer, Explore;
    Rest(sim, cfg, s, t);
    ThenStep(sim, cfg, s, t, s, t, s, first);
    Explores(sim, cfg, s, j, q, ep, lc, ef, StartAt(scores, ep));
    Then(sim, cfg, s, t, s, first, s, InSearch(j, q, ep, lc, end, []));
  }

  // ---------- the descent ----------

  /** One layer above the new node's level. */
  lemma MovesDown(sim: Similarity, cfg: Config, s: C.Shared, j: C.Job, q: nat, ep: nat, lc: nat, out: seq<Scored>)
    requires lc > j.level && Hit(sim, s.ix, j.vec, ep, 1, lc, out)
    ensures Solo(sim, cfg, s, AtLayer(j, q, ep, lc), s, AtLayer(j, q, Front(out, ep), lc - 1))
  {
    hide Solo, Select, SortedCopy, Hit;
    var end := SearchesLayer(sim, cfg, s, j, q, ep, lc, 1, out);
    C.SelectionExists(out, cfg.M);
    var nbs: seq<nat> :| Select(out, cfg.M, nbs);
    EndsAbove(cfg, s, j, q, ep, lc, end, out, nbs);
    hide C.EndLayer;
    ThenStep(sim, cfg, s, AtLayer(j, q, ep, lc), s, InSearch(j, q, ep, lc, end, []), s, AtLayer(j, q, Front(out, ep), lc - 1));
  }

  lemma EndsAbove(cfg: Config, s: C.Shared, j: C.Job, q: nat, ep: nat, lc: nat, end: Beam, out: seq<Scored>, nbs: seq<nat>)
    requires lc > j.level && SortedCopy(out, end.results) && Select(out, cfg.M, nbs)
    requires end.cands == [] || Hopeless(1, end, end.cands[0])
    ensures C.EndLayer(cfg, s, InSearch(j, q, ep, lc, end, []), s, AtLayer(j, q, Front(out, ep), lc - 1))
  {
    hide SortedCopy, Select;
  }

  lemma {:induction false} Descends(sim: Similarity, cfg: Config, s: C.Shared, j: C.Job, q: nat, start: nat, hi: nat,
                                    lo: nat, ep: nat)
    requires lo >= j.level && Descend(sim, s.ix, j.vec, start, hi, lo, ep)
    ensures Solo(sim, cfg, s, AtLayer(j, q, start, hi), s, AtLayer(j, q, ep, Smaller(hi, lo)))
    decreases hi - lo
  {
    hide Solo, Hit;
    if hi <= lo {
      Rest(sim, cfg, s, AtLayer(j, q, start, hi));
    } else {
      var prev, out :|
        && Descend(sim, s.ix, j.vec, start, hi, Above(lo), prev)
        && Hit(sim, s.ix, j.vec, prev, 1, Above(lo), out)
        && ep == Front(out, prev);
      Descends(sim, cfg, s, j, q, start, hi, Above(lo), prev);
      MovesDown(sim, cfg, s, j, q, prev, Above(lo), out);
      Then(sim, cfg, s, AtLayer(j, q, start, hi), s, AtLayer(j, q, prev, Above(lo)), s, AtLayer(j, q, ep, lo));
    }
  }

  // ---------- linking ----------

  function LinkingBack(j: C.Job, q: nat, lc: nat, rest: seq<nat>, next: nat): C.Thread {
    C.Thread(j, C.BackLinking(q, lc, rest, next))
  }

  lemma {:induction false} LinksBack(sim: Similarity, cfg: Config, num: nat, j: C.Job, q: nat, lc: nat, ix: Index, nbs: seq<nat>,
                                     more: seq<nat>, next: nat, ix': Index)
    requires BackLinks(sim, cfg, ix, q, lc, nbs, ix')
    ensures Solo(sim, cfg, C.Shared(num, ix), LinkingBack(j, q, lc, nbs + more, next), C.Shared(num, ix'), LinkingBack(j, q, lc, more, next))
    decreases |nbs|
  {
    hide Solo, BackLink;
    if nbs == [] {
      assert nbs + more == more;
      Rest(sim, cfg, C.Shared(num, ix), LinkingBack(j, q, lc, more, next));
    } else {
      var last := |nbs| - 1;
      var mid :| BackLinks(sim, cfg, ix, q, lc, nbs[..last], mid) && BackLink(sim, cfg, mid, q, lc, nbs[last], ix');
      var rest := [nbs[last]] + more;
      assert nbs + more == nbs[..last] + rest;
      LinksBack(sim, cfg, num, j, q, lc, ix, nbs[..last], rest, next, mid);
      assert rest[0] == nbs[last] && rest[1..] == more;
      assert C.LinkBack(sim, cfg, C.Shared(num, mid), LinkingBack(j, q, lc, rest, next), C.Shared(num, ix'), LinkingBack(j, q, lc, more, next));
      hide C.LinkBack;
      ThenStep(sim, cfg, C.Shared(num, ix), LinkingBack(j, q, lc, nbs + more, next), C.Shared(num, mid), LinkingBack(j, q, lc, rest, next),
               C.Shared(num, ix'), LinkingBack(j, q, lc, more, next));
    }
  }

  function HasChosen(j: C.Job, q: nat, lc: nat, nbs: seq<nat>, next: nat): C.Thread {
    C.Thread(j, C.Chosen(q, lc, nbs, next))
  }

  /** Search one layer and choose the neighbours. */
  lemma Chooses(sim: Similarity, cfg: Config, num: nat, j: C.Job, q: nat, ep: nat, lc: nat, ix: Index,
                out: seq<Scored>, nbs: seq<nat>)
    requires lc <= j.level && Hit(sim, ix, j.vec, ep, Larger(cfg.efConstruction, cfg.M), lc, out) && Select(out, cfg.M, nbs)
    ensures Solo(sim, cfg, C.Shared(num, ix), AtLayer(j, q, ep, lc), C.Shared(num, ix), HasChosen(j, q, lc, nbs, Front(out, ep)))
  {
    var s := C.Shared(num, ix);
    var end := SearchesLayer(sim, cfg, s, j, q, ep, lc, Larger(cfg.efConstruction, cfg.M), out);
    hide Solo, Select, SortedCopy, Hit, Offer;
    assert C.EndLayer(cfg, s, InSearch(j, q, ep, lc, end, []), s, HasChosen(j, q, lc, nbs, Front(out, ep)));
    hide C.EndLayer;
    ThenStep(sim, cfg, s, AtLayer(j, q, ep, lc), s, InSearch(j, q, ep, lc, end, []), s, HasChosen(j, q, lc, nbs, Front(out, ep)));
  }

  /** Write the list of one layer, make the back-links, and move on. */
  lemma WritesAndLinks(sim: Similarity, cfg: Config, num: nat, j: C.Job, q: nat, lc: nat, ix: Index, nbs: seq<nat>, ix': Index, next: nat)
    requires HasLayer(ix, q, lc) && BackLinks(sim, cfg, PutList(ix, q, lc, nbs, SetOf(nbs)), q, lc, nbs, ix')
    ensures Solo(sim, cfg, C.Shared(num, ix), HasChosen(j, q, lc, nbs, next), C.Shared(num, ix'), AtLayer(j, q, next, lc - 1))
  {
    hide Solo, BackLinks, PutList;
    var s, t, s' := C.Shared(num, ix), HasChosen(j, q, lc, nbs, next), C.Shared(num, ix');
    var listed := C.Shared(num, PutList(ix, q, lc, nbs, SetOf(nbs)));
    Rest(sim, cfg, s, t);
    assert C.WriteList(s, t, listed, LinkingBack(j, q, lc, nbs, next));
    ThenStep(sim, cfg, s, t, s, t, listed, LinkingBack(j, q, lc, nbs, next));
    LinksBack(sim, cfg, num, j, q, lc, PutList(ix, q, lc, nbs, SetOf(nbs)), nbs, [], next, ix');
    assert nbs + [] == nbs;
    Then(sim, cfg, s, t, listed, LinkingBack(j, q, lc, nbs, next), s', LinkingBack(j, q, lc, [], next));
    assert C.NextLayer(s', LinkingBack(j, q, lc, [], next), s', AtLayer(j, q, next, lc - 1));
    ThenStep(sim, cfg, s, t, s', LinkingBack(j, q, lc, [], next), s', AtLayer(j, q, next, lc - 1));
  }

  lemma LinksLayer(sim: Similarity, cfg: Config, num: nat, j: C.Job, q: nat, ep: nat, lc: nat, ix: Index, ix': Index, next: nat)
    requires lc <= j.level && LinkLayer(sim, cfg, ix, j.vec, q, ep, lc, ix', next)
    ensures Solo(sim, cfg, C.Shared(num, ix), AtLayer(j, q, ep, lc), C.Shared(num, ix'), AtLayer(j, q, next, lc - 1))
  {
    hide Solo, Hit, Select, BackLinks, PutList;
    var out, nbs :|
      && Hit(sim, ix, j.vec, ep, Larger(cfg.efConstruction, cfg.M), lc, out)
      && Select(out, cfg.M, nbs)
      && BackLinks(sim, cfg, PutList(ix, q, lc, nbs, SetOf(nbs)), q, lc, nbs, ix')
      && next == Front(out, ep);
    Chooses(sim, cfg, num, j, q, ep, lc, ix, out, nbs);
    WritesAndLinks(sim, cfg, num, j, q, lc, ix, nbs, ix', next);
    Then(sim, cfg, C.Shared(num, ix), AtLayer(j, q, ep, lc), C.Shared(num, ix), HasChosen(j, q, lc, nbs, next),
         C.Shared(num, ix'), AtLayer(j, q, next, lc - 1));
  }

  lemma {:induction false} LinksLayers(sim: Similarity, cfg: Config, num: nat, j: C.Job, q: nat, ep: nat, hi: int, lo: int,
                                       ix: Index, ix': Index, next: nat)
    requires -1 <= lo <= hi <= j.level && LinkLayers(sim, cfg, ix, j.vec, q, ep, hi, lo, ix', next)
    ensures Solo(sim, cfg, C.Shared(num, ix), AtLayer(j, q, ep, hi), C.Shared(num, ix'), AtLayer(j, q, next, lo))
    decreases hi - lo
  {
    hide Solo, LinkLayer;
    if hi == lo {
      Rest(sim, cfg, C.Shared(num, ix), AtLayer(j, q, ep, hi));
    } else {
      var mid, at :|
        && LinkLayers(sim, cfg, ix, j.vec, q, ep, hi, Above(lo), mid, at)
        && LinkLayer(sim, cfg, mid, j.vec, q, at, Above(lo), ix', next);
      LinksLayers(sim, cfg, num, j, q, ep, hi, Above(lo), ix, mid, at);
      LinksLayer(sim, cfg, num, j, q, at, Above(lo), mid, ix', next);
      Then(sim, cfg, C.Shared(num, ix), AtLayer(j, q, ep, hi), C.Shared(num, mid), AtLayer(j, q, at, Above(lo)),
           C.Shared(num, ix'), AtLayer(j, q, next, lo));
    }
  }

  // ---------- a whole insertion ----------

  function Begun(j: C.Job): C.Thread {
    C.Thread(j, C.Waiting)
  }

  /** A thread alone can turn the index into any result the sequential insertion allows. */
  lemma Inserts(sim: Similarity, cfg: Config, base: Index, j: C.Job, t: Index)
    requires Insert(sim, cfg, base, j.id, j.vec, j.meta, j.level, t)
    ensures Solo(sim, cfg, C.Shared(|base.ids|, base), Begun(j), C.Shared(|base.ids| + 1, t), C.Thread(j, C.Done(|base.ids|)))
  {
    var q := |base.ids|;
    var slot := Append(base, j.id, j.vec, j.meta, j.level);
    hide Solo, Append, Descend, LinkLayers, Crown;
    Allocates(sim, cfg, base, j, slot);
    if q == 0 {
      assert t == slot;
    } else {
      Connects(sim, cfg, base, j, slot, t);
      Then(sim, cfg, C.Shared(q, base), Begun(j), C.Shared(q + 1, slot), C.Thread(j, C.Allocated(q)),
           C.Shared(q + 1, t), C.Thread(j, C.Done(q)));
    }
  }

  lemma Allocates(sim: Similarity, cfg: Config, base: Index, j: C.Job, slot: Index)
    requires slot == Append(base, j.id, j.vec, j.meta, j.level)
    ensures
      var q := |base.ids|;
      var given := C.Thread(j, if q == 0 then C.Done(0) else C.Allocated(q));
      Solo(sim, cfg, C.Shared(q, base), Begun(j), C.Shared(q + 1, slot), given)
  {
    hide Solo, Append;
    var q := |base.ids|;
    var given := C.Thread(j, if q == 0 then C.Done(0) else C.Allocated(q));
    Rest(sim, cfg, C.Shared(q, base), Begun(j));
    assert C.Allocate(C.Shared(q, base), Begun(j), C.Shared(q + 1, slot), given);
    ThenStep(sim, cfg, C.Shared(q, base), Begun(j), C.Shared(q, base), Begun(j), C.Shared(q + 1, slot), given);
  }

  lemma Connects(sim: Similarity, cfg: Config, base: Index, j: C.Job, slot: Index, t: Index)
    requires base.ids != [] && slot == Append(base, j.id, j.vec, j.meta, j.level)
    requires Insert(sim, cfg, base, j.id, j.vec, j.meta, j.level, t)
    ensures
      var q := |base.ids|;
      Solo(sim, cfg, C.Shared(q + 1, slot), C.Thread(j, C.Allocated(q)), C.Shared(q + 1, t), C.Thread(j, C.Done(q)))
  {
    hide Solo, Append, Descend, LinkLayers, Crown;
    var q := |base.ids|;
    var ep, linked, last :|
      && Descend(sim, slot, j.vec, slot.entry, slot.maxLayer, j.level, ep)
      && LinkLayers(sim, cfg, slot, j.vec, q, ep, Smaller(j.level, slot.maxLayer), -1, linked, last)
      && t == Crown(linked, q, j.level);
    ConnectsBy(sim, cfg, j, q, slot, ep, linked, last);
  }

  lemma ConnectsBy(sim: Similarity, cfg: Config, j: C.Job, q: nat, slot: Index, ep: nat, linked: Index, last: nat)
    requires Descend(sim, slot, j.vec, slot.entry, slot.maxLayer, j.level, ep)
    requires LinkLayers(sim, cfg, slot, j.vec, q, ep, Smaller(j.level, slot.maxLayer), -1, linked, last)
    ensures Solo(sim, cfg, C.Shared(q + 1, slot), C.Thread(j, C.Allocated(q)),
                 C.Shared(q + 1, Crown(linked, q, j.level)), C.Thread(j, C.Done(q)))
  {
    hide Solo, Descend, LinkLayers, Crown;
    var s, s' := C.Shared(q + 1, slot), C.Shared(q + 1, linked);
    var t, top := C.Thread(j, C.Allocated(q)), Smaller(j.level, slot.maxLayer);
    Rest(sim, cfg, s, t);
    assert C.ReadEntry(s, t, s, AtLayer(j, q, slot.entry, slot.maxLayer));
    ThenStep(sim, cfg, s, t, s, t, s, AtLayer(j, q, slot.entry, slot.maxLayer));
    Descends(sim, cfg, s, j, q, slot.entry, slot.maxLayer, j.level, ep);
    Then(sim, cfg, s, t, s, AtLayer(j, q, slot.entry, slot.maxLayer), s, AtLayer(j, q, ep, top));
    LinksLayers(sim, cfg, q + 1, j, q, ep, top, -1, slot, linked, last);
    Then(sim, cfg, s, t, s, AtLayer(j, q, ep, top), s', AtLayer(j, q, last, -1));
    assert C.Finish(s', AtLayer(j, q, last, -1), C.Shared(q + 1, Crown(linked, q, j.level)), C.Thread(j, C.Done(q)));
    ThenStep(sim, cfg, s, t, s', AtLayer(j, q, last, -1), C.Shared(q + 1, Crown(linked, q, j.level)), C.Thread(j, C.Done(q)));
  }

  // ---------- whole executions ----------

  ghost predicate ScheduledBy(sim: Similarity, cfg: Config, dim: nat, ops: seq<Op>, s: C.System, run: seq<C.System>,
                              actions: seq<C.Action>) {
    && C.Execution(sim, cfg, dim, run, actions) && Serialised(dim, run, actions)
    && run[|actions|] == s && History(run, actions, |actions|) == ops
  }

  /** Some execution without overlap reaches `s` and completes the operations `ops`, in this order. */
  ghost predicate Scheduled(sim: Similarity, cfg: Config, dim: nat, ops: seq<Op>, s: C.System) {
    exists run, actions :: ScheduledBy(sim, cfg, dim, ops, s, run, actions)
  }

  lemma {:induction false} HistoryOfPrefix(run: seq<C.System>, actions: seq<C.Action>, s: C.System, a: C.Action, n: nat)
    requires n <= |actions| && |run| == |actions| + 1
    ensures History(run + [s], actions + [a], n) == History(run, actions, n)
  {
    if n > 0 {
      HistoryOfPrefix(run, actions, s, a, n - 1);
      assert (actions + [a])[n - 1] == actions[n - 1] && (run + [s])[n] == run[n];
    }
  }

  lemma Extends(sim: Similarity, cfg: Config, dim: nat, ops: seq<Op>, s: C.System, a: C.Action, s': C.System)
    requires Scheduled(sim, cfg, dim, ops, s) && C.Next(sim, cfg, s, a, s') && Turnwise(dim, s, a)
    ensures Scheduled(sim, cfg, dim, ops + Completed(a, s'), s')
  {
    hide C.Next, Turnwise;
    var run, actions :| ScheduledBy(sim, cfg, dim, ops, s, run, actions);
    ExtendedBy(sim, cfg, dim, ops, s, a, s', run, actions);
  }

  lemma ExtendedBy(sim: Similarity, cfg: Config, dim: nat, ops: seq<Op>, s: C.System, a: C.Action, s': C.System,
                   run: seq<C.System>, actions: seq<C.Action>)
    requires ScheduledBy(sim, cfg, dim, ops, s, run, actions) && C.Next(sim, cfg, s, a, s') && Turnwise(dim, s, a)
    ensures ScheduledBy(sim, cfg, dim, ops + Completed(a, s'), s', run + [s'], actions + [a])
  {
    hide C.Next, Turnwise, Completed;
    var run', actions' := run + [s'], actions + [a];
    HistoryOfPrefix(run, actions, s', a, |actions|);
    forall n | 0 <= n < |actions'| ensures C.Next(sim, cfg, run'[n], actions'[n], run'[n + 1]) && Turnwise(dim, run'[n], actions'[n]) {
      if n < |actions| {
        assert C.Next(sim, cfg, run[n], actions[n], run[n + 1]) && Turnwise(dim, run[n], actions[n]);
      }
    }
  }

  /** What one thread can do alone, the system can do while no other is in flight. */
  lemma {:induction false} LetsRun(sim: Similarity, cfg: Config, dim: nat, ops: seq<Op>, s: C.System, i: nat, n: nat,
                                   sh: C.Shared, t: C.Thread)
    requires Scheduled(sim, cfg, dim, ops, s) && i < |s.threads| && !s.threads[i].pc.Done?
    requires forall j :: 0 <= j < |s.threads| && j != i ==> !C.InFlight(s.threads[j])
    requires Steps(sim, cfg, n, s.shared, s.threads[i], sh, t)
    ensures t.job == s.threads[i].job
    ensures Scheduled(sim, cfg, dim, ops + if t.pc.Done? then [InsertionOf(t.job)] else [], C.System(sh, s.threads[i := t]))
  {
    hide C.ThreadStep, Scheduled, InsertionOf;
    if n == 0 {
      assert s.threads[i := t] == s.threads && ops + [] == ops;
      assert C.System(sh, s.threads) == s;
    } else {
      var sm, tm :| Steps(sim, cfg, n - 1, s.shared, s.threads[i], sm, tm) && C.ThreadStep(sim, cfg, sm, tm, sh, t);
      LetsRun(sim, cfg, dim, ops, s, i, n - 1, sm, tm);
      SameJob(sim, cfg, sm, tm, sh, t);
      assert ops + [] == ops;
      OneAdvance(sim, cfg, dim, ops, C.System(sm, s.threads[i := tm]), i, sh, t);
      assert s.threads[i := tm][i := t] == s.threads[i := t];
    }
  }

  lemma OneAdvance(sim: Similarity, cfg: Config, dim: nat, ops: seq<Op>, s: C.System, i: nat, sh: C.Shared, t: C.Thread)
    requires Scheduled(sim, cfg, dim, ops, s) && i < |s.threads|
    requires forall j :: 0 <= j < |s.threads| && j != i ==> !C.InFlight(s.threads[j])
    requires C.ThreadStep(sim, cfg, s.shared, s.threads[i], sh, t)
    ensures Scheduled(sim, cfg, dim, ops + if t.pc.Done? then [InsertionOf(t.job)] else [], C.System(sh, s.threads[i := t]))
  {
    hide C.ThreadStep, Scheduled;
    Extends(sim, cfg, dim, ops, s, C.Advance(i), C.System(sh, s.threads[i := t]));
  }

  /** Spawn a thread for an insertion and let it run to its end. */
  lemma SchedulesInsert(sim: Similarity, cfg: Config, dim: nat, ops: seq<Op>, s: C.System, j: C.Job,
                        t: Index) returns (s': C.System)
    requires Scheduled(sim, cfg, dim, ops, s) && Quiet(s) && s.shared.num == |s.shared.ix.ids| && |j.vec| == dim
    requires Insert(sim, cfg, s.shared.ix, j.id, j.vec, j.meta, j.level, t)
    ensures Scheduled(sim, cfg, dim, ops + [InsertionOf(j)], s') && Quiet(s') && s'.shared == C.Shared(s.shared.num + 1, t)
  {
    var q, i := s.shared.num, |s.threads|;
    Inserts(sim, cfg, s.shared.ix, j, t);
    hide Scheduled, Insert, InsertionOf, Solo;
    var spawned := Spawns(sim, cfg, dim, ops, s, j);
    LetsFinish(sim, cfg, dim, ops, spawned, i, C.Shared(q + 1, t), C.Thread(j, C.Done(q)));
    s' := C.System(C.Shared(q + 1, t), spawned.threads[i := C.Thread(j, C.Done(q))]);
  }

  lemma Spawns(sim: Similarity, cfg: Config, dim: nat, ops: seq<Op>, s: C.System, j: C.Job) returns (s': C.System)
    requires Scheduled(sim, cfg, dim, ops, s) && Quiet(s) && |j.vec| == dim
    ensures s' == s.(threads := s.threads + [Begun(j)]) && Scheduled(sim, cfg, dim, ops, s')
  {
    hide Scheduled;
    s' := s.(threads := s.threads + [Begun(j)]);
    Extends(sim, cfg, dim, ops, s, C.Spawn(j), s');
    assert ops + [] == ops;
  }

  lemma LetsFinish(sim: Similarity, cfg: Config, dim: nat, ops: seq<Op>, s: C.System, i: nat, sh: C.Shared, t: C.Thread)
    requires Scheduled(sim, cfg, dim, ops, s) && i < |s.threads| && !s.threads[i].pc.Done? && t.pc.Done?
    requires forall j :: 0 <= j < |s.threads| && j != i ==> !C.InFlight(s.threads[j])
    requires Solo(sim, cfg, s.shared, s.threads[i], sh, t)
    ensures Scheduled(sim, cfg, dim, ops + [InsertionOf(t.job)], C.System(sh, s.threads[i := t]))
  {
    hide Scheduled, InsertionOf, Steps;
    var n: nat :| Steps(sim, cfg, n, s.shared, s.threads[i], sh, t);
    LetsRun(sim, cfg, dim, ops, s, i, n, sh, t);
  }

  /** Operations a caller of the vector overloads can get accepted. */
  predicate RightDims(dim: nat, ops: seq<Op>) {
    forall i :: 0 <= i < |ops| && ops[i].OpInsert? ==> |ops[i].vec| == dim
  }

  /** Every state that sequential operations produce is one that some execution without overlap leaves behind. */
  lemma {:induction false} RunIsScheduled(sim: Similarity, cfg: Config, dim: nat, ops: seq<Op>, t: Index) returns (s: C.System)
    requires cfg.M >= 1 && Run(sim, cfg, dim, ops, t) && RightDims(dim, ops)
    ensures Scheduled(sim, cfg, dim, ops, s) && Quiet(s) && s.shared == C.Shared(|t.ids|, t)
  {
    hide Scheduled;
    if ops == [] {
      s := NothingScheduled(sim, cfg, dim);
    } else {
      var last := |ops| - 1;
      assert ops[..last] + [ops[last]] == ops;
      hide Step;
      var base :| Run(sim, cfg, dim, ops[..last], base) && Step(sim, cfg, base, ops[last], t);
      HnswRuns.RunKeeps(sim, cfg, dim, ops[..last], base);
      var before := RunIsScheduled(sim, cfg, dim, ops[..last], base);
      s := SchedulesStep(sim, cfg, dim, ops[..last], before, base, ops[last], t);
    }
  }

  lemma NothingScheduled(sim: Similarity, cfg: Config, dim: nat) returns (s: C.System)
    ensures Scheduled(sim, cfg, dim, [], s) && Quiet(s) && s.shared == C.Shared(0, Empty(dim))
  {
    s := C.System(C.Shared(0, Empty(dim)), []);
    assert ScheduledBy(sim, cfg, dim, [], s, [s], []);
  }

  lemma SchedulesStep(sim: Similarity, cfg: Config, dim: nat, ops: seq<Op>, before: C.System, base: Index, op: Op,
                      t: Index) returns (s: C.System)
    requires Scheduled(sim, cfg, dim, ops, before) && Quiet(before) && before.shared == C.Shared(|base.ids|, base)
    requires cfg.M >= 1 && I.Inv(sim, cfg, base) && base.dim == dim && Step(sim, cfg, base, op, t) &&
             (op.OpInsert? ==> |op.vec| == dim)
    ensures Scheduled(sim, cfg, dim, ops + [op], s) && Quiet(s) && s.shared == C.Shared(|t.ids|, t)
  {
    hide Scheduled, Insert, I.Inv;
    match op
    case OpInsert(id, vec, meta, level) =>
      HnswRuns.InsertKeeps(sim, cfg, base, id, vec, meta, level, t);
      s := SchedulesInsert(sim, cfg, dim, ops, before, C.Job(id, vec, meta, level), t);
    case OpDelete(id) =>
      s := before.(shared := before.shared.(ix := t));
      Extends(sim, cfg, dim, ops, before, C.Remove(id), s);
  }
}
