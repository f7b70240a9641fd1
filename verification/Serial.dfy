/**
 The step system and the sequential index agree: where insertions do not overlap, every execution of
 module Concurrent is a run of module Hnsw, so the results about runs carry over.
 */
module Serial {
  import opened Bytes
  import opened Ranking
  import opened BeamSearch
  import opened Hnsw
  import HnswRuns
  import C = Concurrent

  // ---------- how far an undisturbed insertion has come ----------

  /** Before layer `at`, entering at `ep`: still descending through `slot`, or already linked above `at`. */
  ghost predicate LayersDone(sim: Similarity, cfg: Config, slot: Index, j: C.Job, q: nat, at: int, ep: nat, ix: Index) {
    && -1 <= at <= slot.maxLayer
    && if at > j.level then ix == slot && Descend(sim, slot, j.vec, slot.entry, slot.maxLayer, at, ep)
       else exists landed ::
         && Descend(sim, slot, j.vec, slot.entry, slot.maxLayer, j.level, landed)
         && LinkLayers(sim, cfg, slot, j.vec, q, landed, Smaller(j.level, slot.maxLayer), at, ix, ep)
  }

  /** In the middle of a layer search: looking at the pending links and then carrying on ends where the search ends. */
  ghost predicate Midway(sim: Similarity, ix: Index, vec: Vec, ep: nat, ef: int, lc: nat, beam: Beam, pending: seq<nat>) {
    && |ix.vecs| == |ix.graph| && LinksInRange(ix.graph, lc) && ep < |ix.graph|
    && (forall i :: 0 <= i < |pending| ==> pending[i] < |ix.vecs|)
    && var scores := ScoresTo(sim, ix.vecs, vec);
       Explore(ix.graph, lc, scores, ef, OfferAll(scores, ef, beam, pending)) == FinalBeam(ix.graph, lc, scores, ep, ef)
  }

  /** The neighbours chosen on a layer, and where the next layer starts. */
  ghost predicate Picked(sim: Similarity, cfg: Config, ix: Index, vec: Vec, ep: nat, lc: nat, nbs: seq<nat>, next: nat) {
    exists out ::
      && Hit(sim, ix, vec, ep, Larger(cfg.efConstruction, cfg.M), lc, out)
      && Select(out, cfg.M, nbs) && next == Front(out, ep)
  }

  /** The layer's list is written and the first `k` back-links are made. */
  ghost predicate LinkedTo(sim: Similarity, cfg: Config, before: Index, q: nat, lc: nat, nbs: seq<nat>, k: nat, ix: Index) {
    && HasLayer(before, q, lc) && k <= |nbs|
    && BackLinks(sim, cfg, PutList(before, q, lc, nbs, SetOf(nbs)), q, lc, nbs[..k], ix)
  }

  ghost predicate Choosing(sim: Similarity, cfg: Config, slot: Index, j: C.Job, q: nat, lc: nat, ep: nat,
                           nbs: seq<nat>, next: nat, ix: Index) {
    LayersDone(sim, cfg, slot, j, q, lc, ep, ix) && Picked(sim, cfg, ix, j.vec, ep, lc, nbs, next)
  }

  ghost predicate Linking(sim: Similarity, cfg: Config, slot: Index, j: C.Job, q: nat, lc: nat, rest: seq<nat>,
                          next: nat, ix: Index) {
    exists before, ep, nbs, k: nat ::
      && Choosing(sim, cfg, slot, j, q, lc, ep, nbs, next, before)
      && LinkedTo(sim, cfg, before, q, lc, nbs, k, ix) && rest == nbs[k..]
  }

  /** Thread `t`, working alone since the index was `base`, has turned it into `ix`. */
  ghost predicate Progress(sim: Similarity, cfg: Config, base: Index, t: C.Thread, ix: Index) {
    var j := t.job;
    var slot := Append(base, j.id, j.vec, j.meta, j.level);
    if t.pc.Waiting? then ix == base
    else
      && t.pc.q == |base.ids|
      && match t.pc
         case Allocated(q) => base.ids != [] && ix == slot
         case AtLayer(q, ep, at) => base.ids != [] && LayersDone(sim, cfg, slot, j, q, at, ep, ix)
         case InLayer(q, ep, lc, beam, pending) =>
           && base.ids != [] && LayersDone(sim, cfg, slot, j, q, lc, ep, ix)
           && Midway(sim, ix, j.vec, ep, C.BeamWidth(cfg, t, lc), lc, beam, pending)
         case Chosen(q, lc, nbs, next) =>
           base.ids != [] && lc <= j.level && exists ep :: Choosing(sim, cfg, slot, j, q, lc, ep, nbs, next, ix)
         case BackLinking(q, lc, rest, next) =>
           base.ids != [] && lc <= j.level && Linking(sim, cfg, slot, j, q, lc, rest, next, ix)
         case Done(q) => Insert(sim, cfg, base, j.id, j.vec, j.meta, j.level, ix)
  }

  // ---------- the layer search ----------

  lemma {:induction false} OfferFirst(scores: seq<real>, ef: int, b: Beam, nbs: seq<nat>)
    requires nbs != [] && forall i :: 0 <= i < |nbs| ==> nbs[i] < |scores|
    ensures OfferAll(scores, ef, b, nbs) == OfferAll(scores, ef, Offer(scores, ef, b, nbs[0]), nbs[1..])
  {
    hide Offer;
    var last := |nbs| - 1;
    if last == 0 {
      assert nbs[..0] == [] && nbs[1..] == [];
    } else {
      OfferFirst(scores, ef, b, nbs[..last]);
      assert nbs[..last][1..] == nbs[1..][..last - 1];
    }
  }

  /** In any reachable state a thread's search stays inside the graph. */
  lemma InRange(cfg: Config, s: C.Shared, lc: nat)
    requires C.SharedOk(cfg, s)
    ensures |s.ix.vecs| == |s.ix.graph| && LinksInRange(s.ix.graph, lc)
  {
    forall v, i | 0 <= v < |s.ix.graph| && 0 <= i < |Links(s.ix.graph, lc, v)| ensures Links(s.ix.graph, lc, v)[i] < |s.ix.graph| {
      assert C.Up(s.ix, v, lc) && C.ListFits(cfg, s.ix, v, lc);
    }
  }

  lemma ReadLinksMidway(sim: Similarity, ix: Index, vec: Vec, ep: nat, ef: int, lc: nat, b: Beam)
    requires Midway(sim, ix, vec, ep, ef, lc, b, []) && b.cands != [] && !Hopeless(ef, b, b.cands[0])
    requires forall i :: 0 <= i < |Links(ix.graph, lc, b.cands[0].node)| ==> Links(ix.graph, lc, b.cands[0].node)[i] < |ix.vecs|
    ensures Midway(sim, ix, vec, ep, ef, lc, Pop(b), Links(ix.graph, lc, b.cands[0].node))
  {
  }

  lemma OfferNextMidway(sim: Similarity, ix: Index, vec: Vec, ep: nat, ef: int, lc: nat, b: Beam, pending: seq<nat>)
    requires Midway(sim, ix, vec, ep, ef, lc, b, pending) && pending != []
    ensures Midway(sim, ix, vec, ep, ef, lc, Offer(ScoresTo(sim, ix.vecs, vec), ef, b, pending[0]), pending[1..])
  {
    OfferFirst(ScoresTo(sim, ix.vecs, vec), ef, b, pending);
  }

  /** When the loop ends, its result heap is the layer search's. */
  lemma SearchEnds(sim: Similarity, ix: Index, vec: Vec, ep: nat, ef: int, lc: nat, b: Beam, out: seq<Scored>)
    requires Midway(sim, ix, vec, ep, ef, lc, b, [])
    requires b.cands == [] || Hopeless(ef, b, b.cands[0])
    requires SortedCopy(out, b.results)
    ensures Hit(sim, ix, vec, ep, ef, lc, out)
  {
  }

  // ---------- one region at a time ----------

  lemma ReadEntryProgress(sim: Similarity, cfg: Config, base: Index, s: C.Shared, t: C.Thread, s': C.Shared, t': C.Thread)
    requires Progress(sim, cfg, base, t, s.ix) && C.ReadEntry(s, t, s', t')
    ensures Progress(sim, cfg, base, t', s'.ix)
  {
    var j := t.job;
    var slot := Append(base, j.id, j.vec, j.meta, j.level);
    if slot.maxLayer <= j.level {
      assert Descend(sim, slot, j.vec, slot.entry, slot.maxLayer, j.level, slot.entry);
      assert LinkLayers(sim, cfg, slot, j.vec, t.pc.q, slot.entry, Smaller(j.level, slot.maxLayer), slot.maxLayer, s.ix, slot.entry);
    }
  }

  /** A layer above the new node's level is done: one step further down. */
  lemma DescendProgress(sim: Similarity, cfg: Config, slot: Index, j: C.Job, q: nat, lc: nat, ep: nat, ix: Index,
                        out: seq<Scored>)
    requires LayersDone(sim, cfg, slot, j, q, lc, ep, ix) && lc > j.level
    requires Hit(sim, ix, j.vec, ep, 1, lc, out)
    ensures LayersDone(sim, cfg, slot, j, q, lc - 1, Front(out, ep), ix)
  {
    hide Hit;
    assert lc == Above(lc - 1);
    assert Descend(sim, slot, j.vec, slot.entry, slot.maxLayer, lc - 1, Front(out, ep));
    if lc - 1 == j.level {
      assert LinkLayers(sim, cfg, slot, j.vec, q, Front(out, ep), Smaller(j.level, slot.maxLayer), lc - 1, ix, Front(out, ep));
    }
  }

  /** A layer is linked: on to the next. */
  lemma LinkProgress(sim: Similarity, cfg: Config, slot: Index, j: C.Job, q: nat, lc: nat, next: nat, ix: Index)
    requires Linking(sim, cfg, slot, j, q, lc, [], next, ix) && lc <= j.level
    ensures LayersDone(sim, cfg, slot, j, q, lc - 1, next, ix)
  {
    hide LinkLayer, Picked, BackLinks, LayersDone;
    var before, ep, nbs, k: nat :|
      && Choosing(sim, cfg, slot, j, q, lc, ep, nbs, next, before)
      && LinkedTo(sim, cfg, before, q, lc, nbs, k, ix) && [] == nbs[k..];
    assert k == |nbs|;
    hide LinkedTo;
    LayerLinked(sim, cfg, before, j.vec, q, ep, lc, nbs, next, ix);
    OneMoreLayer(sim, cfg, slot, j, q, lc, ep, before, next, ix);
  }

  lemma OneMoreLayer(sim: Similarity, cfg: Config, slot: Index, j: C.Job, q: nat, lc: nat, ep: nat, before: Index,
                     next: nat, ix: Index)
    requires lc <= j.level && LayersDone(sim, cfg, slot, j, q, lc, ep, before)
    requires LinkLayer(sim, cfg, before, j.vec, q, ep, lc, ix, next)
    ensures LayersDone(sim, cfg, slot, j, q, lc - 1, next, ix)
  {
    hide LinkLayer, Descend;
    var landed :|
      && Descend(sim, slot, j.vec, slot.entry, slot.maxLayer, j.level, landed)
      && LinkLayers(sim, cfg, slot, j.vec, q, landed, Smaller(j.level, slot.maxLayer), lc, before, ep);
    assert lc == Above(lc - 1);
    assert LinkLayers(sim, cfg, slot, j.vec, q, landed, Smaller(j.level, slot.maxLayer), lc - 1, ix, next);
  }

  lemma LayerLinked(sim: Similarity, cfg: Config, before: Index, vec: Vec, q: nat, ep: nat, lc: nat, nbs: seq<nat>,
                    next: nat, ix: Index)
    requires Picked(sim, cfg, before, vec, ep, lc, nbs, next) && LinkedTo(sim, cfg, before, q, lc, nbs, |nbs|, ix)
    ensures LinkLayer(sim, cfg, before, vec, q, ep, lc, ix, next)
  {
    assert nbs[..|nbs|] == nbs;
  }

  lemma WriteListProgress(sim: Similarity, cfg: Config, base: Index, s: C.Shared, t: C.Thread, s': C.Shared, t': C.Thread)
    requires Progress(sim, cfg, base, t, s.ix) && C.WriteList(s, t, s', t')
    ensures Progress(sim, cfg, base, t', s'.ix)
  {
    var j := t.job;
    var slot := Append(base, j.id, j.vec, j.meta, j.level);
    hide LayersDone, Picked;
    var nbs := t.pc.nbs;
    var ep :| Choosing(sim, cfg, slot, j, t.pc.q, t.pc.lc, ep, nbs, t.pc.next, s.ix);
    assert nbs[..0] == [] && nbs[0..] == nbs;
    assert LinkedTo(sim, cfg, s.ix, t.pc.q, t.pc.lc, nbs, 0, s'.ix);
  }

  lemma LinkBackProgress(sim: Similarity, cfg: Config, base: Index, s: C.Shared, t: C.Thread, s': C.Shared, t': C.Thread)
    requires Progress(sim, cfg, base, t, s.ix) && C.LinkBack(sim, cfg, s, t, s', t')
    ensures Progress(sim, cfg, base, t', s'.ix)
  {
    var slot := Append(base, t.job.id, t.job.vec, t.job.meta, t.job.level);
    hide Linking, BackLink, Append;
    OneMoreLink(sim, cfg, slot, t.job, t.pc.q, t.pc.lc, t.pc.rest, t.pc.next, s.ix, s'.ix);
  }

  lemma OneMoreLink(sim: Similarity, cfg: Config, slot: Index, j: C.Job, q: nat, lc: nat, rest: seq<nat>, next: nat,
                    ix: Index, ix': Index)
    requires Linking(sim, cfg, slot, j, q, lc, rest, next, ix) && rest != []
    requires BackLink(sim, cfg, ix, q, lc, rest[0], ix')
    ensures Linking(sim, cfg, slot, j, q, lc, rest[1..], next, ix')
  {
    hide Choosing, BackLink, BackLinks;
    var before, ep, nbs, k: nat :|
      && Choosing(sim, cfg, slot, j, q, lc, ep, nbs, next, before)
      && LinkedTo(sim, cfg, before, q, lc, nbs, k, ix) && rest == nbs[k..];
    OneMoreLinked(sim, cfg, before, q, lc, nbs, k, ix, ix');
    assert rest[1..] == nbs[k + 1..];
  }

  lemma OneMoreLinked(sim: Similarity, cfg: Config, before: Index, q: nat, lc: nat, nbs: seq<nat>, k: nat, ix: Index, ix': Index)
    requires LinkedTo(sim, cfg, before, q, lc, nbs, k, ix) && k < |nbs|
    requires BackLink(sim, cfg, ix, q, lc, nbs[k], ix')
    ensures LinkedTo(sim, cfg, before, q, lc, nbs, k + 1, ix')
  {
    hide BackLink;
    assert nbs[..k + 1][..k] == nbs[..k] && nbs[..k + 1][k] == nbs[k];
  }

  lemma EndLayerProgress(sim: Similarity, cfg: Config, base: Index, s: C.Shared, t: C.Thread, s': C.Shared, t': C.Thread)
    requires Progress(sim, cfg, base, t, s.ix) && C.EndLayer(cfg, s, t, s', t')
    ensures Progress(sim, cfg, base, t', s'.ix)
  {
    hide Progress, Select;
    var out, nbs :|
      && SortedCopy(out, t.pc.beam.results) && Select(out, cfg.M, nbs)
      && t' == t.(pc :=
           if t.pc.lc > t.job.level then C.AtLayer(t.pc.q, Front(out, t.pc.ep), t.pc.lc - 1)
           else C.Chosen(t.pc.q, t.pc.lc, nbs, Front(out, t.pc.ep)));
    if t.pc.lc > t.job.level {
      MovedDown(sim, cfg, base, t, out, s.ix);
    } else {
      NeighboursChosen(sim, cfg, base, t, out, nbs, s.ix);
    }
  }

  lemma MovedDown(sim: Similarity, cfg: Config, base: Index, t: C.Thread, out: seq<Scored>, ix: Index)
    requires t.pc.InLayer? && t.pc.pending == [] && Progress(sim, cfg, base, t, ix) && t.pc.lc > t.job.level
    requires t.pc.beam.cands == [] || Hopeless(C.BeamWidth(cfg, t, t.pc.lc), t.pc.beam, t.pc.beam.cands[0])
    requires SortedCopy(out, t.pc.beam.results)
    ensures Progress(sim, cfg, base, t.(pc := C.AtLayer(t.pc.q, Front(out, t.pc.ep), t.pc.lc - 1)), ix)
  {
    hide Midway, LayersDone, Hit, Append;
    var slot := Append(base, t.job.id, t.job.vec, t.job.meta, t.job.level);
    SearchEnds(sim, ix, t.job.vec, t.pc.ep, 1, t.pc.lc, t.pc.beam, out);
    DescendProgress(sim, cfg, slot, t.job, t.pc.q, t.pc.lc, t.pc.ep, ix, out);
  }

  lemma NeighboursChosen(sim: Similarity, cfg: Config, base: Index, t: C.Thread, out: seq<Scored>, nbs: seq<nat>, ix: Index)
    requires t.pc.InLayer? && t.pc.pending == [] && Progress(sim, cfg, base, t, ix) && t.pc.lc <= t.job.level
    requires t.pc.beam.cands == [] || Hopeless(C.BeamWidth(cfg, t, t.pc.lc), t.pc.beam, t.pc.beam.cands[0])
    requires SortedCopy(out, t.pc.beam.results) && Select(out, cfg.M, nbs)
    ensures Progress(sim, cfg, base, t.(pc := C.Chosen(t.pc.q, t.pc.lc, nbs, Front(out, t.pc.ep))), ix)
  {
    hide Midway, LayersDone, Hit, Append, Select;
    var slot := Append(base, t.job.id, t.job.vec, t.job.meta, t.job.level);
    SearchEnds(sim, ix, t.job.vec, t.pc.ep, Larger(cfg.efConstruction, cfg.M), t.pc.lc, t.pc.beam, out);
    assert Choosing(sim, cfg, slot, t.job, t.pc.q, t.pc.lc, t.pc.ep, nbs, Front(out, t.pc.ep), ix);
  }

  lemma FinishProgress(sim: Similarity, cfg: Config, base: Index, s: C.Shared, t: C.Thread, s': C.Shared, t': C.Thread)
    requires Progress(sim, cfg, base, t, s.ix) && C.Finish(s, t, s', t')
    ensures Progress(sim, cfg, base, t', s'.ix)
  {
    var j := t.job;
    var slot := Append(base, j.id, j.vec, j.meta, j.level);
    hide Append, Crown, Descend, LinkLayers;
    var landed :|
      && Descend(sim, slot, j.vec, slot.entry, slot.maxLayer, j.level, landed)
      && LinkLayers(sim, cfg, slot, j.vec, t.pc.q, landed, Smaller(j.level, slot.maxLayer), -1, s.ix, t.pc.ep);
  }

  lemma BeginProgress(sim: Similarity, cfg: Config, base: Index, s: C.Shared, t: C.Thread, s': C.Shared, t': C.Thread)
    requires C.SharedOk(cfg, s) && C.ThreadOk(cfg, s.ix, t) && Progress(sim, cfg, base, t, s.ix)
    requires C.BeginLayer(sim, s, t, s', t')
    ensures Progress(sim, cfg, base, t', s'.ix)
  {
    InRange(cfg, s, t.pc.at);
    hide Append, LayersDone, C.SharedOk;
  }

  lemma StillMidway(sim: Similarity, cfg: Config, base: Index, t: C.Thread, beam: Beam, pending: seq<nat>, ix: Index)
    requires t.pc.InLayer? && Progress(sim, cfg, base, t, ix)
    ensures Midway(sim, ix, t.job.vec, t.pc.ep, C.BeamWidth(cfg, t, t.pc.lc), t.pc.lc, t.pc.beam, t.pc.pending)
    ensures
      Midway(sim, ix, t.job.vec, t.pc.ep, C.BeamWidth(cfg, t, t.pc.lc), t.pc.lc, beam, pending) ==>
        Progress(sim, cfg, base, t.(pc := t.pc.(beam := beam, pending := pending)), ix)
  {
    hide Append, LayersDone, Midway;
  }

  lemma ReadLinksProgress(sim: Similarity, cfg: Config, base: Index, s: C.Shared, t: C.Thread, s': C.Shared, t': C.Thread)
    requires C.SharedOk(cfg, s) && Progress(sim, cfg, base, t, s.ix) && C.ReadLinks(cfg, s, t, s', t')
    ensures Progress(sim, cfg, base, t', s'.ix)
  {
    hide Progress, Midway, Hopeless, C.SharedOk;
    var b, lc, node := t.pc.beam, t.pc.lc, t.pc.beam.cands[0].node;
    InRange(cfg, s, lc);
    StillMidway(sim, cfg, base, t, Pop(b), Links(s.ix.graph, lc, node), s.ix);
    LinksOfNode(s.ix, lc, node);
    ReadLinksMidway(sim, s.ix, t.job.vec, t.pc.ep, C.BeamWidth(cfg, t, lc), lc, b);
  }

  lemma LinksOfNode(ix: Index, lc: nat, v: nat)
    requires |ix.vecs| == |ix.graph| && LinksInRange(ix.graph, lc)
    ensures forall i :: 0 <= i < |Links(ix.graph, lc, v)| ==> Links(ix.graph, lc, v)[i] < |ix.vecs|
  {
  }

  lemma OfferNextProgress(sim: Similarity, cfg: Config, base: Index, s: C.Shared, t: C.Thread, s': C.Shared, t': C.Thread)
    requires Progress(sim, cfg, base, t, s.ix) && C.OfferNext(sim, cfg, s, t, s', t')
    ensures Progress(sim, cfg, base, t', s'.ix)
  {
    hide Progress, Midway;
    var b, lc, pending, ef := t.pc.beam, t.pc.lc, t.pc.pending, C.BeamWidth(cfg, t, t.pc.lc);
    StillMidway(sim, cfg, base, t, Offer(ScoresTo(sim, s.ix.vecs, t.job.vec), ef, b, pending[0]), pending[1..], s.ix);
    OfferNextMidway(sim, s.ix, t.job.vec, t.pc.ep, ef, lc, b, pending);
  }

  lemma NextLayerProgress(sim: Similarity, cfg: Config, base: Index, s: C.Shared, t: C.Thread, s': C.Shared, t': C.Thread)
    requires Progress(sim, cfg, base, t, s.ix) && C.NextLayer(s, t, s', t')
    ensures Progress(sim, cfg, base, t', s'.ix)
  {
    hide Append, LayersDone, Linking;
    LinkProgress(sim, cfg, Append(base, t.job.id, t.job.vec, t.job.meta, t.job.level), t.job, t.pc.q, t.pc.lc, t.pc.next, s.ix);
  }

  lemma AllocateProgress(sim: Similarity, cfg: Config, base: Index, s: C.Shared, t: C.Thread, s': C.Shared, t': C.Thread)
    requires C.SharedOk(cfg, s) && Progress(sim, cfg, base, t, s.ix) && C.Allocate(s, t, s', t')
    ensures Progress(sim, cfg, base, t', s'.ix)
  {
  }

  /** Every region of an undisturbed thread carries the insertion on. */
  lemma StepProgress(sim: Similarity, cfg: Config, base: Index, s: C.Shared, t: C.Thread, s': C.Shared, t': C.Thread)
    requires C.SharedOk(cfg, s) && C.ThreadOk(cfg, s.ix, t) && Progress(sim, cfg, base, t, s.ix)
    requires C.ThreadStep(sim, cfg, s, t, s', t')
    ensures Progress(sim, cfg, base, t', s'.ix)
  {
    hide Progress, C.SharedOk, C.ThreadOk;
    hide C.Allocate, C.ReadEntry, C.BeginLayer, C.ReadLinks, C.OfferNext, C.EndLayer, C.WriteList, C.LinkBack, C.NextLayer, C.Finish;
    if C.Allocate(s, t, s', t') {
      AllocateProgress(sim, cfg, base, s, t, s', t');
    } else if C.ReadEntry(s, t, s', t') {
      ReadEntryProgress(sim, cfg, base, s, t, s', t');
    } else if C.BeginLayer(sim, s, t, s', t') {
      BeginProgress(sim, cfg, base, s, t, s', t');
    } else if C.ReadLinks(cfg, s, t, s', t') {
      ReadLinksProgress(sim, cfg, base, s, t, s', t');
    } else if C.OfferNext(sim, cfg, s, t, s', t') {
      OfferNextProgress(sim, cfg, base, s, t, s', t');
    } else if C.EndLayer(cfg, s, t, s', t') {
      EndLayerProgress(sim, cfg, base, s, t, s', t');
    } else if C.WriteList(s, t, s', t') {
      WriteListProgress(sim, cfg, base, s, t, s', t');
    } else if C.LinkBack(sim, cfg, s, t, s', t') {
      LinkBackProgress(sim, cfg, base, s, t, s', t');
    } else if C.NextLayer(s, t, s', t') {
      NextLayerProgress(sim, cfg, base, s, t, s', t');
    } else {
      FinishProgress(sim, cfg, base, s, t, s', t');
    }
  }

  // ---------- whole executions ----------

  /**
   The action does not overlap an unfinished insertion: a thread moves only when no other one is in
   flight, and deletions wait.  Vectors have the index's dimension, as the caller checks first.
   */
  ghost predicate Turnwise(dim: nat, s: C.System, a: C.Action) {
    match a
    case Spawn(job) => |job.vec| == dim
    case Remove(id) => forall i :: 0 <= i < |s.threads| ==> !C.InFlight(s.threads[i])
    case Advance(i) => forall j :: 0 <= j < |s.threads| && j != i ==> !C.InFlight(s.threads[j])
  }

  ghost predicate Serialised(dim: nat, run: seq<C.System>, actions: seq<C.Action>) {
    |run| == |actions| + 1 && forall n :: 0 <= n < |actions| ==> Turnwise(dim, run[n], actions[n])
  }

  ghost predicate Quiet(s: C.System) {
    forall i :: 0 <= i < |s.threads| ==> !C.InFlight(s.threads[i])
  }

  /** The operations `ops` led to `base`, from where the one thread in flight, if any, has come. */
  ghost predicate Follows(sim: Similarity, cfg: Config, dim: nat, s: C.System, ops: seq<Op>, base: Index) {
    && Run(sim, cfg, dim, ops, base)
    && (forall i :: 0 <= i < |s.threads| ==> |s.threads[i].job.vec| == dim)
    && (forall i :: 0 <= i < |s.threads| && C.InFlight(s.threads[i]) ==> Progress(sim, cfg, base, s.threads[i], s.shared.ix))
    && (Quiet(s) ==> s.shared.ix == base)
  }

  /** The operation an action completes, if any. */
  function Completed(a: C.Action, s': C.System): seq<Op> {
    match a
    case Spawn(job) => []
    case Remove(id) => [OpDelete(id)]
    case Advance(i) =>
      if i < |s'.threads| && s'.threads[i].pc.Done? then [InsertionOf(s'.threads[i].job)] else []
  }

  function InsertionOf(j: C.Job): Op {
    OpInsert(j.id, j.vec, j.meta, j.level)
  }

  /** Deletions and finished insertions of the first `n` actions, in order. */
  function History(run: seq<C.System>, actions: seq<C.Action>, n: nat): seq<Op>
    requires n <= |actions| && |run| == |actions| + 1
  {
    if n == 0 then [] else History(run, actions, n - 1) + Completed(actions[n - 1], run[n])
  }

  lemma RunExtended(sim: Similarity, cfg: Config, dim: nat, ops: seq<Op>, s: Index, op: Op, t: Index)
    requires Run(sim, cfg, dim, ops, s) && Step(sim, cfg, s, op, t)
    ensures Run(sim, cfg, dim, ops + [op], t)
  {
    assert (ops + [op])[..|ops|] == ops;
  }

  /** The thread about to move has come from `base`, whether it is in flight or has yet to begin. */
  lemma MoverProgress(sim: Similarity, cfg: Config, dim: nat, s: C.System, ops: seq<Op>, base: Index, i: nat)
    requires Follows(sim, cfg, dim, s, ops, base) && i < |s.threads| && !s.threads[i].pc.Done?
    requires forall j :: 0 <= j < |s.threads| && j != i ==> !C.InFlight(s.threads[j])
    ensures Progress(sim, cfg, base, s.threads[i], s.shared.ix)
  {
    hide Run;
    if !C.InFlight(s.threads[i]) { assert Quiet(s); }
  }

  lemma AdvanceFollows(sim: Similarity, cfg: Config, dim: nat, s: C.System, i: nat, s': C.System, ops: seq<Op>, base: Index)
    returns (base': Index)
    requires cfg.M >= 1 && C.Inv(cfg, s) && Follows(sim, cfg, dim, s, ops, base)
    requires C.Next(sim, cfg, s, C.Advance(i), s') && Turnwise(dim, s, C.Advance(i))
    ensures Follows(sim, cfg, dim, s', ops + Completed(C.Advance(i), s'), base')
  {
    hide Run, Step, Progress, C.SharedOk, C.ThreadOk, C.SlotsOwned, C.ThreadStep;
    var t, t' := s.threads[i], s'.threads[i];
    assert C.ThreadOk(cfg, s.shared.ix, t);
    SameJob(sim, cfg, s.shared, t, s'.shared, t');
    MoverProgress(sim, cfg, dim, s, ops, base, i);
    StepProgress(sim, cfg, base, s.shared, t, s'.shared, t');
    base' := Credited(sim, cfg, dim, s, i, s', ops, base);
  }

  /** A finished insertion counts as one more operation. */
  lemma Credited(sim: Similarity, cfg: Config, dim: nat, s: C.System, i: nat, s': C.System, ops: seq<Op>, base: Index)
    returns (base': Index)
    requires cfg.M >= 1 && Follows(sim, cfg, dim, s, ops, base)
    requires i < |s.threads| == |s'.threads| && s'.threads == s.threads[i := s'.threads[i]]
    requires s'.threads[i].job == s.threads[i].job && !s'.threads[i].pc.Waiting?
    requires Progress(sim, cfg, base, s'.threads[i], s'.shared.ix) && Turnwise(dim, s, C.Advance(i))
    ensures Follows(sim, cfg, dim, s', ops + Completed(C.Advance(i), s'), base')
  {
    hide Run, Step, Progress;
    var t' := s'.threads[i];
    assert |t'.job.vec| == dim;
    if t'.pc.Done? {
      var op := InsertionOf(t'.job);
      base' := s'.shared.ix;
      InsertStep(sim, cfg, dim, ops, base, t', s'.shared.ix);
      RunExtended(sim, cfg, dim, ops, base, op, base');
    } else {
      base' := base;
      assert ops + [] == ops;
      assert C.InFlight(s'.threads[i]);
    }
  }

  lemma SameJob(sim: Similarity, cfg: Config, s: C.Shared, t: C.Thread, s': C.Shared, t': C.Thread)
    requires C.ThreadStep(sim, cfg, s, t, s', t')
    ensures t'.job == t.job && !t.pc.Done? && !t'.pc.Waiting?
  {
  }

  lemma InsertStep(sim: Similarity, cfg: Config, dim: nat, ops: seq<Op>, base: Index, t: C.Thread, ix: Index)
    requires cfg.M >= 1 && Run(sim, cfg, dim, ops, base) && |t.job.vec| == dim
    requires t.pc.Done? && Progress(sim, cfg, base, t, ix)
    ensures Step(sim, cfg, base, OpInsert(t.job.id, t.job.vec, t.job.meta, t.job.level), ix)
  {
    HnswRuns.RunKeeps(sim, cfg, dim, ops, base);
  }

  lemma NextFollows(sim: Similarity, cfg: Config, dim: nat, s: C.System, a: C.Action, s': C.System, ops: seq<Op>, base: Index)
    returns (base': Index)
    requires cfg.M >= 1 && C.Inv(cfg, s) && Follows(sim, cfg, dim, s, ops, base)
    requires C.Next(sim, cfg, s, a, s') && Turnwise(dim, s, a)
    ensures Follows(sim, cfg, dim, s', ops + Completed(a, s'), base')
  {
    hide Run, Progress, Step;
    match a
    case Spawn(job) =>
      base' := base;
      assert ops + [] == ops;
      assert Quiet(s') ==> Quiet(s) by {
        if Quiet(s') {
          forall i | 0 <= i < |s.threads| ensures !C.InFlight(s.threads[i]) { assert s.threads[i] == s'.threads[i]; }
        }
      }
    case Remove(id) =>
      base' := s'.shared.ix;
      assert Quiet(s);
      RemoveStep(sim, cfg, base, id);
      RunExtended(sim, cfg, dim, ops, base, OpDelete(id), base');
    case Advance(i) =>
      base' := AdvanceFollows(sim, cfg, dim, s, i, s', ops, base);
  }

  lemma RemoveStep(sim: Similarity, cfg: Config, base: Index, id: u64)
    ensures Step(sim, cfg, base, OpDelete(id), Delete(base, id))
  {
  }

  lemma NoOperations(sim: Similarity, cfg: Config, dim: nat)
    ensures Run(sim, cfg, dim, [], Empty(dim))
  {
  }

  lemma {:induction false} ExecutionFollows(sim: Similarity, cfg: Config, dim: nat, run: seq<C.System>,
                                            actions: seq<C.Action>, n: nat)
    returns (base: Index)
    requires cfg.M >= 1 && C.Execution(sim, cfg, dim, run, actions) && Serialised(dim, run, actions) && n < |run|
    ensures Follows(sim, cfg, dim, run[n], History(run, actions, n), base)
  {
    hide C.Next, Run;
    if n == 0 {
      base := Empty(dim);
      NoOperations(sim, cfg, dim);
    } else {
      var base0 := ExecutionFollows(sim, cfg, dim, run, actions, n - 1);
      C.ExecutionKeeps(sim, cfg, dim, run, actions, n - 1);
      hide C.Inv, Follows, Turnwise;
      assert Turnwise(dim, run[n - 1], actions[n - 1]);
      base := NextFollows(sim, cfg, dim, run[n - 1], actions[n - 1], run[n], History(run, actions, n - 1), base0);
    }
  }

  /**
   Where insertions do not overlap, the index between them is one that the deletions and finished
   insertions, applied one after another, produce.
   */
  lemma SerialisedIsRun(sim: Similarity, cfg: Config, dim: nat, run: seq<C.System>, actions: seq<C.Action>, n: nat)
    requires cfg.M >= 1 && C.Execution(sim, cfg, dim, run, actions) && Serialised(dim, run, actions)
    requires n < |run| && Quiet(run[n])
    ensures Run(sim, cfg, dim, History(run, actions, n), run[n].shared.ix)
  {
    var base := ExecutionFollows(sim, cfg, dim, run, actions, n);
  }
}
