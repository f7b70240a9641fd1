/**
 Concurrent insertions, one step per lock region.

 Any number of threads run `insert` on one shared index; between two regions of a thread any other
 thread may take any of its regions.  A running layer search keeps its heaps and visited set to
 itself and reads one link list or one vector per region.  Deletions are single regions.
 */
module Concurrent {
  import opened Bytes
  import opened Ranking
  import opened BeamSearch
  import opened Hnsw
  import opened HnswLists

  // ---------- states ----------

  /** The index and its atomic slot counter. */
  datatype Shared = Shared(num: nat, ix: Index)

  datatype Job = Job(id: u64, vec: Vec, meta: Data, level: nat)

  /** Where a thread stands between two lock regions. */
  datatype Pc =
    | Waiting
    | Allocated(q: nat)
    /** about to search layer `at`, entering at `ep`; `at == -1`: only the last region is left */
    | AtLayer(q: nat, ep: nat, at: int)
    /** searching layer `lc`; `pending` are links read but not yet looked at */
    | InLayer(q: nat, ep: nat, lc: nat, beam: Beam, pending: seq<nat>)
    | Chosen(q: nat, lc: nat, nbs: seq<nat>, next: nat)
    | BackLinking(q: nat, lc: nat, rest: seq<nat>, next: nat)
    | Done(q: nat)

  datatype Thread = Thread(job: Job, pc: Pc)

  datatype System = System(shared: Shared, threads: seq<Thread>)

  // ---------- steps ----------

  /** The layer is searched greedily above the new node's level, with the construction beam below. */
  function BeamWidth(cfg: Config, t: Thread, lc: int): int {
    if lc > t.job.level then 1 else Larger(cfg.efConstruction, cfg.M)
  }

  /** Slot allocation; the very first insertion is complete with it. */
  ghost predicate Allocate(s: Shared, t: Thread, s': Shared, t': Thread) {
    && t.pc.Waiting?
    && s' == Shared(s.num + 1, Append(s.ix, t.job.id, t.job.vec, t.job.meta, t.job.level))
    && t' == t.(pc := if s.num == 0 then Done(s.num) else Allocated(s.num))
  }

  ghost predicate ReadEntry(s: Shared, t: Thread, s': Shared, t': Thread) {
    && t.pc.Allocated?
    && s' == s && t' == t.(pc := AtLayer(t.pc.q, s.ix.entry, s.ix.maxLayer))
  }

  /** Read the entry's vector and start the heaps. */
  ghost predicate BeginLayer(sim: Similarity, s: Shared, t: Thread, s': Shared, t': Thread) {
    && t.pc.AtLayer? && t.pc.at >= 0 && t.pc.ep < |s.ix.vecs|
    && s' == s
    && t' == t.(pc := InLayer(t.pc.q, t.pc.ep, t.pc.at, StartAt(ScoresTo(sim, s.ix.vecs, t.job.vec), t.pc.ep), []))
  }

  /** Pop the best candidate and copy its link list. */
  ghost predicate ReadLinks(cfg: Config, s: Shared, t: Thread, s': Shared, t': Thread) {
    && t.pc.InLayer? && t.pc.pending == []
    && var b := t.pc.beam;
       && b.cands != [] && !Hopeless(BeamWidth(cfg, t, t.pc.lc), b, b.cands[0])
       && s' == s
       && t' == t.(pc := t.pc.(beam := Pop(b), pending := Links(s.ix.graph, t.pc.lc, b.cands[0].node)))
  }

  /** Look at one neighbour: read its vector unless it was visited. */
  ghost predicate OfferNext(sim: Similarity, cfg: Config, s: Shared, t: Thread, s': Shared, t': Thread) {
    && t.pc.InLayer? && t.pc.pending != [] && t.pc.pending[0] < |s.ix.vecs|
    && s' == s
    && t' == t.(pc := t.pc.(
         beam := Offer(ScoresTo(sim, s.ix.vecs, t.job.vec), BeamWidth(cfg, t, t.pc.lc), t.pc.beam, t.pc.pending[0]),
         pending := t.pc.pending[1..]))
  }

  /** The search loop ends: move down, or choose the neighbours. */
  ghost predicate EndLayer(cfg: Config, s: Shared, t: Thread, s': Shared, t': Thread) {
    && t.pc.InLayer? && t.pc.pending == []
    && var b := t.pc.beam;
       && (b.cands == [] || Hopeless(BeamWidth(cfg, t, t.pc.lc), b, b.cands[0]))
       && s' == s
       && exists out, nbs ::
            && SortedCopy(out, b.results) && Select(out, cfg.M, nbs)
            && t' == t.(pc :=
                 if t.pc.lc > t.job.level then AtLayer(t.pc.q, Front(out, t.pc.ep), t.pc.lc - 1)
                 else Chosen(t.pc.q, t.pc.lc, nbs, Front(out, t.pc.ep)))
  }

  ghost predicate WriteList(s: Shared, t: Thread, s': Shared, t': Thread) {
    && t.pc.Chosen? && HasLayer(s.ix, t.pc.q, t.pc.lc)
    && s' == s.(ix := PutList(s.ix, t.pc.q, t.pc.lc, t.pc.nbs, SetOf(t.pc.nbs)))
    && t' == t.(pc := BackLinking(t.pc.q, t.pc.lc, t.pc.nbs, t.pc.next))
  }

  ghost predicate LinkBack(sim: Similarity, cfg: Config, s: Shared, t: Thread, s': Shared, t': Thread) {
    && t.pc.BackLinking? && t.pc.rest != []
    && s' == s.(ix := s'.ix) && BackLink(sim, cfg, s.ix, t.pc.q, t.pc.lc, t.pc.rest[0], s'.ix)
    && t' == t.(pc := t.pc.(rest := t.pc.rest[1..]))
  }

  ghost predicate NextLayer(s: Shared, t: Thread, s': Shared, t': Thread) {
    && t.pc.BackLinking? && t.pc.rest == []
    && s' == s && t' == t.(pc := AtLayer(t.pc.q, t.pc.next, t.pc.lc - 1))
  }

  ghost predicate Finish(s: Shared, t: Thread, s': Shared, t': Thread) {
    && t.pc.AtLayer? && t.pc.at == -1
    && s' == s.(ix := Crown(s.ix, t.pc.q, t.job.level))
    && t' == t.(pc := Done(t.pc.q))
  }

  ghost predicate ThreadStep(sim: Similarity, cfg: Config, s: Shared, t: Thread, s': Shared, t': Thread) {
    || Allocate(s, t, s', t')
    || ReadEntry(s, t, s', t')
    || BeginLayer(sim, s, t, s', t')
    || ReadLinks(cfg, s, t, s', t')
    || OfferNext(sim, cfg, s, t, s', t')
    || EndLayer(cfg, s, t, s', t')
    || WriteList(s, t, s', t')
    || LinkBack(sim, cfg, s, t, s', t')
    || NextLayer(s, t, s', t')
    || Finish(s, t, s', t')
  }

  datatype Action = Spawn(job: Job) | Remove(id: u64) | Advance(i: nat)

  ghost predicate Next(sim: Similarity, cfg: Config, s: System, a: Action, s': System) {
    match a
    case Spawn(job) => s' == s.(threads := s.threads + [Thread(job, Waiting)])
    case Remove(id) => s' == s.(shared := s.shared.(ix := Delete(s.shared.ix, id)))
    case Advance(i) =>
      && i < |s.threads| == |s'.threads|
      && s'.threads == s.threads[i := s'.threads[i]]
      && ThreadStep(sim, cfg, s.shared, s.threads[i], s'.shared, s'.threads[i])
  }

  ghost predicate Start(dim: nat, s: System) {
    s == System(Shared(0, Empty(dim)), [])
  }

  /** A finite interleaving from the empty index. */
  ghost predicate Execution(sim: Similarity, cfg: Config, dim: nat, run: seq<System>, actions: seq<Action>) {
    && |run| == |actions| + 1 && Start(dim, run[0])
    && forall i :: 0 <= i < |actions| ==> Next(sim, cfg, run[i], actions[i], run[i + 1])
  }

  // ---------- the invariant ----------

  /** The node exists and reaches up to the layer. */
  ghost predicate Up(ix: Index, v: nat, layer: int) {
    v < |ix.graph| && layer < |ix.graph[v]|
  }

  ghost predicate AllUp(ix: Index, vs: seq<nat>, layer: int) {
    forall i :: 0 <= i < |vs| ==> Up(ix, vs[i], layer)
  }

  ghost predicate Arrays(s: Shared) {
    && s.num == |s.ix.vecs| == |s.ix.ids| == |s.ix.metas| == |s.ix.tomb| == |s.ix.graph| == |s.ix.offered|
    && forall v :: 0 <= v < s.num ==> |s.ix.graph[v]| == |s.ix.offered[v]| > 0
  }

  /** Every link leads to an existing node of the same layer, and the list respects its cap. */
  ghost predicate ListFits(cfg: Config, ix: Index, v: nat, layer: nat)
    requires Up(ix, v, layer)
  {
    AllUp(ix, ix.graph[v][layer], layer) && |ix.graph[v][layer]| <= Mmax(cfg, layer)
  }

  ghost predicate LinksOk(cfg: Config, ix: Index) {
    forall v: nat, layer: nat :: Up(ix, v, layer) ==> ListFits(cfg, ix, v, layer)
  }

  ghost predicate EntryTop(s: Shared) {
    if s.num == 0 then s.ix.maxLayer == 0 else Up(s.ix, s.ix.entry, s.ix.maxLayer) && |s.ix.graph[s.ix.entry]| == s.ix.maxLayer + 1
  }

  ghost predicate SharedOk(cfg: Config, s: Shared) {
    Arrays(s) && LinksOk(cfg, s.ix) && EntryTop(s)
  }

  function SlotOf(t: Thread): int {
    if t.pc.Waiting? then -1 else t.pc.q
  }

  /** The thread's slot holds its own data and has exactly the drawn number of layers. */
  ghost predicate OwnSlot(ix: Index, t: Thread, q: nat) {
    && q < |ix.graph| && |ix.graph[q]| == t.job.level + 1
    && q < |ix.vecs| && ix.vecs[q] == t.job.vec
    && q < |ix.ids| && ix.ids[q] == t.job.id
    && q < |ix.metas| && ix.metas[q] == t.job.meta
  }

  ghost predicate BeamUp(ix: Index, b: Beam, layer: nat) {
    AllUp(ix, Nodes(b.cands), layer) && AllUp(ix, Nodes(b.results), layer)
  }

  /** Everything a thread still intends to touch exists and reaches up to the layer it works on. */
  ghost predicate ThreadOk(cfg: Config, ix: Index, t: Thread) {
    match t.pc
    case Waiting => true
    case Allocated(q) => OwnSlot(ix, t, q)
    case AtLayer(q, ep, lc) => OwnSlot(ix, t, q) && lc >= -1 && (lc >= 0 ==> Up(ix, ep, lc))
    case InLayer(q, ep, lc, b, pending) => OwnSlot(ix, t, q) && Up(ix, ep, lc) && BeamUp(ix, b, lc) && AllUp(ix, pending, lc)
    case Chosen(q, lc, nbs, next) =>
      OwnSlot(ix, t, q) && lc <= t.job.level && AllUp(ix, nbs, lc) && |nbs| <= Larger(cfg.M, 0) && Up(ix, next, lc)
    case BackLinking(q, lc, rest, next) => OwnSlot(ix, t, q) && lc <= t.job.level && AllUp(ix, rest, lc) && Up(ix, next, lc)
    case Done(q) => OwnSlot(ix, t, q) && t.job.level <= ix.maxLayer
  }

  ghost predicate Owned(threads: seq<Thread>, v: nat) {
    exists i :: 0 <= i < |threads| && SlotOf(threads[i]) == v
  }

  /** Slots and threads that allocated one correspond one to one. */
  ghost predicate SlotsOwned(s: System) {
    && (forall v: nat :: v < s.shared.num ==> Owned(s.threads, v))
    && (forall i, j :: 0 <= i < j < |s.threads| && SlotOf(s.threads[i]) >= 0 ==> SlotOf(s.threads[i]) != SlotOf(s.threads[j]))
  }

  ghost predicate Inv(cfg: Config, s: System) {
    && SharedOk(cfg, s.shared)
    && (forall i :: 0 <= i < |s.threads| ==> ThreadOk(cfg, s.shared.ix, s.threads[i]))
    && SlotsOwned(s)
  }

  /** What one region may do to the shared state as far as other threads can tell. */
  ghost predicate Grows(ix: Index, ix': Index) {
    && ix.vecs <= ix'.vecs && ix.ids <= ix'.ids && ix.metas <= ix'.metas
    && |ix.graph| <= |ix'.graph| && (forall v :: 0 <= v < |ix.graph| ==> |ix'.graph[v]| == |ix.graph[v]|)
    && |ix.tomb| <= |ix'.tomb| && (forall v :: 0 <= v < |ix.tomb| && ix.tomb[v] ==> ix'.tomb[v])
    && ix.maxLayer <= ix'.maxLayer
  }

  /** Interference freedom: a region of one thread never invalidates what another thread holds. */
  lemma NoInterference(cfg: Config, ix: Index, ix': Index, t: Thread)
    requires ThreadOk(cfg, ix, t) && Grows(ix, ix')
    ensures ThreadOk(cfg, ix', t)
  {
  }

  // ---------- each region keeps the invariant ----------

  /** A step of one thread: the shared state stays in order and only grows, and the thread's own slot is stable. */
  ghost predicate Kept(cfg: Config, s: Shared, t: Thread, s': Shared, t': Thread) {
    && SharedOk(cfg, s') && ThreadOk(cfg, s'.ix, t') && Grows(s.ix, s'.ix)
    && t'.job == t.job
    && (if t.pc.Waiting? then s'.num == s.num + 1 && SlotOf(t') == s.num else s'.num == s.num && SlotOf(t') == SlotOf(t))
  }

  lemma AllocateKeeps(cfg: Config, s: Shared, t: Thread, s': Shared, t': Thread)
    requires cfg.M >= 1 && SharedOk(cfg, s) && Allocate(s, t, s', t')
    ensures Kept(cfg, s, t, s', t')
  {
    forall v: nat, layer: nat | Up(s'.ix, v, layer) ensures ListFits(cfg, s'.ix, v, layer) {
      if v < s.num {
        assert s'.ix.graph[v] == s.ix.graph[v];
        assert Up(s.ix, v, layer) && ListFits(cfg, s.ix, v, layer);
      }
    }
  }

  lemma ListUp(cfg: Config, ix: Index, layer: nat, v: nat)
    requires LinksOk(cfg, ix)
    ensures AllUp(ix, Links(ix.graph, layer, v), layer)
  {
    if Up(ix, v, layer) { assert ListFits(cfg, ix, v, layer); }
  }

  lemma ReadLinksKeeps(cfg: Config, s: Shared, t: Thread, s': Shared, t': Thread)
    requires SharedOk(cfg, s) && ThreadOk(cfg, s.ix, t) && ReadLinks(cfg, s, t, s', t')
    ensures Kept(cfg, s, t, s', t')
    ensures t.pc.beam.cands[0].node < |s.ix.graph|
  {
    var b := t.pc.beam;
    ListUp(cfg, s.ix, t.pc.lc, b.cands[0].node);
    assert Nodes(Pop(b).cands) == Nodes(b.cands)[1..];
    assert Nodes(b.cands)[0] == b.cands[0].node;
  }

  lemma {:induction false} EnqueueUp(ix: Index, q: seq<Scored>, e: Scored, layer: nat)
    requires AllUp(ix, Nodes(q), layer) && Up(ix, e.node, layer)
    ensures AllUp(ix, Nodes(Enqueue(q, e)), layer)
  {
    var r := Enqueue(q, e);
    forall i | 0 <= i < |Nodes(r)| ensures Up(ix, Nodes(r)[i], layer) {
      assert r[i] in r;
      if r[i] != e {
        var j :| 0 <= j < |q| && q[j] == r[i];
        assert Nodes(q)[j] == r[i].node;
      }
    }
  }

  lemma OfferNextKeeps(sim: Similarity, cfg: Config, s: Shared, t: Thread, s': Shared, t': Thread)
    requires SharedOk(cfg, s) && ThreadOk(cfg, s.ix, t) && OfferNext(sim, cfg, s, t, s', t')
    ensures Kept(cfg, s, t, s', t')
  {
    var v, b := t.pc.pending[0], t.pc.beam;
    var scores := ScoresTo(sim, s.ix.vecs, t.job.vec);
    assert Up(s.ix, v, t.pc.lc);
    EnqueueUp(s.ix, b.cands, Scored(scores[v], v), t.pc.lc);
    EnqueueUp(s.ix, b.results, Scored(scores[v], v), t.pc.lc);
    var grown := Enqueue(b.results, Scored(scores[v], v));
    assert Nodes(grown[..|grown| - 1]) == Nodes(grown)[..|grown| - 1];
    assert AllUp(s.ix, t.pc.pending[1..], t.pc.lc);
  }

  lemma SortedUp(ix: Index, out: seq<Scored>, results: seq<Scored>, layer: nat)
    requires SortedCopy(out, results) && AllUp(ix, Nodes(results), layer)
    ensures AllUp(ix, Nodes(out), layer)
  {
    SortedCopyElements(out, results);
    forall i | 0 <= i < |out| ensures Up(ix, Nodes(out)[i], layer) {
      assert out[i] in results;
      var j :| 0 <= j < |results| && results[j] == out[i];
      assert Nodes(results)[j] == out[i].node;
    }
  }

  lemma SelectUp(ix: Index, cands: seq<Scored>, m: int, picked: seq<nat>, layer: nat)
    requires Select(cands, m, picked) && AllUp(ix, Nodes(cands), layer)
    ensures AllUp(ix, picked, layer) && |picked| <= Larger(m, 0)
  {
    var sorted: seq<Scored> :| SortedCopy(sorted, cands) && picked == Nodes(TakeUpTo(sorted, Larger(m, 0)));
    SortedUp(ix, sorted, cands, layer);
    forall i | 0 <= i < |picked| ensures Up(ix, picked[i], layer) { assert picked[i] == Nodes(sorted)[i]; }
  }

  lemma EndLayerKeeps(cfg: Config, s: Shared, t: Thread, s': Shared, t': Thread)
    requires SharedOk(cfg, s) && ThreadOk(cfg, s.ix, t) && EndLayer(cfg, s, t, s', t')
    ensures Kept(cfg, s, t, s', t')
  {
    hide SharedOk, AllUp, Select, SortedCopy;
    var out: seq<Scored>, nbs: seq<nat> :|
      && SortedCopy(out, t.pc.beam.results) && Select(out, cfg.M, nbs)
      && t' == t.(pc :=
           if t.pc.lc > t.job.level then AtLayer(t.pc.q, Front(out, t.pc.ep), t.pc.lc - 1)
           else Chosen(t.pc.q, t.pc.lc, nbs, Front(out, t.pc.ep)));
    FoundUp(cfg, s.ix, t.pc.beam.results, t.pc.ep, t.pc.lc, out, nbs);
  }

  lemma FoundUp(cfg: Config, ix: Index, results: seq<Scored>, ep: nat, lc: nat, out: seq<Scored>, nbs: seq<nat>)
    requires AllUp(ix, Nodes(results), lc) && Up(ix, ep, lc)
    requires SortedCopy(out, results) && Select(out, cfg.M, nbs)
    ensures Up(ix, Front(out, ep), lc) && AllUp(ix, nbs, lc) && |nbs| <= Larger(cfg.M, 0)
  {
    SortedUp(ix, out, results, lc);
    SelectUp(ix, out, cfg.M, nbs, lc);
    if out != [] { assert Nodes(out)[0] == out[0].node; }
  }

  /** Replacing one list by a legal one keeps all links legal. */
  lemma PutListKeeps(cfg: Config, s: Shared, v: nat, layer: nat, list: seq<nat>, pool: set<nat>)
    requires SharedOk(cfg, s) && HasLayer(s.ix, v, layer)
    requires AllUp(s.ix, list, layer) && |list| <= Mmax(cfg, layer)
    ensures
      var s' := s.(ix := PutList(s.ix, v, layer, list, pool));
      SharedOk(cfg, s') && Grows(s.ix, s'.ix)
  {
    var s' := s.(ix := PutList(s.ix, v, layer, list, pool));
    forall w: nat, l: nat | Up(s'.ix, w, l) ensures ListFits(cfg, s'.ix, w, l) {
      if w == v && l == layer {
        assert s'.ix.graph[w][l] == list;
      } else {
        assert s'.ix.graph[w][l] == s.ix.graph[w][l];
        assert Up(s.ix, w, l) && ListFits(cfg, s.ix, w, l);
      }
    }
  }

  lemma WriteListKeeps(cfg: Config, s: Shared, t: Thread, s': Shared, t': Thread)
    requires cfg.M >= 1 && SharedOk(cfg, s) && ThreadOk(cfg, s.ix, t) && WriteList(s, t, s', t')
    ensures Kept(cfg, s, t, s', t')
  {
    PutListKeeps(cfg, s, t.pc.q, t.pc.lc, t.pc.nbs, SetOf(t.pc.nbs));
  }

  lemma PrunedUp(sim: Similarity, ix: Index, owner: nat, cap: int, pushed: seq<nat>, list: seq<nat>, layer: nat)
    requires cap >= 0 && AllUp(ix, pushed, layer) && Pruned(sim, ix.vecs, owner, cap, pushed, list)
    ensures AllUp(ix, list, layer) && |list| <= cap
  {
    if |pushed| > cap {
      var rated := Rated(sim, ix.vecs, owner, pushed);
      assert Nodes(rated) == pushed;
      SelectUp(ix, rated, cap, list, layer);
    }
  }

  /** A back-link never needs the resize, and pruning keeps the list within its cap. */
  lemma BackLinkFits(sim: Similarity, cfg: Config, s: Shared, q: nat, lc: nat, nb: nat, ix': Index)
    requires cfg.M >= 1 && SharedOk(cfg, s) && Up(s.ix, nb, lc) && Up(s.ix, q, lc)
    requires BackLink(sim, cfg, s.ix, q, lc, nb, ix')
    ensures Raise(s.ix, nb, lc) == s.ix && LinkedBack(cfg, s.ix, q, lc, nb, ix')
    ensures SharedOk(cfg, s.(ix := ix')) && Grows(s.ix, ix')
  {
    BackLinkList(sim, cfg, s.ix, q, lc, nb, ix');
    hide LinkedBack;
    assert HasLayer(s.ix, nb, lc);
    var list :|
      && Pruned(sim, s.ix.vecs, nb, Mmax(cfg, lc), s.ix.graph[nb][lc] + [q], list)
      && ix' == PutList(s.ix, nb, lc, list, {q});
    assert ListFits(cfg, s.ix, nb, lc);
    PrunedUp(sim, s.ix, nb, Mmax(cfg, lc), s.ix.graph[nb][lc] + [q], list, lc);
    PutListKeeps(cfg, s, nb, lc, list, {q});
  }

  lemma LinkBackKeeps(sim: Similarity, cfg: Config, s: Shared, t: Thread, s': Shared, t': Thread)
    requires cfg.M >= 1 && SharedOk(cfg, s) && ThreadOk(cfg, s.ix, t) && LinkBack(sim, cfg, s, t, s', t')
    ensures Kept(cfg, s, t, s', t')
    ensures t.pc.rest[0] < |s.ix.graph| && t.pc.lc < |s.ix.graph[t.pc.rest[0]]|
  {
    hide BackLink, SharedOk;
    assert Up(s.ix, t.pc.rest[0], t.pc.lc);
    BackLinkFits(sim, cfg, s, t.pc.q, t.pc.lc, t.pc.rest[0], s'.ix);
    NoInterference(cfg, s.ix, s'.ix, t);
    assert AllUp(s'.ix, t.pc.rest[1..], t.pc.lc);
  }

  lemma FinishKeeps(cfg: Config, s: Shared, t: Thread, s': Shared, t': Thread)
    requires SharedOk(cfg, s) && ThreadOk(cfg, s.ix, t) && Finish(s, t, s', t')
    ensures Kept(cfg, s, t, s', t')
  {
    forall v: nat, layer: nat | Up(s'.ix, v, layer) ensures ListFits(cfg, s'.ix, v, layer) {
      assert Up(s.ix, v, layer) && ListFits(cfg, s.ix, v, layer);
    }
  }

  lemma ThreadStepKeeps(sim: Similarity, cfg: Config, s: Shared, t: Thread, s': Shared, t': Thread)
    requires cfg.M >= 1 && SharedOk(cfg, s) && ThreadOk(cfg, s.ix, t) && ThreadStep(sim, cfg, s, t, s', t')
    ensures Kept(cfg, s, t, s', t')
  {
    if Allocate(s, t, s', t') { AllocateKeeps(cfg, s, t, s', t'); }
    else if ReadLinks(cfg, s, t, s', t') { ReadLinksKeeps(cfg, s, t, s', t'); }
    else if OfferNext(sim, cfg, s, t, s', t') { OfferNextKeeps(sim, cfg, s, t, s', t'); }
    else if EndLayer(cfg, s, t, s', t') { EndLayerKeeps(cfg, s, t, s', t'); }
    else if WriteList(s, t, s', t') { WriteListKeeps(cfg, s, t, s', t'); }
    else if LinkBack(sim, cfg, s, t, s', t') { LinkBackKeeps(sim, cfg, s, t, s', t'); }
    else if Finish(s, t, s', t') { FinishKeeps(cfg, s, t, s', t'); }
  }

  // ---------- executions ----------

  lemma AdvanceKeeps(sim: Similarity, cfg: Config, s: System, i: nat, s': System)
    requires cfg.M >= 1 && Inv(cfg, s) && Next(sim, cfg, s, Advance(i), s')
    ensures Inv(cfg, s') && Grows(s.shared.ix, s'.shared.ix)
  {
    hide SharedOk, ThreadStep, Grows;
    ThreadStepKeeps(sim, cfg, s.shared, s.threads[i], s'.shared, s'.threads[i]);
    SlotsInRange(cfg, s);
    forall j | 0 <= j < |s'.threads| ensures ThreadOk(cfg, s'.shared.ix, s'.threads[j]) {
      if j != i {
        assert s'.threads[j] == s.threads[j];
        NoInterference(cfg, s.shared.ix, s'.shared.ix, s.threads[j]);
      }
    }
    AdvanceOwns(cfg, s, i, s');
  }

  lemma SlotsInRange(cfg: Config, s: System)
    requires Inv(cfg, s)
    ensures forall j :: 0 <= j < |s.threads| && s.threads[j].pc != Waiting ==> 0 <= SlotOf(s.threads[j]) < s.shared.num
  {
    forall j | 0 <= j < |s.threads| && s.threads[j].pc != Waiting ensures 0 <= SlotOf(s.threads[j]) < s.shared.num {
      assert ThreadOk(cfg, s.shared.ix, s.threads[j]);
    }
  }

  lemma AdvanceOwns(cfg: Config, s: System, i: nat, s': System)
    requires SlotsOwned(s) && i < |s.threads| == |s'.threads|
    requires forall j :: 0 <= j < |s.threads| && s.threads[j].pc != Waiting ==> 0 <= SlotOf(s.threads[j]) < s.shared.num
    requires s'.threads == s.threads[i := s'.threads[i]]
    requires Kept(cfg, s.shared, s.threads[i], s'.shared, s'.threads[i])
    ensures SlotsOwned(s')
  {
    forall v: nat | v < s'.shared.num ensures Owned(s'.threads, v) {
      if v == s.shared.num {
        assert SlotOf(s'.threads[i]) == v;
      } else {
        assert Owned(s.threads, v);
        var j :| 0 <= j < |s.threads| && SlotOf(s.threads[j]) == v;
        assert SlotOf(s'.threads[j]) == v;
      }
    }
    forall j, k | 0 <= j < k < |s'.threads| && SlotOf(s'.threads[j]) >= 0
      ensures SlotOf(s'.threads[j]) != SlotOf(s'.threads[k])
    {
      assert j != i ==> s'.threads[j] == s.threads[j];
      assert k != i ==> s'.threads[k] == s.threads[k];
    }
  }

  lemma RemoveKeeps(cfg: Config, s: System, id: u64)
    requires Inv(cfg, s)
    ensures
      var s' := s.(shared := s.shared.(ix := Delete(s.shared.ix, id)));
      Inv(cfg, s') && Grows(s.shared.ix, s'.shared.ix)
  {
    var s' := s.(shared := s.shared.(ix := Delete(s.shared.ix, id)));
    forall v: nat, layer: nat | Up(s'.shared.ix, v, layer) ensures ListFits(cfg, s'.shared.ix, v, layer) {
      assert Up(s.shared.ix, v, layer) && ListFits(cfg, s.shared.ix, v, layer);
    }
    forall j | 0 <= j < |s'.threads| ensures ThreadOk(cfg, s'.shared.ix, s'.threads[j]) {
      NoInterference(cfg, s.shared.ix, s'.shared.ix, s.threads[j]);
    }
  }

  lemma SpawnKeeps(cfg: Config, s: System, job: Job)
    requires Inv(cfg, s)
    ensures Inv(cfg, s.(threads := s.threads + [Thread(job, Waiting)]))
  {
    var s' := s.(threads := s.threads + [Thread(job, Waiting)]);
    forall v: nat | v < s'.shared.num ensures Owned(s'.threads, v) {
      assert Owned(s.threads, v);
      var j :| 0 <= j < |s.threads| && SlotOf(s.threads[j]) == v;
      assert s'.threads[j] == s.threads[j];
    }
  }

  lemma NextKeeps(sim: Similarity, cfg: Config, s: System, a: Action, s': System)
    requires cfg.M >= 1 && Inv(cfg, s) && Next(sim, cfg, s, a, s')
    ensures Inv(cfg, s') && Grows(s.shared.ix, s'.shared.ix)
  {
    match a
    case Spawn(job) => SpawnKeeps(cfg, s, job);
    case Remove(id) => RemoveKeeps(cfg, s, id);
    case Advance(i) => AdvanceKeeps(sim, cfg, s, i, s');
  }

  /** Every state of every interleaving satisfies the invariant. */
  lemma {:induction false} ExecutionKeeps(sim: Similarity, cfg: Config, dim: nat, run: seq<System>, actions: seq<Action>, n: nat)
    requires cfg.M >= 1 && Execution(sim, cfg, dim, run, actions) && n < |run|
    ensures Inv(cfg, run[n])
  {
    if n > 0 {
      ExecutionKeeps(sim, cfg, dim, run, actions, n - 1);
      NextKeeps(sim, cfg, run[n - 1], actions[n - 1], run[n]);
    }
  }

  lemma GrowsOn(a: Index, b: Index, c: Index)
    requires Grows(a, b) && Grows(b, c)
    ensures Grows(a, c)
  {
  }

  /** Whatever the interleaving, later states only extend earlier ones: no slot's data, height or tombstone is ever lost. */
  lemma {:induction false} NothingLost(sim: Similarity, cfg: Config, dim: nat, run: seq<System>,
                                       actions: seq<Action>, m: nat, n: nat)
    requires cfg.M >= 1 && Execution(sim, cfg, dim, run, actions) && m <= n < |run|
    ensures Grows(run[m].shared.ix, run[n].shared.ix)
    decreases n - m
  {
    hide Inv, Next;
    if m < n {
      NothingLost(sim, cfg, dim, run, actions, m, n - 1);
      ExecutionKeeps(sim, cfg, dim, run, actions, n - 1);
      NextKeeps(sim, cfg, run[n - 1], actions[n - 1], run[n]);
      assert Next(sim, cfg, run[n - 1], actions[n - 1], run[n - 1 + 1]);
      GrowsOn(run[m].shared.ix, run[n - 1].shared.ix, run[n].shared.ix);
    }
  }

  predicate InFlight(t: Thread) {
    !t.pc.Waiting? && !t.pc.Done?
  }

  /**
   Safety of every interleaving: arrays of one length, every link in range and on a layer its target
   has, lists within their caps, an entry point with exactly `maxLayer + 1` layers, and every node
   taller than that the slot of an insertion still in flight.
   */
  lemma ConcurrentSafety(sim: Similarity, cfg: Config, dim: nat, run: seq<System>, actions: seq<Action>, n: nat)
    requires cfg.M >= 1 && Execution(sim, cfg, dim, run, actions) && n < |run|
    ensures
      var ix := run[n].shared.ix;
      && run[n].shared.num == |ix.vecs| == |ix.ids| == |ix.metas| == |ix.tomb| == |ix.graph|
      && (forall v: nat, layer: nat :: Up(ix, v, layer) ==>
           && |ix.graph[v][layer]| <= (if layer == 0 then 2 * cfg.M else cfg.M)
           && forall i :: 0 <= i < |ix.graph[v][layer]| ==> Up(ix, ix.graph[v][layer][i], layer))
      && (ix.graph != [] ==> ix.entry < |ix.graph| && |ix.graph[ix.entry]| == ix.maxLayer + 1)
      && (forall v: nat :: v < |ix.graph| && |ix.graph[v]| > ix.maxLayer + 1 ==>
           exists i :: 0 <= i < |run[n].threads| && InFlight(run[n].threads[i]) && SlotOf(run[n].threads[i]) == v)
  {
    ExecutionKeeps(sim, cfg, dim, run, actions, n);
    var s := run[n];
    var ix := s.shared.ix;
    forall v: nat, layer: nat | Up(ix, v, layer)
      ensures |ix.graph[v][layer]| <= if layer == 0 then 2 * cfg.M else cfg.M
      ensures forall i :: 0 <= i < |ix.graph[v][layer]| ==> Up(ix, ix.graph[v][layer][i], layer)
    {
      assert ListFits(cfg, ix, v, layer);
    }
    forall v: nat | v < |ix.graph| && |ix.graph[v]| > ix.maxLayer + 1
      ensures exists i :: 0 <= i < |s.threads| && InFlight(s.threads[i]) && SlotOf(s.threads[i]) == v
    {
      TallOwner(cfg, s, v);
    }
  }

  lemma TallOwner(cfg: Config, s: System, v: nat)
    requires Inv(cfg, s) && v < |s.shared.ix.graph| && |s.shared.ix.graph[v]| > s.shared.ix.maxLayer + 1
    ensures exists i :: 0 <= i < |s.threads| && InFlight(s.threads[i]) && SlotOf(s.threads[i]) == v
  {
    assert Owned(s.threads, v);
    var i :| 0 <= i < |s.threads| && SlotOf(s.threads[i]) == v;
    assert ThreadOk(cfg, s.shared.ix, s.threads[i]);
    assert InFlight(s.threads[i]);
  }

  ghost predicate FinishedAt(threads: seq<Thread>, v: nat) {
    exists i :: 0 <= i < |threads| && threads[i].pc == Done(v)
  }

  /**
   Once no insertion is in flight, the entry point is a tallest node, there are exactly as many slots
   as finished insertions, and each of those has its own slot holding its own id, vector and metadata.
   */
  lemma QuiescentIndex(sim: Similarity, cfg: Config, dim: nat, run: seq<System>, actions: seq<Action>, n: nat)
    requires cfg.M >= 1 && Execution(sim, cfg, dim, run, actions) && n < |run|
    requires forall i :: 0 <= i < |run[n].threads| ==> !InFlight(run[n].threads[i])
    ensures forall v :: 0 <= v < |run[n].shared.ix.graph| ==> |run[n].shared.ix.graph[v]| <= run[n].shared.ix.maxLayer + 1
    ensures forall v: nat :: v < run[n].shared.num ==> FinishedAt(run[n].threads, v)
    ensures forall i :: 0 <= i < |run[n].threads| && run[n].threads[i].pc.Done? ==> OwnSlot(run[n].shared.ix, run[n].threads[i], run[n].threads[i].pc.q)
    ensures forall i, j :: 0 <= i < j < |run[n].threads| && run[n].threads[i].pc.Done? ==> run[n].threads[i].pc != run[n].threads[j].pc
  {
    ExecutionKeeps(sim, cfg, dim, run, actions, n);
    var s := run[n];
    var ix := s.shared.ix;
    forall v | 0 <= v < |ix.graph| ensures |ix.graph[v]| <= ix.maxLayer + 1 {
      if |ix.graph[v]| > ix.maxLayer + 1 { TallOwner(cfg, s, v); }
    }
    forall v: nat | v < s.shared.num ensures FinishedAt(s.threads, v) {
      assert Owned(s.threads, v);
      var i :| 0 <= i < |s.threads| && SlotOf(s.threads[i]) == v;
      assert !InFlight(s.threads[i]);
      assert s.threads[i].pc == Done(v);
    }
    forall i | 0 <= i < |s.threads| && s.threads[i].pc.Done? ensures OwnSlot(ix, s.threads[i], s.threads[i].pc.q) {
      assert ThreadOk(cfg, ix, s.threads[i]);
    }
    forall i, j | 0 <= i < j < |s.threads| && s.threads[i].pc.Done? ensures s.threads[i].pc != s.threads[j].pc {
      assert SlotOf(s.threads[i]) >= 0;
      assert SlotOf(s.threads[i]) != SlotOf(s.threads[j]);
    }
  }

  /** The slots whose visited mark a running search is about to test or set. */
  function LookedAt(pc: Pc): seq<nat>
    requires pc.InLayer?
  {
    [pc.ep] + pc.pending
  }

  /**
   The visited buffer of a search has room for the slots there were at state `m`, when the search began, and for
   `room` more.  Links written since may lead past it, but only once more than `room` slots have been added.
   */
  lemma BufferOutgrown(sim: Similarity, cfg: Config, dim: nat, run: seq<System>, actions: seq<Action>, m: nat, n: nat,
                       i: nat, room: nat, v: nat)
    requires cfg.M >= 1 && Execution(sim, cfg, dim, run, actions) && m <= n < |run|
    requires i < |run[n].threads| && run[n].threads[i].pc.InLayer? && v in LookedAt(run[n].threads[i].pc)
    ensures v < run[n].shared.num
    ensures v >= run[m].shared.num + room ==> run[n].shared.num - run[m].shared.num > room
  {
    ExecutionKeeps(sim, cfg, dim, run, actions, n);
    hide Execution, SharedOk, SlotsOwned;
    assert Arrays(run[n].shared) by { SharedArrays(cfg, run[n].shared); }
    var t := run[n].threads[i];
    assert ThreadOk(cfg, run[n].shared.ix, t);
    if v in t.pc.pending {
      var k :| 0 <= k < |t.pc.pending| && t.pc.pending[k] == v;
      assert Up(run[n].shared.ix, t.pc.pending[k], t.pc.lc);
    }
  }

  lemma SharedArrays(cfg: Config, s: Shared)
    requires SharedOk(cfg, s)
    ensures Arrays(s)
  {
  }

  // ---------- progress ----------

  lemma SelectionExists(cands: seq<Scored>, m: int)
    ensures exists picked :: Select(cands, m, picked)
  {
    var sorted := SortDescending(cands);
    assert SortedCopy(sorted, cands);
    assert Select(cands, m, Nodes(TakeUpTo(sorted, Larger(m, 0))));
  }

  lemma PrunedExists(sim: Similarity, ix: Index, owner: nat, cap: int, pushed: seq<nat>)
    requires owner < |ix.vecs| && forall i :: 0 <= i < |pushed| ==> pushed[i] < |ix.vecs|
    ensures exists list :: Pruned(sim, ix.vecs, owner, cap, pushed, list)
  {
    if |pushed| <= cap {
      assert Pruned(sim, ix.vecs, owner, cap, pushed, pushed);
    } else {
      SelectionExists(Rated(sim, ix.vecs, owner, pushed), cap);
      var list :| Select(Rated(sim, ix.vecs, owner, pushed), cap, list);
      assert Pruned(sim, ix.vecs, owner, cap, pushed, list);
    }
  }

  lemma BackLinkExists(sim: Similarity, cfg: Config, s: Shared, q: nat, lc: nat, nb: nat)
    requires SharedOk(cfg, s) && Up(s.ix, nb, lc) && Up(s.ix, q, lc)
    ensures exists ix' :: BackLink(sim, cfg, s.ix, q, lc, nb, ix')
  {
    assert HasLayer(s.ix, nb, lc) && ListFits(cfg, s.ix, nb, lc);
    var pushed := s.ix.graph[nb][lc] + [q];
    forall i | 0 <= i < |pushed| ensures pushed[i] < |s.ix.vecs| {
      if i < |pushed| - 1 { assert Up(s.ix, s.ix.graph[nb][lc][i], lc); }
    }
    PrunedExists(sim, s.ix, nb, Mmax(cfg, lc), pushed);
    var list :| Pruned(sim, s.ix.vecs, nb, Mmax(cfg, lc), pushed, list);
    assert Raise(s.ix, nb, lc) == s.ix;
    assert BackLink(sim, cfg, s.ix, q, lc, nb, PutList(s.ix, nb, lc, list, {q}));
  }

  ghost predicate CanStep(sim: Similarity, cfg: Config, s: Shared, t: Thread) {
    exists s', t' :: ThreadStep(sim, cfg, s, t, s', t')
  }

  lemma SearchTurn(sim: Similarity, cfg: Config, s: Shared, t: Thread)
    requires SharedOk(cfg, s) && ThreadOk(cfg, s.ix, t) && t.pc.InLayer?
    ensures CanStep(sim, cfg, s, t)
  {
    hide Allocate, ReadEntry, BeginLayer, WriteList, LinkBack, NextLayer, Finish, SortedCopy, Select;
    var b, lc := t.pc.beam, t.pc.lc;
    if t.pc.pending != [] {
      assert Up(s.ix, t.pc.pending[0], lc);
      var t' := t.(pc := t.pc.(
        beam := Offer(ScoresTo(sim, s.ix.vecs, t.job.vec), BeamWidth(cfg, t, lc), b, t.pc.pending[0]),
        pending := t.pc.pending[1..]));
      assert OfferNext(sim, cfg, s, t, s, t') && ThreadStep(sim, cfg, s, t, s, t');
    } else if b.cands == [] || Hopeless(BeamWidth(cfg, t, lc), b, b.cands[0]) {
      var out := SortDescending(b.results);
      SelectionExists(out, cfg.M);
      var nbs: seq<nat> :| Select(out, cfg.M, nbs);
      var t' := t.(pc := if lc > t.job.level then AtLayer(t.pc.q, Front(out, t.pc.ep), lc - 1)
                         else Chosen(t.pc.q, lc, nbs, Front(out, t.pc.ep)));
      assert EndLayer(cfg, s, t, s, t') && ThreadStep(sim, cfg, s, t, s, t');
    } else {
      var t' := t.(pc := t.pc.(beam := Pop(b), pending := Links(s.ix.graph, lc, b.cands[0].node)));
      assert ReadLinks(cfg, s, t, s, t') && ThreadStep(sim, cfg, s, t, s, t');
    }
  }

  lemma LinkTurn(sim: Similarity, cfg: Config, s: Shared, t: Thread)
    requires SharedOk(cfg, s) && ThreadOk(cfg, s.ix, t) && t.pc.BackLinking?
    ensures CanStep(sim, cfg, s, t)
  {
    if t.pc.rest == [] {
      var t' := t.(pc := AtLayer(t.pc.q, t.pc.next, t.pc.lc - 1));
      assert NextLayer(s, t, s, t') && ThreadStep(sim, cfg, s, t, s, t');
    } else {
      assert Up(s.ix, t.pc.rest[0], t.pc.lc);
      BackLinkExists(sim, cfg, s, t.pc.q, t.pc.lc, t.pc.rest[0]);
      var ix' :| BackLink(sim, cfg, s.ix, t.pc.q, t.pc.lc, t.pc.rest[0], ix');
      var s', t' := s.(ix := ix'), t.(pc := t.pc.(rest := t.pc.rest[1..]));
      assert LinkBack(sim, cfg, s, t, s', t') && ThreadStep(sim, cfg, s, t, s', t');
    }
  }

  /** No region of an unfinished insertion ever finds an id, layer or vector missing: every thread can always go on. */
  lemma NeverStuck(sim: Similarity, cfg: Config, dim: nat, run: seq<System>, actions: seq<Action>, n: nat, i: nat)
    requires cfg.M >= 1 && Execution(sim, cfg, dim, run, actions) && n < |run|
    requires i < |run[n].threads| && !run[n].threads[i].pc.Done?
    ensures CanStep(sim, cfg, run[n].shared, run[n].threads[i])
  {
    ExecutionKeeps(sim, cfg, dim, run, actions, n);
    var s, t := run[n].shared, run[n].threads[i];
    assert ThreadOk(cfg, s.ix, t);
    match t.pc
    case Waiting =>
      var s' := Shared(s.num + 1, Append(s.ix, t.job.id, t.job.vec, t.job.meta, t.job.level));
      var t' := t.(pc := if s.num == 0 then Done(s.num) else Allocated(s.num));
      assert Allocate(s, t, s', t') && ThreadStep(sim, cfg, s, t, s', t');
    case Allocated(q) =>
      var t' := t.(pc := AtLayer(q, s.ix.entry, s.ix.maxLayer));
      assert ReadEntry(s, t, s, t') && ThreadStep(sim, cfg, s, t, s, t');
    case AtLayer(q, ep, at) =>
      if at == -1 {
        var s', t' := s.(ix := Crown(s.ix, q, t.job.level)), t.(pc := Done(q));
        assert Finish(s, t, s', t') && ThreadStep(sim, cfg, s, t, s', t');
      } else {
        var t' := t.(pc := InLayer(q, ep, at, StartAt(ScoresTo(sim, s.ix.vecs, t.job.vec), ep), []));
        assert BeginLayer(sim, s, t, s, t') && ThreadStep(sim, cfg, s, t, s, t');
      }
    case InLayer(_, _, _, _, _) => SearchTurn(sim, cfg, s, t);
    case Chosen(q, lc, nbs, next) =>
      var s', t' := s.(ix := PutList(s.ix, q, lc, nbs, SetOf(nbs))), t.(pc := BackLinking(q, lc, nbs, next));
      assert WriteList(s, t, s', t') && ThreadStep(sim, cfg, s, t, s', t');
    case BackLinking(_, _, _, _) => LinkTurn(sim, cfg, s, t);
  }
}
