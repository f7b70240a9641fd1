/** What `search` promises about deleted ids, and exactly when it does not keep it. */
module HnswDeletion {
  import opened Bytes
  import opened Ranking
  import opened BeamSearch
  import opened Selection
  import opened Hnsw
  import opened HnswInvariant
  import opened HnswRuns
  import opened HnswSearch
  import opened HnswExact

  // ---------- shadowed slots ----------

  /**
   The slot's id also names an earlier slot, and that id counts as deleted.  Both can be asked of the
   index from outside.
   */
  predicate Shadowed(s: Index, v: nat) {
    v < |s.ids| && FirstSlot(s.ids, s.ids[v]) != v && IsDeleted(s, s.ids[v])
  }

  /** Only the first slot of an id is ever tombstoned. */
  ghost predicate FirstsOnly(s: Index) {
    |s.tomb| == |s.ids| && forall v :: 0 <= v < |s.tomb| && s.tomb[v] ==> FirstSlot(s.ids, s.ids[v]) == v
  }

  lemma FirstSlotBounds(ids: seq<u64>, v: nat)
    requires v < |ids|
    ensures FirstSlot(ids, ids[v]) <= v
  {
  }

  lemma FirstSlotInPrefix(ids: seq<u64>, more: seq<u64>, v: nat)
    requires ids <= more && v < |ids|
    ensures FirstSlot(more, ids[v]) == FirstSlot(ids, ids[v])
  {
    var a, b := FirstSlot(ids, ids[v]), FirstSlot(more, ids[v]);
    assert forall i :: 0 <= i < |ids| ==> more[i] == ids[i];
  }

  lemma {:induction false} RunFirstsOnly(sim: Similarity, cfg: Config, dim: nat, ops: seq<Op>, s: Index)
    requires cfg.M >= 1 && Run(sim, cfg, dim, ops, s)
    ensures FirstsOnly(s)
  {
    if ops != [] {
      var last := |ops| - 1;
      var before :| Run(sim, cfg, dim, ops[..last], before) && Step(sim, cfg, before, ops[last], s);
      RunFirstsOnly(sim, cfg, dim, ops[..last], before);
      RunKeeps(sim, cfg, dim, ops[..last], before);
      StepFirstsOnly(sim, cfg, before, ops[last], s);
    }
  }

  lemma StepFirstsOnly(sim: Similarity, cfg: Config, s: Index, op: Op, t: Index)
    requires cfg.M >= 1 && Inv(sim, cfg, s) && Step(sim, cfg, s, op, t) && FirstsOnly(s)
    ensures FirstsOnly(t)
  {
    hide Inv, Insert;
    match op
    case OpInsert(id, vec, meta, level) =>
      if |vec| == s.dim {
        InsertKeeps(sim, cfg, s, id, vec, meta, level, t);
        forall v | 0 <= v < |t.tomb| && t.tomb[v] ensures FirstSlot(t.ids, t.ids[v]) == v {
          FirstSlotInPrefix(s.ids, t.ids, v);
        }
      }
    case OpDelete(id) =>
  }

  // ---------- the promise ----------

  /** A live slot carries a deleted id exactly when it is shadowed. */
  lemma LiveSlotShadowedIff(s: Index, v: nat)
    requires v < |s.ids| == |s.tomb| && !s.tomb[v]
    ensures IsDeleted(s, s.ids[v]) <==> Shadowed(s, v)
  {
  }

  /** In every search, an answer carries a deleted id exactly when its slot is shadowed. */
  lemma AnsweredShadow(sim: Similarity, cfg: Config, s: Index, ef: int, query: Vec, k: int, out: seq<Answer>)
    returns (slots: seq<nat>)
    requires Inv(sim, cfg, s) && Search(sim, ef, s, query, k, out)
    ensures AnswersFrom(sim, s, query, slots, out)
    ensures forall i :: 0 <= i < |out| ==> slots[i] in Reached(sim, s, query) && (IsDeleted(s, out[i].id) <==> Shadowed(s, slots[i]))
  {
    hide Inv, Search;
    slots := SearchSound(sim, cfg, ef, s, query, k, out);
    forall i | 0 <= i < |out| ensures IsDeleted(s, out[i].id) <==> Shadowed(s, slots[i]) {
      LiveSlotShadowedIff(s, slots[i]);
    }
  }

  /** While nothing the search can reach is shadowed, no search answers a deleted id, whatever `ef` and `k`. */
  lemma NoShadowNoDeletedId(sim: Similarity, cfg: Config, s: Index, ef: int, query: Vec, k: int, out: seq<Answer>)
    requires Inv(sim, cfg, s) && Search(sim, ef, s, query, k, out)
    requires forall v :: v in Reached(sim, s, query) ==> !Shadowed(s, v)
    ensures forall i :: 0 <= i < |out| ==> !IsDeleted(s, out[i].id)
  {
    hide Inv, Search, Shadowed, IsDeleted;
    var slots := AnsweredShadow(sim, cfg, s, ef, query, k, out);
  }

  /** An exhaustive search answers a deleted id if and only if it can reach a shadowed slot. */
  lemma DeletedIdAnsweredIffShadowed(sim: Similarity, cfg: Config, s: Index, ef: int, query: Vec, k: int, out: seq<Answer>)
    requires Inv(sim, cfg, s) && FirstsOnly(s) && Wide(sim, ef, s, query) && (k <= 0 || k >= |s.ids|)
    requires Search(sim, ef, s, query, k, out)
    ensures (exists i :: 0 <= i < |out| && IsDeleted(s, out[i].id)) <==>
            exists v :: v in Reached(sim, s, query) && Shadowed(s, v)
  {
    var slots := AnsweredShadow(sim, cfg, s, ef, query, k, out);
    AllReachedAnswered(sim, cfg, s, ef, query, k, out, slots);
    hide Inv, Search, Reached, IsDeleted, Wide, AnswersFrom;
    if v :| v in Reached(sim, s, query) && Shadowed(s, v) {
      assert !s.tomb[v] && v in slots;
      var i :| 0 <= i < |slots| && slots[i] == v;
    }
  }

  lemma AllReachedAnswered(sim: Similarity, cfg: Config, s: Index, ef: int, query: Vec, k: int, out: seq<Answer>, slots: seq<nat>)
    requires Inv(sim, cfg, s) && Wide(sim, ef, s, query) && (k <= 0 || k >= |s.ids|)
    requires Search(sim, ef, s, query, k, out) && AnswersFrom(sim, s, query, slots, out)
    requires forall i :: 0 <= i < |slots| ==> slots[i] in Reached(sim, s, query)
    ensures |slots| == |out| && |s.tomb| == |s.ids| == |s.graph|
    ensures forall v :: v in Reached(sim, s, query) && v < |s.tomb| && !s.tomb[v] ==> v in slots
    ensures forall v :: v in Reached(sim, s, query) ==> v < |s.graph|
  {
    AnswersAreTheReached(sim, cfg, ef, s, query, k, out);
    ReachedInRange(sim, s, query);
    var seen := Reached(sim, s, query);
    hide Inv, Search, Reached, Wide;
    RankingSize(sim, s, query, LiveIn(s.tomb, seen));
    SlotsPicked(s.tomb, seen, slots);
  }

  /** As many distinct live slots of a set as it has: all of them. */
  lemma SlotsPicked(tomb: seq<bool>, seen: set<nat>, slots: seq<nat>)
    requires NoDuplicates(slots) && |slots| == |KeptSlots(LiveIn(tomb, seen))|
    requires forall i :: 0 <= i < |slots| ==> slots[i] < |tomb| && !tomb[slots[i]] && slots[i] in seen
    ensures forall v :: v in seen && v < |tomb| && !tomb[v] ==> v in slots
  {
    var keep := LiveIn(tomb, seen);
    var live := KeptSlots(keep);
    DistinctCount(live, SetOf(live));
    DistinctCount(slots, SetOf(slots));
    forall x | x in SetOf(slots) ensures x in SetOf(live) { assert keep[x]; }
    SubsetCount(SetOf(slots), SetOf(live));
    forall v | v in seen && v < |tomb| && !tomb[v] ensures v in slots {
      assert keep[v] && v in live;
      assert v in SetOf(slots);
    }
  }

  /** No search for the query, with any beam and any `k`, answers an id for which `is_deleted` holds. */
  ghost predicate NeverAnswersDeleted(sim: Similarity, s: Index, query: Vec) {
    forall ef: int, k: int, out: seq<Answer> :: Search(sim, ef, s, query, k, out) ==>
      forall i :: 0 <= i < |out| ==> !IsDeleted(s, out[i].id)
  }

  /** The promise holds, for every beam and every `k`, if and only if no shadowed slot can be reached. */
  lemma PromiseHoldsIff(sim: Similarity, cfg: Config, s: Index, query: Vec)
    requires Inv(sim, cfg, s) && FirstsOnly(s)
    ensures NeverAnswersDeleted(sim, s, query) <==> forall v :: v in Reached(sim, s, query) ==> !Shadowed(s, v)
  {
    assert |s.ids| == |s.graph|;
    hide Search, Inv, IsDeleted, Reached;
    forall ef: int, k: int, out: seq<Answer>
      | Search(sim, ef, s, query, k, out) && forall v :: v in Reached(sim, s, query) ==> !Shadowed(s, v)
      ensures forall i :: 0 <= i < |out| ==> !IsDeleted(s, out[i].id)
    {
      NoShadowNoDeletedId(sim, cfg, s, ef, query, k, out);
    }
    if NeverAnswersDeleted(sim, s, query) {
      var ef := |s.ids|;
      WideEnough(sim, ef, s, query);
      var out := SearchExists(sim, cfg, ef, s, query, 0);
      DeletedIdAnsweredIffShadowed(sim, cfg, s, ef, query, 0, out);
    }
  }

  // ---------- in terms of the operations ----------

  /** The ids of the accepted insertions, in order. */
  function InsertedIds(dim: nat, ops: seq<Op>): seq<u64> {
    if ops == [] then []
    else
      var last := |ops| - 1;
      InsertedIds(dim, ops[..last]) +
      match ops[last]
      case OpInsert(id, vec, _, _) => if |vec| == dim then [id] else []
      case OpDelete(_) => []
  }

  lemma {:induction false} RunIds(sim: Similarity, cfg: Config, dim: nat, ops: seq<Op>, s: Index)
    requires cfg.M >= 1 && Run(sim, cfg, dim, ops, s)
    ensures s.ids == InsertedIds(dim, ops)
  {
    if ops != [] {
      var last := |ops| - 1;
      var before :| Run(sim, cfg, dim, ops[..last], before) && Step(sim, cfg, before, ops[last], s);
      RunIds(sim, cfg, dim, ops[..last], before);
      RunKeeps(sim, cfg, dim, ops[..last], before);
      match ops[last]
      case OpInsert(id, vec, meta, level) =>
        if |vec| == dim { InsertKeeps(sim, cfg, before, id, vec, meta, level, s); }
      case OpDelete(id) =>
    }
  }

  predicate Accepts(dim: nat, op: Op, id: u64) {
    op.OpInsert? && |op.vec| == dim && op.id == id
  }

  /** The id was inserted, and deleted some time later. */
  ghost predicate Removed(dim: nat, ops: seq<Op>, id: u64) {
    exists i, d :: 0 <= i < d < |ops| && Accepts(dim, ops[i], id) && ops[d] == OpDelete(id)
  }

  ghost predicate InsertedTwice(dim: nat, ops: seq<Op>, id: u64) {
    exists i, j :: 0 <= i < j < |ops| && Accepts(dim, ops[i], id) && Accepts(dim, ops[j], id)
  }

  ghost predicate Repeated(ids: seq<u64>, id: u64) {
    exists a, b :: 0 <= a < b < |ids| && ids[a] == ids[b] == id
  }

  lemma {:induction false} InsertedIff(dim: nat, ops: seq<Op>, id: u64)
    ensures id in InsertedIds(dim, ops) <==> exists i :: 0 <= i < |ops| && Accepts(dim, ops[i], id)
  {
    if ops != [] {
      var last := |ops| - 1;
      InsertedIff(dim, ops[..last], id);
      assert forall i :: 0 <= i < last ==> ops[..last][i] == ops[i];
      if i :| 0 <= i < |ops| && Accepts(dim, ops[i], id) {
        if i < last { assert Accepts(dim, ops[..last][i], id); }
      }
      if id in InsertedIds(dim, ops[..last]) {
        var i :| 0 <= i < last && Accepts(dim, ops[..last][i], id);
        assert Accepts(dim, ops[i], id);
      } else if Accepts(dim, ops[last], id) {
        assert id in [id];
      }
    }
  }

  lemma SameIdRepeats(ids: seq<u64>, a: nat, b: nat)
    requires a < |ids| && b < |ids| && a != b && ids[a] == ids[b]
    ensures Repeated(ids, ids[a])
  {
    var lo, hi := if a < b then a else b, if a < b then b else a;
    assert ids[lo] == ids[hi] == ids[a];
  }

  lemma AppendedRepeats(ids: seq<u64>, x: u64, id: u64)
    ensures Repeated(ids + [x], id) <==> Repeated(ids, id) || (x == id && id in ids)
  {
    if a, b :| 0 <= a < b < |ids + [x]| && (ids + [x])[a] == (ids + [x])[b] == id {
      if b < |ids| { assert ids[a] == ids[b] == id; }
    }
    if a, b :| 0 <= a < b < |ids| && ids[a] == ids[b] == id {
      assert (ids + [x])[a] == (ids + [x])[b] == id;
    }
    if x == id && id in ids {
      var a :| 0 <= a < |ids| && ids[a] == id;
      assert (ids + [x])[a] == (ids + [x])[|ids|] == id;
    }
  }

  lemma AppendedTwice(dim: nat, ops: seq<Op>, op: Op, id: u64)
    ensures InsertedTwice(dim, ops + [op], id) <==>
            InsertedTwice(dim, ops, id) || (Accepts(dim, op, id) && exists i :: 0 <= i < |ops| && Accepts(dim, ops[i], id))
  {
    var more := ops + [op];
    if i, j :| 0 <= i < j < |more| && Accepts(dim, more[i], id) && Accepts(dim, more[j], id) {
      assert Accepts(dim, ops[i], id);
      if j < |ops| { assert Accepts(dim, ops[j], id); }
    }
    if i, j :| 0 <= i < j < |ops| && Accepts(dim, ops[i], id) && Accepts(dim, ops[j], id) {
      assert Accepts(dim, more[i], id) && Accepts(dim, more[j], id);
    }
    if Accepts(dim, op, id) && exists i :: 0 <= i < |ops| && Accepts(dim, ops[i], id) {
      var i :| 0 <= i < |ops| && Accepts(dim, ops[i], id);
      assert Accepts(dim, more[i], id) && Accepts(dim, more[|ops|], id);
    }
  }

  lemma {:induction false} RepeatedIff(dim: nat, ops: seq<Op>, id: u64)
    ensures Repeated(InsertedIds(dim, ops), id) <==> InsertedTwice(dim, ops, id)
  {
    if ops != [] {
      var last := |ops| - 1;
      var rest, op := ops[..last], ops[last];
      assert ops == rest + [op];
      RepeatedIff(dim, rest, id);
      InsertedIff(dim, rest, id);
      AppendedTwice(dim, rest, op, id);
      if op.OpInsert? && |op.vec| == dim {
        AppendedRepeats(InsertedIds(dim, rest), op.id, id);
      } else {
        assert InsertedIds(dim, ops) == InsertedIds(dim, rest);
      }
    }
  }

  lemma AppendedRemoved(dim: nat, ops: seq<Op>, op: Op, id: u64)
    ensures Removed(dim, ops + [op], id) <==>
            Removed(dim, ops, id) || (op == OpDelete(id) && exists i :: 0 <= i < |ops| && Accepts(dim, ops[i], id))
  {
    var more := ops + [op];
    if i, d :| 0 <= i < d < |more| && Accepts(dim, more[i], id) && more[d] == OpDelete(id) {
      assert Accepts(dim, ops[i], id);
      if d < |ops| { assert ops[d] == OpDelete(id); }
    }
    if i, d :| 0 <= i < d < |ops| && Accepts(dim, ops[i], id) && ops[d] == OpDelete(id) {
      assert Accepts(dim, more[i], id) && more[d] == OpDelete(id);
    }
    if op == OpDelete(id) && exists i :: 0 <= i < |ops| && Accepts(dim, ops[i], id) {
      var i :| 0 <= i < |ops| && Accepts(dim, ops[i], id);
      assert Accepts(dim, more[i], id) && more[|ops|] == OpDelete(id);
    }
  }

  lemma NothingDeletedYet(dim: nat, id: u64)
    ensures !IsDeleted(Empty(dim), id) && !Removed(dim, [], id)
  {
  }

  /** `is_deleted` holds of exactly the ids that were deleted after their first insertion. */
  lemma {:induction false} DeletedIff(sim: Similarity, cfg: Config, dim: nat, ops: seq<Op>, s: Index, id: u64)
    requires cfg.M >= 1 && Run(sim, cfg, dim, ops, s)
    ensures IsDeleted(s, id) <==> Removed(dim, ops, id)
  {
    hide Step, Inv, IsDeleted, Removed, InsertedIds, Accepts;
    if ops == [] {
      NothingDeletedYet(dim, id);
    } else {
      var last := |ops| - 1;
      var rest, op := ops[..last], ops[last];
      assert ops == rest + [op];
      var before :| Run(sim, cfg, dim, rest, before) && Step(sim, cfg, before, op, s);
      DeletedIff(sim, cfg, dim, rest, before, id);
      AppendedRemoved(dim, rest, op, id);
      InsertedIff(dim, rest, id);
      RunIds(sim, cfg, dim, rest, before);
      RunKeeps(sim, cfg, dim, rest, before);
      DeletedByStep(sim, cfg, before, op, s, id);
    }
  }

  lemma DeletedByStep(sim: Similarity, cfg: Config, s: Index, op: Op, t: Index, id: u64)
    requires cfg.M >= 1 && Inv(sim, cfg, s) && Step(sim, cfg, s, op, t)
    ensures IsDeleted(t, id) <==> IsDeleted(s, id) || (op == OpDelete(id) && id in s.ids)
  {
    assert |s.ids| == |s.tomb|;
    hide Inv, Insert, IsDeleted, Delete;
    match op
    case OpInsert(id', vec, meta, level) =>
      if |vec| == s.dim {
        InsertKeeps(sim, cfg, s, id', vec, meta, level, t);
        NewLiveSlot(s, t, id);
      }
    case OpDelete(id') => DeletedByDelete(s, id', id);
  }

  lemma NewLiveSlot(s: Index, t: Index, id: u64)
    requires |s.ids| == |s.tomb| && s.ids < t.ids && t.tomb == s.tomb + [false] && |t.ids| == |t.tomb|
    ensures IsDeleted(t, id) <==> IsDeleted(s, id)
  {
    FirstSlotFinds(s.ids, id);
    FirstSlotFinds(t.ids, id);
    if id in s.ids { FirstSlotInPrefix(s.ids, t.ids, FirstSlot(s.ids, id)); }
  }

  lemma DeletedByDelete(s: Index, id': u64, id: u64)
    requires |s.ids| == |s.tomb|
    ensures IsDeleted(Delete(s, id'), id) <==> IsDeleted(s, id) || (id' == id && id in s.ids)
  {
    FirstSlotFinds(s.ids, id);
    FirstSlotFinds(s.ids, id');
  }

  lemma FirstSlotFinds(ids: seq<u64>, id: u64)
    ensures FirstSlot(ids, id) < |ids| <==> id in ids
  {
    var i := FirstSlot(ids, id);
    if i < |ids| { assert ids[i] in ids; }
    if id in ids {
      var j :| 0 <= j < |ids| && ids[j] == id;
    }
  }

  /** A slot of some id is shadowed exactly when that id was inserted twice and deleted after an insertion. */
  lemma ShadowedIff(sim: Similarity, cfg: Config, dim: nat, ops: seq<Op>, s: Index, id: u64)
    requires cfg.M >= 1 && Run(sim, cfg, dim, ops, s)
    ensures (exists v: nat :: v < |s.ids| && s.ids[v] == id && Shadowed(s, v)) <==>
            InsertedTwice(dim, ops, id) && Removed(dim, ops, id)
  {
    DeletedIff(sim, cfg, dim, ops, s, id);
    RunIds(sim, cfg, dim, ops, s);
    RepeatedIff(dim, ops, id);
    hide Run, InsertedIds, Removed, InsertedTwice, IsDeleted;
    RepeatedSlot(s, id);
  }

  lemma RepeatedSlot(s: Index, id: u64)
    ensures (exists v: nat :: v < |s.ids| && s.ids[v] == id && Shadowed(s, v)) <==> Repeated(s.ids, id) && IsDeleted(s, id)
  {
    hide IsDeleted;
    if v: nat :| v < |s.ids| && s.ids[v] == id && Shadowed(s, v) {
      FirstSlotBounds(s.ids, v);
      assert s.ids[FirstSlot(s.ids, id)] == s.ids[v] == id;
    }
    if Repeated(s.ids, id) && IsDeleted(s, id) {
      var a, b :| 0 <= a < b < |s.ids| && s.ids[a] == s.ids[b] == id;
      FirstSlotBounds(s.ids, a);
      assert Shadowed(s, b);
    }
  }

  /**
   In terms of the operations: where no id was both inserted twice and deleted after an insertion, no
   search with any beam and any `k` answers a deleted id.
   */
  lemma TombstonesHold(sim: Similarity, cfg: Config, dim: nat, ops: seq<Op>, s: Index, ef: int, query: Vec, k: int,
                       out: seq<Answer>)
    requires cfg.M >= 1 && Run(sim, cfg, dim, ops, s) && Search(sim, ef, s, query, k, out)
    requires forall id :: !(InsertedTwice(dim, ops, id) && Removed(dim, ops, id))
    ensures forall i :: 0 <= i < |out| ==> !IsDeleted(s, out[i].id)
  {
    RunKeeps(sim, cfg, dim, ops, s);
    hide Search, Inv, Run;
    forall v | v in Reached(sim, s, query) ensures !Shadowed(s, v) {
      if Shadowed(s, v) { ShadowedIff(sim, cfg, dim, ops, s, s.ids[v]); }
    }
    NoShadowNoDeletedId(sim, cfg, s, ef, query, k, out);
  }

  /** With each id inserted at most once, moreover, no id is answered twice. */
  lemma AnswersDistinct(sim: Similarity, cfg: Config, dim: nat, ops: seq<Op>, s: Index, ef: int, query: Vec, k: int,
                        out: seq<Answer>)
    requires cfg.M >= 1 && Run(sim, cfg, dim, ops, s) && Search(sim, ef, s, query, k, out)
    requires forall id :: !InsertedTwice(dim, ops, id)
    ensures forall i, j :: 0 <= i < j < |out| ==> out[i].id != out[j].id && out[i].score >= out[j].score
    ensures k >= 1 ==> |out| <= k
  {
    RunKeeps(sim, cfg, dim, ops, s);
    RunIds(sim, cfg, dim, ops, s);
    var slots := SearchSound(sim, cfg, ef, s, query, k, out);
    hide Search, Inv, Run, InsertedTwice;
    forall i, j | 0 <= i < j < |out| ensures out[i].id != out[j].id {
      assert slots[i] != slots[j];
      if s.ids[slots[i]] == s.ids[slots[j]] {
        SameIdRepeats(s.ids, slots[i], slots[j]);
        RepeatedIff(dim, ops, s.ids[slots[i]]);
      }
    }
  }

  /**
   And where an id was, the promise fails for a query exactly when one of its later slots can be reached.
   */
  lemma RunPromiseHoldsIff(sim: Similarity, cfg: Config, dim: nat, ops: seq<Op>, s: Index, query: Vec)
    requires cfg.M >= 1 && Run(sim, cfg, dim, ops, s)
    ensures NeverAnswersDeleted(sim, s, query) <==>
            forall v :: v in Reached(sim, s, query) && v < |s.ids| && FirstSlot(s.ids, s.ids[v]) != v ==> !Removed(dim, ops, s.ids[v])
  {
    RunKeeps(sim, cfg, dim, ops, s);
    RunFirstsOnly(sim, cfg, dim, ops, s);
    PromiseHoldsIff(sim, cfg, s, query);
    hide Run, Inv, Removed, IsDeleted, Reached, NeverAnswersDeleted;
    forall v | v in Reached(sim, s, query) && v < |s.ids| ensures IsDeleted(s, s.ids[v]) <==> Removed(dim, ops, s.ids[v]) {
      DeletedIff(sim, cfg, dim, ops, s, s.ids[v]);
    }
  }
}
