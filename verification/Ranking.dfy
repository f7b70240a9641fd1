/**
 Scored nodes, the two priority queues of the beam search, and sorting by score.

 The source keeps `std::pair<float, uint32_t>` entries `(-similarity, id)` in two heaps of
 opposite order.  Both heaps use the same total order on entries, best first: the candidate
 heap exposes its best entry, the result heap its worst.  A heap is modelled by the list of
 its entries in that order, so the candidate heap pops at the front, the result heap at the back.
 */
module Ranking {

  datatype Scored = Scored(score: real, node: nat)

  /** Strict heap order: higher similarity first, ties by smaller id. */
  predicate Before(a: Scored, b: Scored) {
    a.score > b.score || (a.score == b.score && a.node < b.node)
  }

  /** The entries of a heap, best first.  The order is strict: no entry occurs twice. */
  ghost predicate Queue(q: seq<Scored>) {
    forall i, j :: 0 <= i < j < |q| ==> Before(q[i], q[j])
  }

  /** Heap push. */
  function Enqueue(q: seq<Scored>, e: Scored): (r: seq<Scored>)
    ensures |r| == |q| + 1
    ensures forall x :: x in r <==> x in q || x == e
  {
    if q == [] then [e]
    else if Before(e, q[0]) then [e] + q
    else
      var rest := Enqueue(q[1..], e);
      assert forall x :: x in q <==> x == q[0] || x in q[1..];
      [q[0]] + rest
  }

  lemma {:induction false} EnqueueKeepsQueue(q: seq<Scored>, e: Scored)
    requires Queue(q) && e !in q
    ensures Queue(Enqueue(q, e))
  {
    if q != [] && !Before(e, q[0]) {
      EnqueueKeepsQueue(q[1..], e);
      var rest := Enqueue(q[1..], e);
      assert Before(q[0], e);
      forall j | 0 <= j < |rest| ensures Before(q[0], rest[j]) {
        assert rest[j] in rest;
      }
    }
  }

  function Nodes(xs: seq<Scored>): (ns: seq<nat>)
    ensures |ns| == |xs|
    ensures forall i :: 0 <= i < |xs| ==> ns[i] == xs[i].node
  {
    seq(|xs|, i requires 0 <= i < |xs| => xs[i].node)
  }

  function ScoresOf(xs: seq<Scored>): (ns: seq<real>)
    ensures |ns| == |xs|
    ensures forall i :: 0 <= i < |xs| ==> ns[i] == xs[i].score
  {
    seq(|xs|, i requires 0 <= i < |xs| => xs[i].score)
  }

  ghost predicate NoDuplicates<T>(s: seq<T>) {
    forall i, j :: 0 <= i < j < |s| ==> s[i] != s[j]
  }

  lemma ConsDistinct<T>(first: T, rest: seq<T>)
    requires NoDuplicates(rest) && first !in rest
    ensures NoDuplicates([first] + rest)
    ensures forall x :: x in [first] + rest <==> x == first || x in rest
  {
    forall i | 0 <= i < |rest| ensures rest[i] != first { assert rest[i] in rest; }
  }

  /** A list without duplicates has as many entries as distinct elements. */
  lemma {:induction false} DistinctCount<T>(s: seq<T>, elems: set<T>)
    requires NoDuplicates(s)
    requires forall x :: x in s <==> x in elems
    ensures |elems| == |s|
  {
    if s == [] {
      assert elems == {};
    } else {
      var rest := elems - {s[0]};
      forall x ensures x in s[1..] <==> x in rest {
        if x in s[1..] { var i :| 0 <= i < |s[1..]| && s[1..][i] == x; assert s[0] != s[i + 1]; }
      }
      DistinctCount(s[1..], rest);
    }
  }

  // ---------- sorting by score only: std::sort leaves the order of ties open ----------

  ghost predicate Descending(xs: seq<Scored>) {
    forall i, j :: 0 <= i < j < |xs| ==> xs[i].score >= xs[j].score
  }

  /** `out` is what `std::sort` with "greater score first" may make of `xs`. */
  ghost predicate SortedCopy(out: seq<Scored>, xs: seq<Scored>) {
    multiset(out) == multiset(xs) && Descending(out)
  }

  lemma SortedCopyElements(out: seq<Scored>, xs: seq<Scored>)
    requires SortedCopy(out, xs)
    ensures |out| == |xs|
    ensures forall e :: e in out <==> e in xs
    ensures NoDuplicates(xs) ==> NoDuplicates(out)
  {
    assert |out| == |multiset(out)| == |multiset(xs)| == |xs|;
    assert forall e :: e in out <==> e in multiset(out);
    assert forall e :: e in xs <==> e in multiset(xs);
    if NoDuplicates(xs) {
      MultiplicityOne(xs);
      forall i, j | 0 <= i < j < |out| ensures out[i] != out[j] {
        assert out[i] in xs;
        if out[i] == out[j] { CountTwice(out, i, j); }
      }
    }
  }

  lemma NodesDistinctAfterSort(sorted: seq<Scored>, cands: seq<Scored>)
    requires SortedCopy(sorted, cands) && NoDuplicates(Nodes(cands))
    ensures NoDuplicates(Nodes(sorted))
  {
    forall i, j | 0 <= i < j < |cands| ensures cands[i] != cands[j] {
      assert Nodes(cands)[i] != Nodes(cands)[j];
    }
    SortedCopyElements(sorted, cands);
    forall i, j | 0 <= i < j < |sorted| ensures sorted[i].node != sorted[j].node {
      assert sorted[i] in cands && sorted[j] in cands;
      var a :| 0 <= a < |cands| && cands[a] == sorted[i];
      var b :| 0 <= b < |cands| && cands[b] == sorted[j];
      assert a != b;
      assert Nodes(cands)[a] != Nodes(cands)[b];
    }
  }

  lemma SameNodes(a: seq<Scored>, b: seq<Scored>)
    requires forall e :: e in a <==> e in b
    ensures forall v :: v in Nodes(a) <==> v in Nodes(b)
  {
    forall v | v in Nodes(a) ensures v in Nodes(b) {
      var i :| 0 <= i < |a| && Nodes(a)[i] == v;
      assert a[i] in b;
      var j :| 0 <= j < |b| && b[j] == a[i];
      assert Nodes(b)[j] == v;
    }
    forall v | v in Nodes(b) ensures v in Nodes(a) {
      var i :| 0 <= i < |b| && Nodes(b)[i] == v;
      assert b[i] in a;
      var j :| 0 <= j < |a| && a[j] == b[i];
      assert Nodes(a)[j] == v;
    }
  }

  lemma CountTwice<T>(s: seq<T>, i: nat, j: nat)
    requires i < j < |s| && s[i] == s[j]
    ensures multiset(s)[s[i]] >= 2
  {
    assert s == s[..j] + s[j..];
    assert s[..j][i] in multiset(s[..j]) && s[j..][0] in multiset(s[j..]);
  }

  lemma {:induction false} MultiplicityOne<T>(s: seq<T>)
    requires NoDuplicates(s)
    ensures forall x :: x in s ==> multiset(s)[x] == 1
  {
    if s != [] {
      MultiplicityOne(s[1..]);
      assert s == [s[0]] + s[1..];
      assert multiset(s) == multiset{s[0]} + multiset(s[1..]);
      assert s[0] !in s[1..];
    }
  }

  lemma SplicedIsCopy<T>(xs: seq<T>, e: T, at: nat)
    requires at <= |xs|
    ensures multiset(xs[..at] + [e] + xs[at..]) == multiset(xs + [e])
  {
    assert xs == xs[..at] + xs[at..];
  }

  /** `std::sort` by descending score; one of the orders it may choose. */
  function SortDescending(xs: seq<Scored>): (out: seq<Scored>)
    ensures SortedCopy(out, xs)
  {
    if xs == [] then []
    else
      var last := |xs| - 1;
      assert xs == xs[..last] + [xs[last]];
      PlaceScored(SortDescending(xs[..last]), xs[last])
  }

  function PlaceScored(xs: seq<Scored>, e: Scored): (out: seq<Scored>)
    requires Descending(xs)
    ensures SortedCopy(out, xs + [e])
  {
    var at := PlaceOf(xs, e);
    SplicedIsCopy(xs, e, at);
    xs[..at] + [e] + xs[at..]
  }

  /** Where `e` goes: before the first worse entry. */
  function PlaceOf(xs: seq<Scored>, e: Scored): (at: nat)
    requires Descending(xs)
    ensures at <= |xs|
    ensures forall i :: 0 <= i < at ==> xs[i].score >= e.score
    ensures forall i :: at <= i < |xs| ==> xs[i].score < e.score
  {
    if xs == [] || xs[|xs| - 1].score >= e.score then |xs|
    else PlaceOf(xs[..|xs| - 1], e)
  }

  // ---------- plain score sequences ----------

  ghost predicate DescendingReals(s: seq<real>) {
    forall i, j :: 0 <= i < j < |s| ==> s[i] >= s[j]
  }

  /** A descending sequence is determined by the multiset of its values: comparing score
      sequences is meaningful although tie order is not. */
  lemma {:induction false} DescendingUnique(a: seq<real>, b: seq<real>)
    requires DescendingReals(a) && DescendingReals(b)
    requires multiset(a) == multiset(b)
    ensures a == b
  {
    if a == [] {
      assert |b| == |multiset(b)| == |multiset(a)| == 0;
    } else {
      assert |b| == |multiset(b)| == |multiset(a)| == |a|;
      HeadIsGreatest(a, b);
      HeadIsGreatest(b, a);
      TailMultiset(a);
      TailMultiset(b);
      DescendingUnique(a[1..], b[1..]);
      assert a == [a[0]] + a[1..] && b == [b[0]] + b[1..];
    }
  }

  lemma HeadIsGreatest(a: seq<real>, b: seq<real>)
    requires a != [] && b != [] && DescendingReals(a)
    requires multiset(a) == multiset(b)
    ensures a[0] >= b[0]
  {
    assert b[0] in multiset(a);
  }

  lemma TailMultiset<T>(a: seq<T>)
    requires a != []
    ensures multiset(a[1..]) == multiset(a) - multiset{a[0]}
  {
    assert a == [a[0]] + a[1..];
  }

  function InsertReal(x: real, s: seq<real>): (r: seq<real>)
    ensures multiset(r) == multiset(s) + multiset{x}
  {
    if s == [] || x >= s[0] then [x] + s
    else
      assert s == [s[0]] + s[1..];
      [s[0]] + InsertReal(x, s[1..])
  }

  lemma {:induction false} InsertRealDescending(x: real, s: seq<real>)
    requires DescendingReals(s)
    ensures DescendingReals(InsertReal(x, s))
  {
    if s != [] && x < s[0] {
      InsertRealDescending(x, s[1..]);
      var r := InsertReal(x, s[1..]);
      forall j | 0 <= j < |r| ensures s[0] >= r[j] {
        assert r[j] in multiset(r);
        assert r[j] == x || r[j] in s[1..];
      }
    }
  }

  /** The reference ranking: all scores, best first. */
  function Ranked(s: seq<real>): (r: seq<real>)
    ensures multiset(r) == multiset(s)
  {
    if s == [] then []
    else
      assert s == [s[0]] + s[1..];
      InsertReal(s[0], Ranked(s[1..]))
  }

  lemma {:induction false} RankedIsDescending(s: seq<real>)
    ensures DescendingReals(Ranked(s))
  {
    if s != [] {
      RankedIsDescending(s[1..]);
      InsertRealDescending(s[0], Ranked(s[1..]));
    }
  }

  /** The only descending rearrangement of `s` is `Ranked(s)`. */
  lemma RankedUnique(out: seq<real>, s: seq<real>)
    requires multiset(out) == multiset(s) && DescendingReals(out)
    ensures out == Ranked(s)
  {
    RankedIsDescending(s);
    DescendingUnique(out, Ranked(s));
  }

  function TakeUpTo<T>(s: seq<T>, k: nat): (r: seq<T>)
    ensures |r| == if k <= |s| then k else |s|
    ensures r == s[..|r|]
  {
    if k <= |s| then s[..k] else s
  }
}
