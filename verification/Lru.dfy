/**
 The page cache's replacement order as a function of the access trace.

 A read moves its page to the front, evicting the last page if the cache is full and the page was
 missing; a push drops its page from the cache.
 */
module Lru {
  import opened Ranking

  function Remove(order: seq<nat>, page: nat): (r: seq<nat>)
    ensures page !in order ==> r == order
    ensures |r| <= |order|
  {
    if order == [] then []
    else if order[0] == page then order[1..]
    else [order[0]] + Remove(order[1..], page)
  }

  function EvictLast(order: seq<nat>, capacity: nat): seq<nat> {
    if |order| >= capacity && order != [] then order[..|order| - 1] else order
  }

  function Touch(order: seq<nat>, capacity: nat, page: nat): seq<nat> {
    if page in order then [page] + Remove(order, page)
    else [page] + EvictLast(order, capacity)
  }

  /** `Push` invalidates the page it writes, `Get` reads a page. */
  datatype Access = Push(page: nat) | Get(page: nat)

  function Apply(order: seq<nat>, capacity: nat, a: Access): seq<nat> {
    match a
    case Push(page) => Remove(order, page)
    case Get(page) => Touch(order, capacity, page)
  }

  /** The order list after a trace, starting with an empty cache. */
  function OrderAfter(capacity: nat, trace: seq<Access>): seq<nat> {
    if trace == [] then []
    else
      var last := |trace| - 1;
      Apply(OrderAfter(capacity, trace[..last]), capacity, trace[last])
  }

  /** How many reads of the trace find their page missing. */
  function Misses(capacity: nat, trace: seq<Access>): nat {
    if trace == [] then 0
    else
      var last := |trace| - 1;
      var a := trace[last];
      Misses(capacity, trace[..last]) + if a.Get? && a.page !in OrderAfter(capacity, trace[..last]) then 1 else 0
  }

  lemma OneMoreAccess(capacity: nat, trace: seq<Access>, a: Access)
    ensures OrderAfter(capacity, trace + [a]) == Apply(OrderAfter(capacity, trace), capacity, a)
    ensures Misses(capacity, trace + [a]) ==
            Misses(capacity, trace) + if a.Get? && a.page !in OrderAfter(capacity, trace) then 1 else 0
  {
    assert (trace + [a])[..|trace|] == trace;
  }

  // ---------- structure ----------

  lemma {:induction false} RemoveElements(order: seq<nat>, page: nat)
    requires NoDuplicates(order)
    ensures NoDuplicates(Remove(order, page))
    ensures forall x :: x in Remove(order, page) <==> x in order && x != page
    ensures page in order ==> |Remove(order, page)| == |order| - 1
  {
    if order != [] {
      var first, rest := order[0], order[1..];
      SplitFirst(order);
      if first != page {
        RemoveElements(rest, page);
        ConsDistinct(first, Remove(rest, page));
      }
    }
  }

  lemma SplitFirst(order: seq<nat>)
    requires order != [] && NoDuplicates(order)
    ensures NoDuplicates(order[1..]) && order[0] !in order[1..]
    ensures forall x :: x in order <==> x == order[0] || x in order[1..]
  {
    var rest := order[1..];
    forall i | 0 <= i < |rest| ensures rest[i] != order[0] { assert rest[i] == order[i + 1]; }
  }

  /** Whatever the trace, the order list has no duplicates and never exceeds the capacity. */
  lemma {:induction false} OrderBounded(capacity: nat, trace: seq<Access>)
    requires capacity >= 1
    ensures NoDuplicates(OrderAfter(capacity, trace)) && |OrderAfter(capacity, trace)| <= capacity
  {
    if trace != [] {
      var last := |trace| - 1;
      OrderBounded(capacity, trace[..last]);
      ApplyBounded(OrderAfter(capacity, trace[..last]), capacity, trace[last]);
    }
  }

  lemma ApplyBounded(order: seq<nat>, capacity: nat, a: Access)
    requires capacity >= 1 && NoDuplicates(order) && |order| <= capacity
    ensures NoDuplicates(Apply(order, capacity, a)) && |Apply(order, capacity, a)| <= capacity
  {
    RemoveElements(order, a.page);
    var rest := Remove(order, a.page);
    assert forall i :: 0 <= i < |rest| ==> rest[i] in rest;
    assert forall i :: 0 <= i < |order| ==> order[i] in order;
  }

  /**
   A read puts its page first.  A cached page keeps its company; a missing one costs the last page, and only if
   the cache is full.  A push takes its page out and leaves the rest as it is.
   */
  lemma OneAccess(capacity: nat, trace: seq<Access>, page: nat)
    requires capacity >= 1
    ensures
      var order, read := OrderAfter(capacity, trace), OrderAfter(capacity, trace + [Get(page)]);
      && read != [] && read[0] == page
      && (page !in order ==> read[1..] == if |order| < capacity then order else order[..capacity - 1])
      && (page in order ==> |read| == |order| && read[1..] == OrderAfter(capacity, trace + [Push(page)]))
    ensures
      var order, pushed := OrderAfter(capacity, trace), OrderAfter(capacity, trace + [Push(page)]);
      && (page !in order ==> pushed == order)
      && (forall i :: 0 <= i < |order| && order[i] == page ==> pushed == order[..i] + order[i + 1..])
  {
    OneMoreAccess(capacity, trace, Get(page));
    OneMoreAccess(capacity, trace, Push(page));
    OrderBounded(capacity, trace);
    var order := OrderAfter(capacity, trace);
    hide OrderAfter;
    RemoveElements(order, page);
    forall i | 0 <= i < |order| && order[i] == page ensures Remove(order, page) == order[..i] + order[i + 1..] {
      RemoveAt(order, i);
    }
  }

  lemma {:induction false} RemoveAt(order: seq<nat>, i: nat)
    requires NoDuplicates(order) && i < |order|
    ensures Remove(order, order[i]) == order[..i] + order[i + 1..]
  {
    if i > 0 {
      SplitFirst(order);
      RemoveAt(order[1..], i - 1);
      assert order[i] == order[1..][i - 1];
    }
  }

  // ---------- stack inclusion ----------

  lemma {:induction false} RemoveFromPrefix(small: seq<nat>, large: seq<nat>, page: nat)
    requires small <= large && NoDuplicates(large)
    ensures Remove(small, page) <= Remove(large, page)
  {
    if small != [] {
      if small[0] != page {
        assert forall i, j :: 0 <= i < j < |large[1..]| ==> large[1..][i] == large[i + 1] && large[1..][j] == large[j + 1];
        RemoveFromPrefix(small[1..], large[1..], page);
      }
    }
  }

  /** A page beyond the prefix can be removed without touching the prefix. */
  lemma {:induction false} RemoveBeyondPrefix(small: seq<nat>, large: seq<nat>, page: nat)
    requires small <= large && page !in small
    ensures small <= Remove(large, page)
  {
    if small != [] {
      assert small[0] in small;
      forall x | x in small[1..] ensures x in small {}
      RemoveBeyondPrefix(small[1..], large[1..], page);
      assert small == [small[0]] + small[1..];
    }
  }

  lemma TouchKeepsPrefix(small: seq<nat>, large: seq<nat>, capS: nat, capL: nat, page: nat)
    requires 1 <= capS <= capL && small <= large && NoDuplicates(large)
    requires |small| <= capS && |large| <= capL
    ensures Touch(small, capS, page) <= Touch(large, capL, page)
  {
    if page in small {
      assert page in large by {
        var i :| 0 <= i < |small| && small[i] == page;
        assert large[i] == page;
      }
      RemoveFromPrefix(small, large, page);
    } else if page in large {
      RemoveBeyondPrefix(small, large, page);
      assert EvictLast(small, capS) <= small;
    } else {
      assert EvictLast(small, capS) <= EvictLast(large, capL);
    }
  }

  /** For the same trace the smaller cache's order list is always a prefix of the larger one's. */
  lemma {:induction false} StackInclusion(capS: nat, capL: nat, trace: seq<Access>)
    requires 1 <= capS <= capL
    ensures OrderAfter(capS, trace) <= OrderAfter(capL, trace)
  {
    if trace != [] {
      var last := |trace| - 1;
      StackInclusion(capS, capL, trace[..last]);
      OrderBounded(capS, trace[..last]);
      OrderBounded(capL, trace[..last]);
      var small, large := OrderAfter(capS, trace[..last]), OrderAfter(capL, trace[..last]);
      match trace[last]
      case Push(page) => RemoveFromPrefix(small, large, page);
      case Get(page) => TouchKeepsPrefix(small, large, capS, capL, page);
    }
  }

  /** A larger budget never causes more misses. */
  lemma {:induction false} LargerCacheMissesLess(capS: nat, capL: nat, trace: seq<Access>)
    requires 1 <= capS <= capL
    ensures Misses(capL, trace) <= Misses(capS, trace)
  {
    if trace != [] {
      var last := |trace| - 1;
      LargerCacheMissesLess(capS, capL, trace[..last]);
      StackInclusion(capS, capL, trace[..last]);
      var small, large := OrderAfter(capS, trace[..last]), OrderAfter(capL, trace[..last]);
      if trace[last].page in small {
        var i :| 0 <= i < |small| && small[i] == trace[last].page;
        assert large[i] == trace[last].page;
      }
    }
  }
}
