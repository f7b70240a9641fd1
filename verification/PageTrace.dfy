/** What a store's cache holds, told from its history of pushes and reads alone. */
module PageTrace {
  import opened PageLayout
  import Lru

  /** A store as it was opened: its layout, its capacity in pages, and the file's length and vector count. */
  datatype Opened = Opened(width: nat, perPage: nat, capacity: nat, length: nat, count: nat)

  function Pushes(trace: seq<Lru.Access>): nat {
    if trace == [] then 0
    else Pushes(trace[..|trace| - 1]) + if trace[|trace| - 1].Push? then 1 else 0
  }

  function Longer(a: nat, b: nat): nat {
    if a < b then b else a
  }

  /** The file's length: each push extends it to the end of its slot. */
  function LengthAfter(o: Opened, trace: seq<Lru.Access>): nat
    requires o.perPage > 0
  {
    if trace == [] then o.length
    else
      var before := trace[..|trace| - 1];
      if trace[|trace| - 1].Push? then Longer(LengthAfter(o, before), Start(o.width, o.perPage, o.count + Pushes(before)) + o.width)
      else LengthAfter(o, before)
  }

  predicate Covers(length: nat, page: nat) {
    page * PAGE_SIZE + PAGE_SIZE <= length
  }

  /**
   The copy of a cached page is the file's, not a zero buffer: the read that last loaded it found the
   page covered by the pushes made up to then.
   */
  predicate FromFile(o: Opened, trace: seq<Lru.Access>, page: nat)
    requires o.perPage > 0
  {
    trace != [] &&
    var before, a := trace[..|trace| - 1], trace[|trace| - 1];
    if a == Lru.Get(page) && page !in Lru.OrderAfter(o.capacity, before) then Covers(LengthAfter(o, before), page)
    else FromFile(o, before, page)
  }

  /** Every push goes to the page of the next slot. */
  predicate PushesInOrder(o: Opened, trace: seq<Lru.Access>)
    requires o.perPage > 0
  {
    trace == [] ||
    var before, a := trace[..|trace| - 1], trace[|trace| - 1];
    PushesInOrder(o, before) && (a.Push? ==> a.page == PageOf(o.perPage, o.count + Pushes(before)))
  }

  lemma HistoryGrows(o: Opened, trace: seq<Lru.Access>, a: Lru.Access, page: nat)
    requires o.perPage > 0
    ensures Pushes(trace + [a]) == Pushes(trace) + if a.Push? then 1 else 0
    ensures LengthAfter(o, trace + [a]) ==
            if a.Push? then Longer(LengthAfter(o, trace), Start(o.width, o.perPage, o.count + Pushes(trace)) + o.width)
            else LengthAfter(o, trace)
    ensures FromFile(o, trace + [a], page) ==
            if a == Lru.Get(page) && page !in Lru.OrderAfter(o.capacity, trace) then Covers(LengthAfter(o, trace), page)
            else FromFile(o, trace, page)
    ensures PushesInOrder(o, trace + [a]) ==
            (PushesInOrder(o, trace) && (a.Push? ==> a.page == PageOf(o.perPage, o.count + Pushes(trace))))
  {
    assert (trace + [a])[..|trace|] == trace;
  }

  /** A store filled from empty is as long as its last vector reaches. */
  lemma {:induction false} LengthFromEmpty(o: Opened, trace: seq<Lru.Access>)
    requires Usable(o.width, o.perPage) && o.length == o.count == 0
    ensures LengthAfter(o, trace) == if Pushes(trace) == 0 then 0 else Start(o.width, o.perPage, Pushes(trace) - 1) + o.width
  {
    if trace != [] {
      var before := trace[..|trace| - 1];
      LengthFromEmpty(o, before);
      if Pushes(before) > 0 { NextSlot(o.width, o.perPage, Pushes(before) - 1); }
    }
  }

  // ---------- no stale page among those the file covered when it was opened ----------

  lemma {:induction false} NeverShorter(o: Opened, trace: seq<Lru.Access>)
    requires o.perPage > 0
    ensures o.length <= LengthAfter(o, trace)
  {
    if trace != [] { NeverShorter(o, trace[..|trace| - 1]); }
  }

  /** Every cached copy of a page that the file covered when the store was opened is the file's. */
  lemma {:induction false} OpenedPagesServed(o: Opened, trace: seq<Lru.Access>, page: nat)
    requires o.perPage > 0 && o.capacity >= 1 && Covers(o.length, page) && page in Lru.OrderAfter(o.capacity, trace)
    ensures FromFile(o, trace, page)
  {
    if trace != [] {
      var before, a := trace[..|trace| - 1], trace[|trace| - 1];
      assert trace == before + [a];
      NeverShorter(o, before);
      StillThere(o.capacity, before, a, page);
      if page in Lru.OrderAfter(o.capacity, before) { OpenedPagesServed(o, before, page); }
    }
  }

  // ---------- no stale page where vectors fill their pages ----------

  predicate ExactFit(o: Opened) {
    HEADER + o.perPage * o.width == PAGE_SIZE
  }

  /** Then the file never ends before the page the next push goes to. */
  lemma {:induction false} FullPagesBehind(o: Opened, trace: seq<Lru.Access>)
    requires Usable(o.width, o.perPage) && ExactFit(o) && PageOf(o.perPage, o.count) * PAGE_SIZE <= o.length
    ensures PageOf(o.perPage, o.count + Pushes(trace)) * PAGE_SIZE <= LengthAfter(o, trace)
  {
    if trace != [] {
      var before := trace[..|trace| - 1];
      FullPagesBehind(o, before);
      if trace[|trace| - 1].Push? { FullPageEnds(o, o.count + Pushes(before)); }
    }
  }

  /** The slot before a new page ends where that page begins. */
  lemma FullPageEnds(o: Opened, slot: nat)
    requires Usable(o.width, o.perPage) && ExactFit(o)
    ensures PageOf(o.perPage, slot + 1) * PAGE_SIZE <= Longer(PageOf(o.perPage, slot) * PAGE_SIZE, Start(o.width, o.perPage, slot) + o.width)
  {
    DivStep(slot, o.perPage);
    var r := slot % o.perPage;
    assert (r + 1) * o.width == r * o.width + o.width;
  }

  /** A page becomes covered by a push to that page itself. */
  lemma CoveredByOwnPush(o: Opened, length: nat, slot: nat, page: nat)
    requires Usable(o.width, o.perPage) && PageOf(o.perPage, slot) * PAGE_SIZE <= length && page != PageOf(o.perPage, slot)
    ensures Covers(Longer(length, Start(o.width, o.perPage, slot) + o.width), page) <==> Covers(length, page)
  {
    SlotInsidePage(o.width, o.perPage, slot);
    var target := PageOf(o.perPage, slot);
    if page < target { MulLeft(page + 1, target, PAGE_SIZE); } else { MulLeft(target + 1, page, PAGE_SIZE); }
  }

  /** So where vectors fill their pages to the last byte, every cached copy of a covered page is the file's. */
  lemma {:induction false} ExactFitNeverStale(o: Opened, trace: seq<Lru.Access>, page: nat)
    requires Usable(o.width, o.perPage) && ExactFit(o) && PageOf(o.perPage, o.count) * PAGE_SIZE <= o.length
    requires o.capacity >= 1 && PushesInOrder(o, trace) && page in Lru.OrderAfter(o.capacity, trace)
    ensures FromFile(o, trace, page) <==> Covers(LengthAfter(o, trace), page)
  {
    if trace != [] {
      var before, a := trace[..|trace| - 1], trace[|trace| - 1];
      assert trace == before + [a];
      if page in Lru.OrderAfter(o.capacity, before) { ExactFitNeverStale(o, before, page); }
      ExactFitStep(o, before, a, page);
    }
  }

  lemma ExactFitStep(o: Opened, before: seq<Lru.Access>, a: Lru.Access, page: nat)
    requires Usable(o.width, o.perPage) && ExactFit(o) && PageOf(o.perPage, o.count) * PAGE_SIZE <= o.length
    requires o.capacity >= 1 && PushesInOrder(o, before + [a]) && page in Lru.OrderAfter(o.capacity, before + [a])
    requires page in Lru.OrderAfter(o.capacity, before) ==> (FromFile(o, before, page) <==> Covers(LengthAfter(o, before), page))
    ensures FromFile(o, before + [a], page) <==> Covers(LengthAfter(o, before + [a]), page)
  {
    FullPagesBehind(o, before);
    hide Start, PageOf, Covers, FromFile, LengthAfter, PushesInOrder, Pushes, Lru.OrderAfter, Usable, ExactFit;
    StillThere(o.capacity, before, a, page);
    if a.Push? { ExactFitPush(o, before, a, page); } else { HistoryGrows(o, before, a, page); }
  }

  lemma ExactFitPush(o: Opened, before: seq<Lru.Access>, a: Lru.Access, page: nat)
    requires Usable(o.width, o.perPage) && a.Push? && page != a.page && PushesInOrder(o, before + [a])
    requires PageOf(o.perPage, o.count + Pushes(before)) * PAGE_SIZE <= LengthAfter(o, before)
    requires FromFile(o, before, page) <==> Covers(LengthAfter(o, before), page)
    ensures FromFile(o, before + [a], page) <==> Covers(LengthAfter(o, before + [a]), page)
  {
    assert o.perPage > 0;
    hide Start, PageOf, Covers, FromFile, LengthAfter, PushesInOrder, Pushes, Lru.OrderAfter, Usable;
    HistoryGrows(o, before, a, page);
    CoveredByOwnPush(o, LengthAfter(o, before), o.count + Pushes(before), page);
  }

  /** A page in the order after an access was there before, unless the access read it; it was not the page pushed to. */
  lemma StillThere(capacity: nat, before: seq<Lru.Access>, a: Lru.Access, page: nat)
    requires capacity >= 1 && page in Lru.OrderAfter(capacity, before + [a])
    ensures a.Push? ==> page in Lru.OrderAfter(capacity, before) && page != a.page
    ensures a.Get? && page != a.page ==> page in Lru.OrderAfter(capacity, before)
  {
    Lru.OneMoreAccess(capacity, before, a);
    Lru.OrderBounded(capacity, before);
    hide Lru.OrderAfter;
    Lru.RemoveElements(Lru.OrderAfter(capacity, before), a.page);
  }

  // ---------- a stale page where they do not ----------

  /** One vector of 2400 bytes per page leaves the rest of the page empty. */
  predicate OnePerPage(o: Opened) {
    o.width == 2400 && o.perPage == 1 && o.capacity >= 1 && o.length == o.count == 0
  }

  lemma PageOfEach(slot: nat)
    ensures PageOf(1, slot) == slot && Start(2400, 1, slot) == slot * PAGE_SIZE + HEADER
  {
    DivUnique(slot, 1, slot, 0);
  }

  lemma AfterPush(o: Opened)
    requires OnePerPage(o)
    ensures
      var trace := [Lru.Push(0)];
      && Pushes(trace) == 1 && PushesInOrder(o, trace) && LengthAfter(o, trace) == HEADER + 2400
      && Lru.OrderAfter(o.capacity, trace) == []
  {
    var none: seq<Lru.Access> := [];
    PageOfEach(0);
    hide PageOf, Start;
    HistoryGrows(o, none, Lru.Push(0), 0);
    Lru.OneMoreAccess(o.capacity, none, Lru.Push(0));
    assert none + [Lru.Push(0)] == [Lru.Push(0)];
  }

  lemma AfterRead(o: Opened)
    requires OnePerPage(o)
    ensures
      var trace := [Lru.Push(0), Lru.Get(0)];
      && Pushes(trace) == 1 && PushesInOrder(o, trace) && LengthAfter(o, trace) == HEADER + 2400
      && Lru.OrderAfter(o.capacity, trace) == [0] && !FromFile(o, trace, 0)
  {
    AfterPush(o);
    hide PageOf, Start, Pushes, PushesInOrder, LengthAfter, FromFile, Lru.OrderAfter;
    HistoryGrows(o, [Lru.Push(0)], Lru.Get(0), 0);
    Lru.OneMoreAccess(o.capacity, [Lru.Push(0)], Lru.Get(0));
    assert [Lru.Push(0)] + [Lru.Get(0)] == [Lru.Push(0), Lru.Get(0)];
  }

  /** Without that fit a cached copy can be stale: one vector per page, push, read, push. */
  lemma StaleWithoutFit(o: Opened)
    requires o.width == 2400 && o.perPage == 1 && o.capacity >= 1 && o.length == o.count == 0
    ensures
      var trace := [Lru.Push(0), Lru.Get(0), Lru.Push(1)];
      && PushesInOrder(o, trace) && 0 in Lru.OrderAfter(o.capacity, trace)
      && Covers(LengthAfter(o, trace), 0) && !FromFile(o, trace, 0)
  {
    AfterRead(o);
    PageOfEach(1);
    hide PageOf, Start, Pushes, PushesInOrder, LengthAfter, FromFile, Lru.OrderAfter;
    HistoryGrows(o, [Lru.Push(0), Lru.Get(0)], Lru.Push(1), 0);
    Lru.OneMoreAccess(o.capacity, [Lru.Push(0), Lru.Get(0)], Lru.Push(1));
    assert [Lru.Push(0), Lru.Get(0)] + [Lru.Push(1)] == [Lru.Push(0), Lru.Get(0), Lru.Push(1)];
  }
}
