/** Where vectors live in the page file, and what a push writes. */
module PageLayout {
  import opened Bytes

  const PAGE_SIZE := 4096
  const HEADER := 8

  /** Vectors per page for vectors of `width` bytes. */
  function PerPage(width: nat): nat
    requires width > 0
  {
    (PAGE_SIZE - HEADER) / width
  }

  /** A usable layout: vectors of `width` bytes, at least one per page. */
  predicate Usable(width: nat, perPage: nat) {
    width > 0 && perPage > 0 && perPage == PerPage(width)
  }

  function PageOf(perPage: nat, slot: nat): nat
    requires perPage > 0
  {
    slot / perPage
  }

  /** Byte offset of a slot inside its page. */
  function Inside(width: nat, perPage: nat, slot: nat): nat
    requires perPage > 0
  {
    HEADER + slot % perPage * width
  }

  function Start(width: nat, perPage: nat, slot: nat): nat
    requires perPage > 0
  {
    PageOf(perPage, slot) * PAGE_SIZE + Inside(width, perPage, slot)
  }

  // ---------- geometry ----------

  lemma MulLeft(a: nat, b: nat, c: nat)
    requires a <= b
    ensures a * c <= b * c
  {
  }

  lemma DivRoom(n: nat, d: nat)
    requires d > 0
    ensures n / d * d <= n
  {
  }

  /** A slot lies behind its page's header and inside its page. */
  lemma SlotInsidePage(width: nat, perPage: nat, slot: nat)
    requires Usable(width, perPage)
    ensures HEADER <= Inside(width, perPage, slot) && Inside(width, perPage, slot) + width <= PAGE_SIZE
  {
    var r := slot % perPage;
    MulLeft(r + 1, perPage, width);
    DivRoom(PAGE_SIZE - HEADER, width);
    assert (r + 1) * width == r * width + width;
  }

  /** The next slot starts where this one ends, or on the next page. */
  lemma NextSlot(width: nat, perPage: nat, slot: nat)
    requires Usable(width, perPage)
    ensures Start(width, perPage, slot) + width <= Start(width, perPage, slot + 1)
    ensures PageOf(perPage, slot + 1) == PageOf(perPage, slot) ==> Start(width, perPage, slot + 1) == Start(width, perPage, slot) + width
    ensures PageOf(perPage, slot + 1) == if (slot + 1) % perPage == 0 then PageOf(perPage, slot) + 1 else PageOf(perPage, slot)
  {
    SlotInsidePage(width, perPage, slot);
    DivStep(slot, perPage);
    var r := slot % perPage;
    if (slot + 1) % perPage != 0 {
      assert (r + 1) * width == r * width + width;
    }
  }

  lemma DivStep(n: nat, d: nat)
    requires d > 0
    ensures if (n + 1) % d == 0 then (n + 1) / d == n / d + 1 && n % d == d - 1
            else (n + 1) / d == n / d && (n + 1) % d == n % d + 1
  {
    DivStepAt(n, d, n / d, n % d);
  }

  lemma DivStepAt(n: nat, d: nat, q: nat, r: nat)
    requires d > 0 && r < d && n == q * d + r
    ensures r == d - 1 ==> (n + 1) / d == q + 1 && (n + 1) % d == 0
    ensures r < d - 1 ==> (n + 1) / d == q && (n + 1) % d == r + 1
  {
    if r == d - 1 {
      assert (q + 1) * d == q * d + d;
      DivUnique(n + 1, d, q + 1, 0);
    } else {
      DivUnique(n + 1, d, q, r + 1);
    }
  }

  lemma DivUnique(n: nat, d: nat, q: nat, r: nat)
    requires d > 0 && r < d && n == q * d + r
    ensures n / d == q && n % d == r
  {
    var k := n / d;
    assert n == k * d + n % d;
    assert (k + 1) * d == k * d + d && (q + 1) * d == q * d + d;
    if k < q {
      MulLeft(k + 1, q, d);
    } else if q < k {
      MulLeft(q + 1, k, d);
    }
  }

  lemma SameQuotient(n: nat, d: nat)
    requires d > 0 && n % d != 0
    ensures n >= 1 && n / d == (n - 1) / d
  {
    if n == 0 { DivUnique(0, d, 0, 0); } else { DivStep(n - 1, d); }
  }

  /** Slot ranges are pairwise disjoint and in slot order. */
  lemma {:induction false} SlotsDisjoint(width: nat, perPage: nat, a: nat, b: nat)
    requires Usable(width, perPage) && a < b
    ensures Start(width, perPage, a) + width <= Start(width, perPage, b)
    decreases b - a
  {
    NextSlot(width, perPage, b - 1);
    if a < b - 1 { SlotsDisjoint(width, perPage, a, b - 1); }
  }

  // ---------- the file ----------

  /** `pwrite`: overwrite a range, growing the file with zero bytes where needed. */
  function Pwrite(file: Data, at: nat, data: Data): (r: Data)
    ensures |r| == if |file| < at + |data| then at + |data| else |file|
    ensures forall i :: 0 <= i < |r| ==>
      r[i] == if at <= i < at + |data| then data[i - at] else if i < |file| then file[i] else 0
  {
    var size := if |file| < at + |data| then at + |data| else |file|;
    seq(size, i requires 0 <= i < size => if at <= i < at + |data| then data[i - at] else if i < |file| then file[i] else 0)
  }

  /** What `push` does to the file: the vector, and the page number for the first slot of a page. */
  function FilePush(file: Data, perPage: nat, slot: nat, vec: Vec): Data
    requires perPage > 0
  {
    var written := Pwrite(file, Start(4 * |vec|, perPage, slot), LeWords(vec));
    if slot % perPage == 0 then Pwrite(written, PageOf(perPage, slot) * PAGE_SIZE, Le32(Low32(PageOf(perPage, slot)))) else written
  }

  ghost predicate Stored(file: Data, perPage: nat, slot: nat, vec: Vec)
    requires perPage > 0
  {
    var at := Start(4 * |vec|, perPage, slot);
    at + 4 * |vec| <= |file| && file[at..at + 4 * |vec|] == LeWords(vec)
  }

  /** The slot's page starts with its page number. */
  ghost predicate Headed(file: Data, perPage: nat, slot: nat)
    requires perPage > 0
  {
    var base := PageOf(perPage, slot) * PAGE_SIZE;
    base + 4 <= |file| && file[base..base + 4] == Le32(Low32(PageOf(perPage, slot)))
  }

  /** The file holds the given vectors in its first slots; behind them anything may follow. */
  ghost predicate AllStored(file: Data, dim: nat, perPage: nat, pushed: seq<Vec>) {
    && Usable(4 * dim, perPage)
    && (forall s :: 0 <= s < |pushed| ==> |pushed[s]| == dim && Stored(file, perPage, s, pushed[s]))
  }

  /** The file holds exactly the pushed vectors, on numbered pages, and ends with the last of them. */
  ghost predicate FileOk(file: Data, dim: nat, perPage: nat, pushed: seq<Vec>) {
    && AllStored(file, dim, perPage, pushed)
    && |file| == (if pushed == [] then 0 else Start(4 * dim, perPage, |pushed| - 1) + 4 * dim)
    && (forall s :: 0 <= s < |pushed| ==> Headed(file, perPage, s))
  }

  /** The file covers the whole page. */
  predicate Covered(file: Data, page: nat) {
    page * PAGE_SIZE + PAGE_SIZE <= |file|
  }

  function PageBytes(file: Data, page: nat): (r: Data)
    requires Covered(file, page)
    ensures |r| == PAGE_SIZE
  {
    file[page * PAGE_SIZE..page * PAGE_SIZE + PAGE_SIZE]
  }

  /** Everything before the slot being pushed ends before it; its page is not covered yet. */
  lemma PushTarget(file: Data, dim: nat, perPage: nat, pushed: seq<Vec>)
    requires FileOk(file, dim, perPage, pushed)
    ensures
      var slot := |pushed|;
      var base := PageOf(perPage, slot) * PAGE_SIZE;
      && |file| <= Start(4 * dim, perPage, slot)
      && base + HEADER <= Start(4 * dim, perPage, slot)
      && Start(4 * dim, perPage, slot) + 4 * dim <= base + PAGE_SIZE
      && (slot % perPage == 0 ==> |file| <= base)
  {
    var slot := |pushed|;
    SlotInsidePage(4 * dim, perPage, slot);
    if pushed != [] {
      NextSlot(4 * dim, perPage, slot - 1);
      SlotInsidePage(4 * dim, perPage, slot - 1);
    }
  }

  /** A push writes inside one page and never shortens the file: every other page stays as it was. */
  lemma PushStaysOnPage(file: Data, perPage: nat, slot: nat, vec: Vec, page: nat)
    requires Usable(4 * |vec|, perPage) && page != PageOf(perPage, slot) && Covered(file, page)
    ensures Covered(FilePush(file, perPage, slot, vec), page)
    ensures PageBytes(FilePush(file, perPage, slot, vec), page) == PageBytes(file, page)
  {
    SlotInsidePage(4 * |vec|, perPage, slot);
    var after := FilePush(file, perPage, slot, vec);
    var base := page * PAGE_SIZE;
    assert forall i :: base <= i < base + PAGE_SIZE ==> after[i] == file[i];
  }

  /** A push onto the end appends: what the file held stays, and the new vector's bytes come last. */
  lemma PushAppends(file: Data, dim: nat, perPage: nat, pushed: seq<Vec>, vec: Vec)
    requires FileOk(file, dim, perPage, pushed) && |vec| == dim
    ensures
      var after := FilePush(file, perPage, |pushed|, vec);
      && |after| == Start(4 * dim, perPage, |pushed|) + 4 * dim
      && file <= after
      && after[Start(4 * dim, perPage, |pushed|)..] == LeWords(vec)
      && (|pushed| % perPage == 0 ==> Headed(after, perPage, |pushed|))
  {
    PushTarget(file, dim, perPage, pushed);
    var slot := |pushed|;
    var at := Start(4 * dim, perPage, slot);
    var base := PageOf(perPage, slot) * PAGE_SIZE;
    WrittenAtEnd(file, at, LeWords(vec), base, slot % perPage == 0, Le32(Low32(PageOf(perPage, slot))));
  }

  lemma WrittenAtEnd(file: Data, at: nat, data: Data, base: nat, first: bool, header: Data)
    requires |file| <= at && |header| == 4 && base + HEADER <= at && (first ==> |file| <= base)
    ensures
      var written := Pwrite(file, at, data);
      var after := if first then Pwrite(written, base, header) else written;
      && |after| == at + |data| && file <= after && after[at..] == data
      && (first ==> after[base..base + 4] == header)
  {
  }

  /** After a push the file holds the pushed vectors and the new one. */
  lemma PushKeepsFile(file: Data, dim: nat, perPage: nat, pushed: seq<Vec>, vec: Vec)
    requires FileOk(file, dim, perPage, pushed) && |vec| == dim
    ensures FileOk(FilePush(file, perPage, |pushed|, vec), dim, perPage, pushed + [vec])
  {
    PushAppends(file, dim, perPage, pushed, vec);
    PushHeads(file, dim, perPage, pushed, vec);
    PushStores(file, dim, perPage, pushed, vec);
  }

  lemma PushHeads(file: Data, dim: nat, perPage: nat, pushed: seq<Vec>, vec: Vec)
    requires FileOk(file, dim, perPage, pushed) && |vec| == dim
    ensures forall s :: 0 <= s <= |pushed| ==> Headed(FilePush(file, perPage, |pushed|, vec), perPage, s)
  {
    PushAppends(file, dim, perPage, pushed, vec);
    var after := FilePush(file, perPage, |pushed|, vec);
    hide FilePush, Start, Headed, Stored;
    forall s | 0 <= s <= |pushed| ensures Headed(after, perPage, s) {
      HeadAfterPush(file, after, perPage, |pushed|, s);
    }
  }

  lemma HeadAfterPush(file: Data, after: Data, perPage: nat, n: nat, s: nat)
    requires perPage > 0 && file <= after && s <= n
    requires forall i :: 0 <= i < n ==> Headed(file, perPage, i)
    requires n % perPage == 0 ==> Headed(after, perPage, n)
    ensures Headed(after, perPage, s)
  {
    hide Headed, PageOf;
    if s < n {
      HeadedInLonger(file, after, perPage, s, s);
    } else if s % perPage != 0 {
      SamePageAsBefore(perPage, s);
      HeadedInLonger(file, after, perPage, s - 1, s);
    }
  }

  lemma PushStores(file: Data, dim: nat, perPage: nat, pushed: seq<Vec>, vec: Vec)
    requires FileOk(file, dim, perPage, pushed) && |vec| == dim
    ensures
      var after := FilePush(file, perPage, |pushed|, vec);
      forall s :: 0 <= s <= |pushed| ==> |(pushed + [vec])[s]| == dim && Stored(after, perPage, s, (pushed + [vec])[s])
  {
    PushAppends(file, dim, perPage, pushed, vec);
    var after := FilePush(file, perPage, |pushed|, vec);
    var all := pushed + [vec];
    hide FilePush, Start, Headed, Stored;
    StoredAtEnd(after, perPage, |pushed|, vec);
    forall s | 0 <= s <= |pushed| ensures |all[s]| == dim && Stored(after, perPage, s, all[s]) {
      if s < |pushed| {
        assert Stored(file, perPage, s, pushed[s]);
        StoredInLonger(file, after, perPage, s, pushed[s]);
      }
    }
  }

  lemma StoredAtEnd(file: Data, perPage: nat, slot: nat, vec: Vec)
    requires perPage > 0 && |file| == Start(4 * |vec|, perPage, slot) + 4 * |vec|
    requires file[Start(4 * |vec|, perPage, slot)..] == LeWords(vec)
    ensures Stored(file, perPage, slot, vec)
  {
    hide Start, LeWords, PageOf, Inside;
    SliceToEnd(file, Start(4 * |vec|, perPage, slot), 4 * |vec|);
  }

  lemma SliceToEnd(file: Data, at: nat, size: nat)
    requires |file| == at + size
    ensures file[at..at + size] == file[at..]
  {
  }

  lemma HeadedInLonger(file: Data, longer: Data, perPage: nat, slot: nat, other: nat)
    requires perPage > 0 && Headed(file, perPage, slot) && file <= longer && PageOf(perPage, other) == PageOf(perPage, slot)
    ensures Headed(longer, perPage, other)
  {
    var base := PageOf(perPage, slot) * PAGE_SIZE;
    assert longer[base..base + 4] == file[base..base + 4];
  }

  lemma SamePageAsBefore(perPage: nat, slot: nat)
    requires perPage > 0 && slot % perPage != 0
    ensures slot >= 1 && PageOf(perPage, slot) == PageOf(perPage, slot - 1)
  {
    SameQuotient(slot, perPage);
  }

  lemma StoredInLonger(file: Data, longer: Data, perPage: nat, slot: nat, vec: Vec)
    requires perPage > 0 && Stored(file, perPage, slot, vec) && file <= longer
    ensures Stored(longer, perPage, slot, vec)
  {
    var at := Start(4 * |vec|, perPage, slot);
    assert longer[at..at + 4 * |vec|] == file[at..at + 4 * |vec|];
  }

  // ---------- pushing into a file that holds more than the count says ----------

  /** Slots before the one being pushed end before anything the push writes. */
  lemma OlderSlotsBelow(width: nat, perPage: nat, s: nat, slot: nat)
    requires Usable(width, perPage) && s < slot
    ensures Start(width, perPage, s) + width <= Start(width, perPage, slot)
    ensures slot % perPage == 0 ==> Start(width, perPage, s) + width <= PageOf(perPage, slot) * PAGE_SIZE
  {
    SlotsDisjoint(width, perPage, s, slot);
    NextSlot(width, perPage, slot - 1);
    SlotInsidePage(width, perPage, slot - 1);
    if s < slot - 1 { SlotsDisjoint(width, perPage, s, slot - 1); }
  }

  /** Bytes below both writes stay; the vector is not touched by the page number. */
  lemma WrittenInside(file: Data, at: nat, data: Data, base: nat, first: bool, header: Data, lo: nat, hi: nat)
    requires |header| == 4 && base + HEADER <= at
    requires lo <= hi <= |file| && hi <= at && (first ==> hi <= base)
    ensures
      var written := Pwrite(file, at, data);
      var after := if first then Pwrite(written, base, header) else written;
      && at + |data| <= |after| && after[at..at + |data|] == data
      && hi <= |after| && after[lo..hi] == file[lo..hi]
  {
  }

  lemma PushedIsStored(file: Data, perPage: nat, slot: nat, vec: Vec)
    requires Usable(4 * |vec|, perPage)
    ensures Stored(FilePush(file, perPage, slot, vec), perPage, slot, vec)
  {
    hide Pwrite, LeWords, Le32, Low32, PageOf, Inside, Start;
    TargetBehindHeader(4 * |vec|, perPage, slot);
    WrittenInside(file, Start(4 * |vec|, perPage, slot), LeWords(vec), PageOf(perPage, slot) * PAGE_SIZE,
                  slot % perPage == 0, Le32(Low32(PageOf(perPage, slot))), 0, 0);
  }

  lemma OlderIsStored(file: Data, perPage: nat, slot: nat, vec: Vec, s: nat, older: Vec)
    requires Usable(4 * |vec|, perPage) && s < slot && |older| == |vec| && Stored(file, perPage, s, older)
    ensures Stored(FilePush(file, perPage, slot, vec), perPage, s, older)
  {
    hide Pwrite, LeWords, Le32, Low32, PageOf, Inside, Start;
    TargetBehindHeader(4 * |vec|, perPage, slot);
    OlderSlotsBelow(4 * |vec|, perPage, s, slot);
    var at := Start(4 * |vec|, perPage, s);
    WrittenInside(file, Start(4 * |vec|, perPage, slot), LeWords(vec), PageOf(perPage, slot) * PAGE_SIZE,
                  slot % perPage == 0, Le32(Low32(PageOf(perPage, slot))), at, at + 4 * |vec|);
  }

  lemma TargetBehindHeader(width: nat, perPage: nat, slot: nat)
    requires Usable(width, perPage)
    ensures PageOf(perPage, slot) * PAGE_SIZE + HEADER <= Start(width, perPage, slot)
  {
    SlotInsidePage(width, perPage, slot);
  }

  /** Whatever lies behind the stored vectors, a push into the slot after them keeps them and stores its own. */
  lemma PushKeepsStored(file: Data, dim: nat, perPage: nat, pushed: seq<Vec>, vec: Vec)
    requires AllStored(file, dim, perPage, pushed) && |vec| == dim
    ensures AllStored(FilePush(file, perPage, |pushed|, vec), dim, perPage, pushed + [vec])
  {
    var after := FilePush(file, perPage, |pushed|, vec);
    var all := pushed + [vec];
    hide FilePush, Stored;
    forall s | 0 <= s < |all| ensures |all[s]| == dim && Stored(after, perPage, s, all[s]) {
      if s < |pushed| {
        OlderIsStored(file, perPage, |pushed|, vec, s, pushed[s]);
      } else {
        PushedIsStored(file, perPage, |pushed|, vec);
      }
    }
  }

  /** Pushing onto the end never writes a page the file already fully covers. */
  lemma CoveredPagesStay(file: Data, dim: nat, perPage: nat, pushed: seq<Vec>, vec: Vec, page: nat)
    requires FileOk(file, dim, perPage, pushed) && |vec| == dim && Covered(file, page)
    ensures page < PageOf(perPage, |pushed|)
    ensures
      var after := FilePush(file, perPage, |pushed|, vec);
      Covered(after, page) && PageBytes(after, page) == PageBytes(file, page)
  {
    PushTarget(file, dim, perPage, pushed);
    BelowTarget(|file|, Start(4 * dim, perPage, |pushed|), PageOf(perPage, |pushed|), page);
    PushStaysOnPage(file, perPage, |pushed|, vec, page);
  }

  lemma BelowTarget(length: nat, at: nat, target: nat, page: nat)
    requires length <= at && at < target * PAGE_SIZE + PAGE_SIZE && page * PAGE_SIZE + PAGE_SIZE <= length
    ensures page < target
  {
  }

  // ---------- reopening ----------

  /** The vector count a freshly opened store assumes: whole pages only. */
  function CountOnDisk(file: Data, perPage: nat): nat {
    |file| / PAGE_SIZE * perPage
  }

  /**
   Reopening a file forgets the vectors of its last page unless that page is full and its vectors
   fill it to the last byte.
   */
  lemma ReopenKeepsCountIff(file: Data, dim: nat, perPage: nat, pushed: seq<Vec>)
    requires FileOk(file, dim, perPage, pushed)
    ensures CountOnDisk(file, perPage) <= |pushed|
    ensures CountOnDisk(file, perPage) == |pushed| <==>
      pushed == [] || (|pushed| % perPage == 0 && HEADER + perPage * (4 * dim) == PAGE_SIZE)
  {
    if pushed != [] {
      ReopenLast(dim, perPage, |pushed| - 1);
    }
  }

  /** The count after reopening, with the page's 4096 bytes and its header's 8 written out. */
  lemma ReopenedCount(file: Data, dim: nat, perPage: nat, pushed: seq<Vec>)
    requires FileOk(file, dim, perPage, pushed)
    ensures
      CountOnDisk(file, perPage) ==
      if pushed == [] then 0
      else if 8 + perPage * (4 * dim) == 4096 then |pushed| / perPage * perPage
      else (|pushed| - 1) / perPage * perPage
  {
    if pushed != [] {
      var last := |pushed| - 1;
      RowEnd(4 * dim, perPage, last);
      ReopenAt(4 * dim, perPage, last / perPage, last % perPage, |file|);
      DivStep(last, perPage);
      assert (last / perPage + 1) * perPage == last / perPage * perPage + perPage;
    }
  }

  /** Every slot a reopened store counts lies on a page of 4096 bytes that the file covers. */
  lemma CountedIsCovered(file: Data, perPage: nat, slot: nat)
    requires perPage > 0 && slot < CountOnDisk(file, perPage)
    ensures slot / perPage * 4096 + 4096 <= |file|
  {
    var pages, page := |file| / PAGE_SIZE, slot / perPage;
    WholePages(slot, perPage);
    DivRoom(|file|, PAGE_SIZE);
    if pages <= page { MulLeft(pages, page, perPage); }
  }

  lemma ReopenLast(dim: nat, perPage: nat, last: nat)
    requires Usable(4 * dim, perPage)
    ensures
      var count := (Start(4 * dim, perPage, last) + 4 * dim) / PAGE_SIZE * perPage;
      && count <= last + 1
      && (count == last + 1 <==> (last + 1) % perPage == 0 && HEADER + perPage * (4 * dim) == PAGE_SIZE)
  {
    RowEnd(4 * dim, perPage, last);
    hide Start;
    ReopenRow(4 * dim, perPage, last, Start(4 * dim, perPage, last) + 4 * dim);
  }

  lemma ReopenRow(width: nat, perPage: nat, last: nat, length: nat)
    requires Usable(width, perPage) && HEADER + (last % perPage + 1) * width <= PAGE_SIZE
    requires length == last / perPage * PAGE_SIZE + (HEADER + (last % perPage + 1) * width)
    ensures length / PAGE_SIZE * perPage <= last + 1
    ensures length / PAGE_SIZE * perPage == last + 1 <==> (last + 1) % perPage == 0 && HEADER + perPage * width == PAGE_SIZE
  {
    ReopenAt(width, perPage, last / perPage, last % perPage, length);
    DivStep(last, perPage);
    WholePages(last, perPage);
  }

  lemma WholePages(n: nat, d: nat)
    requires d > 0
    ensures n == n / d * d + n % d
  {
  }

  /** Where the row of a slot ends. */
  lemma RowEnd(width: nat, perPage: nat, slot: nat)
    requires Usable(width, perPage)
    ensures Start(width, perPage, slot) + width == slot / perPage * PAGE_SIZE + (HEADER + (slot % perPage + 1) * width)
    ensures HEADER + (slot % perPage + 1) * width <= PAGE_SIZE
  {
    SlotInsidePage(width, perPage, slot);
    var r := slot % perPage;
    assert (r + 1) * width == r * width + width;
  }

  /** A file that ends with row `r` of `page` has a whole page more only if the row ends its page. */
  lemma ReopenAt(width: nat, perPage: nat, page: nat, r: nat, length: nat)
    requires Usable(width, perPage) && r < perPage && HEADER + (r + 1) * width <= PAGE_SIZE
    requires length == page * PAGE_SIZE + (HEADER + (r + 1) * width)
    ensures length / PAGE_SIZE * perPage == page * perPage + if r + 1 == perPage && HEADER + perPage * width == PAGE_SIZE then perPage else 0
  {
    var rest := HEADER + (r + 1) * width;
    if rest == PAGE_SIZE {
      DivUnique(length, PAGE_SIZE, page + 1, 0);
      LastRow(r, perPage, width);
      assert (page + 1) * perPage == page * perPage + perPage;
    } else {
      DivUnique(length, PAGE_SIZE, page, rest);
    }
  }

  /** If row r ends exactly at the page's end, it is the last row. */
  lemma LastRow(r: nat, perPage: nat, width: nat)
    requires Usable(width, perPage) && r < perPage && HEADER + (r + 1) * width == PAGE_SIZE
    ensures r + 1 == perPage
  {
    DivUnique(PAGE_SIZE - HEADER, width, r + 1, 0);
  }

  // ---------- reading a vector out of a page ----------

  function VectorAt(bytes: Data, dim: nat, perPage: nat, slot: nat): Vec
    requires perPage > 0 && Inside(4 * dim, perPage, slot) + 4 * dim <= |bytes|
  {
    var at := Inside(4 * dim, perPage, slot);
    Words(bytes[at..at + 4 * dim], dim)
  }

  lemma MappedPageReads(file: Data, dim: nat, perPage: nat, pushed: seq<Vec>, slot: nat)
    requires AllStored(file, dim, perPage, pushed) && slot < |pushed| && Covered(file, PageOf(perPage, slot))
    ensures Inside(4 * dim, perPage, slot) + 4 * dim <= PAGE_SIZE
    ensures VectorAt(PageBytes(file, PageOf(perPage, slot)), dim, perPage, slot) == pushed[slot]
  {
    SlotInsidePage(4 * dim, perPage, slot);
    var base, inside := PageOf(perPage, slot) * PAGE_SIZE, Inside(4 * dim, perPage, slot);
    assert Stored(file, perPage, slot, pushed[slot]);
    SliceOfPage(file, base, inside, 4 * dim);
    WordsRoundTrip(pushed[slot]);
  }

  lemma SliceOfPage(file: Data, base: nat, inside: nat, width: nat)
    requires base + PAGE_SIZE <= |file| && inside + width <= PAGE_SIZE
    ensures file[base..base + PAGE_SIZE][inside..inside + width] == file[base + inside..base + inside + width]
  {
    var ofPage := file[base..base + PAGE_SIZE][inside..inside + width];
    var ofFile := file[base + inside..base + inside + width];
    assert forall i :: 0 <= i < width ==> ofPage[i] == ofFile[i];
  }

  function Zeros(n: nat): (r: Data)
    ensures |r| == n && forall i :: 0 <= i < n ==> r[i] == 0
  {
    seq(n, _ => 0)
  }

  lemma {:induction false} ZeroWords(b: Data, n: nat)
    requires |b| == 4 * n && forall i :: 0 <= i < |b| ==> b[i] == 0
    ensures forall i :: 0 <= i < n ==> Words(b, n)[i] == 0
  {
    if n > 0 { ZeroWords(b[4..], n - 1); }
  }

  /** Any slot of a zero page reads as the zero vector. */
  lemma ZeroPageReads(dim: nat, perPage: nat, slot: nat)
    requires Usable(4 * dim, perPage)
    ensures Inside(4 * dim, perPage, slot) + 4 * dim <= PAGE_SIZE
    ensures
      var v := VectorAt(Zeros(PAGE_SIZE), dim, perPage, slot);
      |v| == dim && forall i :: 0 <= i < dim ==> v[i] == 0
  {
    SlotInsidePage(4 * dim, perPage, slot);
    var at := Inside(4 * dim, perPage, slot);
    ZeroWords(Zeros(PAGE_SIZE)[at..at + 4 * dim], dim);
  }
}
