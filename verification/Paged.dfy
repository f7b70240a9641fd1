/**
 The disk-backed vector store: a page file that only grows, and a cache of pages kept in
 least-recently-used order.
 */
module Paged {
  import opened Wrappers
  import opened Bytes
  import opened Ranking
  import opened PageLayout
  import opened PageTrace
  import Lru

  /** A cached page: mapped from the file, or a zero buffer standing in for a page not yet covered. */
  datatype CachedPage = CachedPage(bytes: Data, mapped: bool)

  /** What the cache entry for `page` may hold. */
  ghost predicate EntryOk(entry: CachedPage, file: Data, page: nat) {
    if entry.mapped then Covered(file, page) && entry.bytes == PageBytes(file, page)
    else entry.bytes == Zeros(PAGE_SIZE)
  }

  ghost predicate CacheOk(cache: map<nat, CachedPage>, file: Data) {
    forall page :: page in cache ==> EntryOk(cache[page], file, page)
  }

  /** The order list names the cached pages, each once. */
  ghost predicate InStep(order: seq<nat>, keys: set<nat>) {
    && NoDuplicates(order)
    && (forall page :: page in order <==> page in keys)
  }

  predicate ZeroVec(v: Vec) {
    forall i :: 0 <= i < |v| ==> v[i] == 0
  }

  lemma PushKeepsCache(cache: map<nat, CachedPage>, file: Data, perPage: nat, slot: nat, vec: Vec)
    requires CacheOk(cache, file) && Usable(4 * |vec|, perPage)
    ensures CacheOk(cache - {PageOf(perPage, slot)}, FilePush(file, perPage, slot, vec))
  {
    forall page | page in cache && page != PageOf(perPage, slot)
      ensures EntryOk(cache[page], FilePush(file, perPage, slot, vec), page)
    {
      assert EntryOk(cache[page], file, page);
      if cache[page].mapped { PushStaysOnPage(file, perPage, slot, vec, page); }
    }
  }

  lemma LoadKeepsCache(cache: map<nat, CachedPage>, kept: map<nat, CachedPage>, file: Data, page: nat, entry: CachedPage)
    requires CacheOk(cache, file) && EntryOk(entry, file, page)
    requires forall p :: p in kept ==> p in cache && kept[p] == cache[p]
    ensures CacheOk(kept[page := entry], file)
  {
    forall p | p in kept && p != page ensures EntryOk(kept[p], file, p) {
      assert EntryOk(cache[p], file, p);
    }
  }

  /** What a cache miss brings in. */
  function Loaded(file: Data, page: nat): (entry: CachedPage)
    ensures EntryOk(entry, file, page)
    ensures entry.mapped <==> Covered(file, page)
  {
    if Covered(file, page) then CachedPage(PageBytes(file, page), true) else CachedPage(Zeros(PAGE_SIZE), false)
  }

  lemma DropKeepsStep(order: seq<nat>, keys: set<nat>, page: nat)
    requires InStep(order, keys)
    ensures InStep(Lru.Remove(order, page), keys - {page})
  {
    Lru.RemoveElements(order, page);
  }

  lemma FrontKeepsStep(order: seq<nat>, keys: set<nat>, page: nat)
    requires InStep(order, keys) && page !in keys
    ensures InStep([page] + order, keys + {page})
  {
    ConsDistinct(page, order);
  }

  /** Removing the last page of the order list drops exactly that key. */
  lemma EvictKeepsStep(order: seq<nat>, keys: set<nat>)
    requires InStep(order, keys) && order != []
    ensures InStep(order[..|order| - 1], keys - {order[|order| - 1]})
  {
    var last := order[|order| - 1];
    var rest := order[..|order| - 1];
    forall i | 0 <= i < |rest| ensures rest[i] != last {}
    forall page ensures page in rest <==> page in keys && page != last {
      if page in order && page != last {
        var i :| 0 <= i < |order| && order[i] == page;
        assert rest[i] == page;
      }
    }
  }

  /** The map and the list have the same size, so either one can be asked whether the cache is full. */
  lemma {:induction false} SameSize(order: seq<nat>, keys: set<nat>)
    requires InStep(order, keys)
    ensures |order| == |keys|
  {
    if order == [] {
      assert keys == {};
    } else {
      Lru.SplitFirst(order);
      SameSize(order[1..], keys - {order[0]});
    }
  }

  /**
   Reading slot `slot` through a page that is the file's or a zero buffer gives the pushed vector
   exactly when the page is the file's, or the vector happens to be all zeros.
   */
  lemma ReadBackIffMapped(file: Data, dim: nat, perPage: nat, pushed: seq<Vec>, slot: nat, entry: CachedPage)
    requires AllStored(file, dim, perPage, pushed) && slot < |pushed|
    requires EntryOk(entry, file, PageOf(perPage, slot))
    ensures Inside(4 * dim, perPage, slot) + 4 * dim <= |entry.bytes|
    ensures VectorAt(entry.bytes, dim, perPage, slot) == pushed[slot] <==> entry.mapped || ZeroVec(pushed[slot])
  {
    if entry.mapped {
      MappedPageReads(file, dim, perPage, pushed, slot);
    } else {
      ZeroPageReads(dim, perPage, slot);
      assert |pushed[slot]| == dim;
    }
  }

  /** The store's fields agree with what its history of accesses says. */
  ghost predicate InLine(o: Opened, trace: seq<Lru.Access>, length: nat, count: nat, cache: map<nat, CachedPage>)
    requires o.perPage > 0
  {
    && length == LengthAfter(o, trace) && count == o.count + Pushes(trace) && PushesInOrder(o, trace)
    && forall page :: page in cache ==> cache[page].mapped == FromFile(o, trace, page)
  }

  lemma PushInLine(o: Opened, trace: seq<Lru.Access>, file: Data, count: nat, cache: map<nat, CachedPage>, vec: Vec)
    requires Usable(o.width, o.perPage) && o.width == 4 * |vec| && InLine(o, trace, |file|, count, cache)
    ensures
      var page := PageOf(o.perPage, count);
      InLine(o, trace + [Lru.Push(page)], |FilePush(file, o.perPage, count, vec)|, count + 1, cache - {page})
  {
    var a := Lru.Push(PageOf(o.perPage, count));
    HistoryGrows(o, trace, a, 0);
    PushLength(file, o.perPage, count, vec);
    forall page | page in cache - {a.page} ensures cache[page].mapped == FromFile(o, trace + [a], page) {
      HistoryGrows(o, trace, a, page);
    }
  }

  lemma PushLength(file: Data, perPage: nat, slot: nat, vec: Vec)
    requires Usable(4 * |vec|, perPage)
    ensures |FilePush(file, perPage, slot, vec)| == Longer(|file|, Start(4 * |vec|, perPage, slot) + 4 * |vec|)
  {
  }

  lemma OpenedPages(length: nat, perPage: nat)
    requires perPage > 0
    ensures PageOf(perPage, length / PAGE_SIZE * perPage) * PAGE_SIZE <= length
  {
    DivUnique(length / PAGE_SIZE * perPage, perPage, length / PAGE_SIZE, 0);
  }

  lemma GetInLine(o: Opened, trace: seq<Lru.Access>, file: Data, count: nat, cache: map<nat, CachedPage>, page: nat,
                  after: map<nat, CachedPage>)
    requires o.perPage > 0 && InLine(o, trace, |file|, count, cache)
    requires page in cache <==> page in Lru.OrderAfter(o.capacity, trace)
    requires forall p :: p in after && p != page ==> p in cache && after[p] == cache[p]
    requires page in after && after[page].mapped == if page in cache then cache[page].mapped else Covered(file, page)
    ensures InLine(o, trace + [Lru.Get(page)], |file|, count, after)
  {
    HistoryGrows(o, trace, Lru.Get(page), page);
    forall p | p in after ensures after[p].mapped == FromFile(o, trace + [Lru.Get(page)], p) {
      HistoryGrows(o, trace, Lru.Get(page), p);
    }
  }

  class PagedVectorStore {
    const dim: nat
    const perPage: nat
    const maxPages: nat
    var count: nat
    var file: Data
    var order: seq<nat>
    var cache: map<nat, CachedPage>
    /** The page accesses so far, oldest first. */
    ghost var trace: seq<Lru.Access>
    /** How often `LoadPage` ran. */
    ghost var loads: nat
    /** The file as it was opened. */
    ghost const origin: Opened

    ghost predicate Valid()
      reads this
    {
      && Usable(4 * dim, perPage) && maxPages >= 1
      && InStep(order, cache.Keys) && |order| <= maxPages
      && CacheOk(cache, file)
      && order == Lru.OrderAfter(maxPages, trace)
      && loads == Lru.Misses(maxPages, trace)
      && origin.width == 4 * dim && origin.perPage == perPage && origin.capacity == maxPages
      && PageOf(perPage, origin.count) * PAGE_SIZE <= origin.length
      && InLine(origin, trace, |file|, count, cache)
    }

    /** The file was filled by pushes only, from empty: `pushed` are the vectors, by slot. */
    ghost predicate Holds(pushed: seq<Vec>)
      reads this
    {
      count == |pushed| && FileOk(file, dim, perPage, pushed)
    }

    /** Slot by slot, the file holds the vectors `pushed`; a reopened file may hold more behind them. */
    ghost predicate Keeps(pushed: seq<Vec>)
      reads this
    {
      count == |pushed| && AllStored(file, dim, perPage, pushed)
    }

    constructor (dim: nat, file: Data, cacheBytes: nat)
      requires dim >= 1 && PerPage(4 * dim) >= 1
      ensures Valid() && this.dim == dim && perPage == PerPage(4 * dim)
      ensures maxPages == (if cacheBytes < 2 * PAGE_SIZE then 1 else cacheBytes / PAGE_SIZE)
      ensures this.file == file && count == CountOnDisk(file, perPage) && order == [] && trace == []
      ensures file == [] ==> Holds([])
      ensures forall before :: FileOk(file, dim, perPage, before) ==> count <= |before| && Keeps(before[..count])
      ensures origin.length == |file|
    {
      this.dim := dim;
      perPage := PerPage(4 * dim);
      maxPages := if cacheBytes / PAGE_SIZE < 1 then 1 else cacheBytes / PAGE_SIZE;
      count := CountOnDisk(file, PerPage(4 * dim));
      this.file := file;
      order := [];
      cache := map[];
      trace := [];
      loads := 0;
      origin := Opened(4 * dim, PerPage(4 * dim), if cacheBytes / PAGE_SIZE < 1 then 1 else cacheBytes / PAGE_SIZE,
                       |file|, CountOnDisk(file, PerPage(4 * dim)));
      new;
      OpenedPages(|file|, perPage);
      forall before | FileOk(file, dim, perPage, before) ensures count <= |before| && Keeps(before[..count]) {
        ReopenKeepsCountIff(file, dim, perPage, before);
      }
    }

    /** Writes a vector at its slot, and its page's number if it is the page's first. */
    method WriteSlot(slot: nat, vec: Vec)
      requires perPage > 0 && |vec| == dim
      modifies this`file
      ensures file == FilePush(old(file), perPage, slot, vec)
    {
      var page := PageOf(perPage, slot);
      hide Pwrite, Inside, PageOf;
      file := Pwrite(file, Start(4 * dim, perPage, slot), LeWords(vec));
      if slot % perPage == 0 {
        file := Pwrite(file, page * PAGE_SIZE, Le32(Low32(page)));
      }
    }

    /** Forgets a cached page, so that the next read sees the file. */
    method Invalidate(page: nat)
      requires InStep(order, cache.Keys)
      modifies this`order, this`cache
      ensures order == Lru.Remove(old(order), page) && cache == old(cache) - {page}
      ensures InStep(order, cache.Keys)
    {
      DropKeepsStep(order, cache.Keys, page);
      assert (cache - {page}).Keys == cache.Keys - {page};
      if page in cache {
        order := Lru.Remove(order, page);
        cache := cache - {page};
      }
      assert cache == old(cache) - {page};
    }

    /** Appends a vector, writing it to the file and dropping its page from the cache. */
    method Push(vec: Vec) returns (slot: nat)
      requires Valid() && |vec| == dim
      modifies this
      ensures Valid() && slot == old(count) && count == old(count) + 1
      ensures file == FilePush(old(file), perPage, slot, vec)
      ensures cache == old(cache) - {PageOf(perPage, slot)}
      ensures trace == old(trace) + [Lru.Push(PageOf(perPage, slot))]
      ensures forall pushed :: old(Holds(pushed)) ==> Holds(pushed + [vec])
      ensures forall pushed :: old(Keeps(pushed)) ==> Keeps(pushed + [vec])
    {
      hide CacheOk, FileOk, AllStored, FilePush, InStep, PageOf, PerPage, Lru.OrderAfter, Lru.Remove, Lru.Misses, InLine;
      slot := count;
      count := count + 1;
      var page := PageOf(perPage, slot);
      PushKeepsCache(cache, file, perPage, slot, vec);
      PushInLine(origin, trace, file, slot, cache, vec);
      WriteSlot(slot, vec);
      Invalidate(page);
      trace := trace + [Lru.Push(page)];
      Lru.OneMoreAccess(maxPages, old(trace), Lru.Push(page));
      forall pushed | old(Holds(pushed)) ensures Holds(pushed + [vec]) {
        PushKeepsFile(old(file), dim, perPage, pushed, vec);
      }
      forall pushed | old(Keeps(pushed)) ensures Keeps(pushed + [vec]) {
        PushKeepsStored(old(file), dim, perPage, pushed, vec);
      }
    }

    /** Drops the least recently used page. */
    method EvictLru()
      requires InStep(order, cache.Keys)
      modifies this`order, this`cache
      ensures InStep(order, cache.Keys)
      ensures order == if old(order) == [] then [] else old(order)[..|old(order)| - 1]
      ensures cache == if old(order) == [] then old(cache) else old(cache) - {old(order)[|old(order)| - 1]}
    {
      if order == [] { return; }
      EvictKeepsStep(order, cache.Keys);
      var last := order[|order| - 1];
      order := order[..|order| - 1];
      if last in cache {
        cache := cache - {last};
      }
    }

    /** Evicts if the cache is full. */
    method MakeRoom()
      requires InStep(order, cache.Keys) && |order| <= maxPages && maxPages >= 1
      modifies this`order, this`cache
      ensures InStep(order, cache.Keys) && |order| < maxPages
      ensures order == Lru.EvictLast(old(order), maxPages)
      ensures order == if |old(order)| < maxPages then old(order) else old(order)[..|old(order)| - 1]
      ensures forall p :: p in cache ==> p in old(cache) && cache[p] == old(cache)[p]
    {
      SameSize(order, cache.Keys);
      assert |cache| == |cache.Keys|;
      hide InStep;
      if |cache| >= maxPages {
        EvictLru();
      }
    }

    /** Brings a missing page in: the file's bytes if the file covers the page, else a zero buffer. */
    method LoadPage(page: nat)
      requires InStep(order, cache.Keys) && |order| <= maxPages && maxPages >= 1 && CacheOk(cache, file)
      requires page !in cache
      modifies this`order, this`cache, this`loads
      ensures InStep(order, cache.Keys) && |order| <= maxPages && CacheOk(cache, file)
      ensures loads == old(loads) + 1
      ensures order == Lru.Touch(old(order), maxPages, page)
      ensures order == [page] + if |old(order)| < maxPages then old(order) else old(order)[..|old(order)| - 1]
      ensures page in cache && (cache[page].mapped <==> Covered(file, page))
      ensures forall p :: p in cache && p != page ==> p in old(cache) && cache[p] == old(cache)[p]
    {
      hide CacheOk, EntryOk, Loaded, NoDuplicates, Lru.EvictLast;
      assert page !in order;
      MakeRoom();
      loads := loads + 1;
      ghost var kept := cache;
      var entry := Loaded(file, page);
      FrontKeepsStep(order, cache.Keys, page);
      LoadKeepsCache(old(cache), kept, file, page, entry);
      order := [page] + order;
      cache := cache[page := entry];
      assert cache.Keys == kept.Keys + {page};
    }

    /**
     Reads a slot, loading its page if it is not cached. A slot whose page is served from a zero buffer reads
     as zeros, any other slot as the vector pushed at it, also where the file was closed and reopened since.
     Pages that the file covered when it was opened are never served from a zero buffer.
     */
    method Get(slot: nat) returns (vec: Vec)
      requires Valid()
      modifies this`order, this`cache, this`trace, this`loads
      ensures Valid() && |vec| == dim
      ensures trace == old(trace) + [Lru.Get(PageOf(perPage, slot))]
      ensures
        var page := PageOf(perPage, slot);
        var served := if page in old(cache) then old(cache)[page].mapped else Covered(file, page);
        && page in cache && cache[page].mapped == served
        && (!served ==> ZeroVec(vec))
        && (forall pushed :: Keeps(pushed) && slot < |pushed| ==> (vec == pushed[slot] <==> served || ZeroVec(pushed[slot])))
        && (page * 4096 + 4096 <= origin.length ==> served)
      ensures forall p :: p in cache && p in old(cache) ==> cache[p] == old(cache)[p]
    {
      var page := PageOf(perPage, slot);
      if page !in cache {
        LoadPage(page);
      } else {
        DropKeepsStep(order, cache.Keys, page);
        FrontKeepsStep(Lru.Remove(order, page), cache.Keys - {page}, page);
        Lru.RemoveElements(order, page);
        order := [page] + Lru.Remove(order, page);
      }
      trace := trace + [Lru.Get(page)];
      Lru.OneMoreAccess(maxPages, old(trace), Lru.Get(page));
      GetInLine(origin, old(trace), file, count, old(cache), page, cache);
      SlotInsidePage(4 * dim, perPage, slot);
      assert EntryOk(cache[page], file, page);
      vec := VectorAt(cache[page].bytes, dim, perPage, slot);
      if !cache[page].mapped { ZeroPageReads(dim, perPage, slot); }
      if Covers(origin.length, page) { OpenedPagesServed(origin, trace, page); }
      forall pushed | Keeps(pushed) && slot < |pushed|
        ensures vec == pushed[slot] <==> cache[page].mapped || ZeroVec(pushed[slot])
      {
        ReadBackIffMapped(file, dim, perPage, pushed, slot, cache[page]);
      }
    }
  }

  /**
   Two stores that saw the same pushes and reads: the one with the larger budget caches a superset, in the same
   order of recency, and loaded at most as many pages.
   */
  lemma LargerBudgetLoadsLess(small: PagedVectorStore, large: PagedVectorStore)
    requires small.Valid() && large.Valid()
    requires small.trace == large.trace && small.maxPages <= large.maxPages
    ensures small.order <= large.order && small.cache.Keys <= large.cache.Keys
    ensures large.loads <= small.loads
  {
    Lru.StackInclusion(small.maxPages, large.maxPages, small.trace);
    Lru.LargerCacheMissesLess(small.maxPages, large.maxPages, small.trace);
    forall page | page in small.cache ensures page in large.cache {
      var i :| 0 <= i < |small.order| && small.order[i] == page;
      assert large.order[i] == page;
    }
  }

  /**
   Reading a slot of a store filled from empty, said from its history: right if and only if the page's last load
   found it covered by the pushes made up to then, or the vector is zero.
   */
  lemma ReadBackIffLoadedCovered(store: PagedVectorStore, pushed: seq<Vec>, slot: nat)
    requires store.Valid() && store.Keeps(pushed) && slot < |pushed| && PageOf(store.perPage, slot) in store.cache
    ensures
      var page := PageOf(store.perPage, slot);
      && Inside(4 * store.dim, store.perPage, slot) + 4 * store.dim <= |store.cache[page].bytes|
      && (VectorAt(store.cache[page].bytes, store.dim, store.perPage, slot) == pushed[slot] <==>
          FromFile(store.origin, store.trace, page) || ZeroVec(pushed[slot]))
  {
    assert EntryOk(store.cache[PageOf(store.perPage, slot)], store.file, PageOf(store.perPage, slot));
    ReadBackIffMapped(store.file, store.dim, store.perPage, pushed, slot, store.cache[PageOf(store.perPage, slot)]);
  }

  /** Where vectors fill their pages to the last byte, every cached copy of a covered page is the file's. */
  lemma ExactFitServesFile(store: PagedVectorStore, page: nat)
    requires store.Valid() && HEADER + store.perPage * (4 * store.dim) == PAGE_SIZE
    requires page in store.cache && Covered(store.file, page)
    ensures store.cache[page] == CachedPage(PageBytes(store.file, page), true)
  {
    ExactFitNeverStale(store.origin, store.trace, page);
    assert EntryOk(store.cache[page], store.file, page);
  }

  /** Opening a store: a dimension whose vector does not fit a page is refused. */
  method Open(dim: nat, file: Data, cacheBytes: nat) returns (r: Result<PagedVectorStore, string>)
    requires dim >= 1
    ensures r.Success? <==> 4 * dim <= PAGE_SIZE - HEADER
    ensures r.Success? ==> fresh(r.value) && r.value.Valid() && r.value.dim == dim && r.value.file == file
    ensures r.Success? && file == [] ==> r.value.Holds([])
  {
    PerPagePositive(4 * dim);
    if PerPage(4 * dim) == 0 {
      return Failure("dim too large for 4KB pages");
    }
    var store := new PagedVectorStore(dim, file, cacheBytes);
    return Success(store);
  }

  lemma PerPagePositive(width: nat)
    requires width > 0
    ensures PerPage(width) >= 1 <==> width <= PAGE_SIZE - HEADER
  {
    if width <= PAGE_SIZE - HEADER {
      var k := PerPage(width);
      assert PAGE_SIZE - HEADER == k * width + (PAGE_SIZE - HEADER) % width;
    } else {
      DivRoom(PAGE_SIZE - HEADER, width);
      assert PerPage(width) == 0;
    }
  }

  /** A vector pushed onto a fresh store reads back as zeros: its page is not fully written yet. */
  method ZeroBufferShown() returns (pushed: Vec, read: Vec)
    ensures pushed == [7] && read == [0]
  {
    assert PerPage(4) == 1022;
    var store := new PagedVectorStore(1, [], 0);
    assert store.Holds([]);
    pushed := [7];
    var slot := store.Push(pushed);
    assert store.Holds([] + [pushed]);
    read := store.Get(slot);
    assert |read| == 1;
  }

  /** A fresh store of one vector per page, with one vector pushed. */
  method OnePushed(vec: Vec) returns (store: PagedVectorStore)
    requires |vec| == 600
    ensures fresh(store) && store.Valid() && store.Holds([vec]) && store.dim == 600 && store.perPage == 1
    ensures store.count == 1 && store.origin.length == store.origin.count == 0 && store.trace == [Lru.Push(0)]
  {
    assert PerPage(2400) == 1;
    store := new PagedVectorStore(600, [], 0);
    assert store.Holds([]) && store.origin.length == store.origin.count == 0;
    hide FilePush, FileOk, CacheOk, InLine, InStep;
    var first := store.Push(vec);
    assert [] + [vec] == [vec];
  }

  /** Read the first page and push a second vector. */
  method PushReadPush(vec: Vec) returns (store: PagedVectorStore)
    requires |vec| == 600
    ensures fresh(store) && store.Valid() && store.Holds([vec, vec]) && store.dim == 600 && store.perPage == 1
    ensures store.origin.length == store.origin.count == 0 && store.trace == [Lru.Push(0), Lru.Get(0), Lru.Push(1)]
  {
    hide FilePush, FileOk, CacheOk, InLine, InStep, Usable, Covered, ZeroVec, Lru.OrderAfter, Lru.Misses;
    store := OnePushed(vec);
    var read := store.Get(0);
    assert store.Holds([vec]);
    var second := store.Push(vec);
    assert [vec] + [vec] == [vec, vec];
  }

  /** Its first page is now covered by the file, and cached as zeros. */
  lemma StaleCached(store: PagedVectorStore)
    requires store.Valid() && store.dim == 600 && store.perPage == 1
    requires store.origin.length == store.origin.count == 0 && store.trace == [Lru.Push(0), Lru.Get(0), Lru.Push(1)]
    ensures Covered(store.file, 0) && 0 in store.cache && !store.cache[0].mapped
  {
    StaleWithoutFit(store.origin);
    hide LengthAfter, FromFile, PushesInOrder, Pushes, Lru.OrderAfter, Lru.Misses, CacheOk;
    assert 0 in store.order;
  }

  /** And stays so when a later push covers the page: the file holds the vector, the cache still says zero. */
  method StaleBufferShown() returns (store: PagedVectorStore, pushed: Vec, read: Vec)
    ensures store.Holds([pushed, pushed]) && store.perPage == 1 && Covered(store.file, 0)
    ensures |pushed| == |read| == 600 && !ZeroVec(pushed) && ZeroVec(read)
  {
    pushed := seq(600, _ => 7);
    assert pushed[0] == 7;
    store := PushReadPush(pushed);
    StaleCached(store);
    hide FileOk, CacheOk, InLine, InStep, Usable, Lru.OrderAfter, Lru.Misses;
    read := store.Get(0);
  }
}
