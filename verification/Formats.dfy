/** The files byte by byte: what stands at which offset, with every number written out. */
module Formats {
  import opened Bytes
  import opened Codec
  import opened Tombstones
  import opened Hnsw
  import opened IndexFile
  import PL = PageLayout
  import Wal

  /** `part` stands in `b` from offset `lo` on. */
  predicate At(b: Data, lo: int, part: Data) {
    0 <= lo && lo + |part| <= |b| && b[lo..lo + |part|] == part
  }

  lemma AtInside(b: Data, lo: int, part: Data, i: int, piece: Data)
    requires At(b, lo, part) && At(part, i, piece)
    ensures At(b, lo + i, piece)
  {
    forall k | 0 <= k < |piece| ensures b[lo + i..lo + i + |piece|][k] == piece[k] {
      assert b[lo..lo + |part|][i + k] == part[i..i + |piece|][k];
    }
  }

  lemma AtFront(a: Data, b: Data)
    ensures At(a + b, 0, a) && At(a + b, |a|, b)
  {
  }

  // ---------- words ----------

  /** Words are stored least significant byte first. */
  lemma Le32Bytes(x: u32)
    ensures
      var b := Le32(x);
      x == b[0] as int + 0x100 * b[1] as int + 0x1_0000 * b[2] as int + 0x100_0000 * b[3] as int
  {
  }

  /** A long word is its lower half, then its upper half. */
  lemma Le64Bytes(x: u64)
    ensures
      var b := Le64(x);
      && At(b, 0, Le32(x % 0x1_0000_0000)) && At(b, 4, Le32(x / 0x1_0000_0000))
  {
    hide Le32;
  }

  /** Arrays of words are stored in index order, four bytes each. */
  lemma {:induction false} WordBytes(ws: seq<u32>, i: nat)
    requires i < |ws|
    ensures At(LeWords(ws), 4 * i, Le32(ws[i]))
  {
    hide Le32;
    AtFront(Le32(ws[0]), LeWords(ws[1..]));
    if i > 0 {
      WordBytes(ws[1..], i - 1);
      AtInside(LeWords(ws), 4, LeWords(ws[1..]), 4 * (i - 1), Le32(ws[i]));
    }
  }

  // ---------- the log ----------

  lemma SixParts(a: Data, b: Data, c: Data, d: Data, e: Data, f: Data)
    requires |a| == 1 && |b| == 8 && |c| == |e| == 4
    ensures
      var r := a + b + c + d + e + f;
      && |r| == 17 + |d| + |f|
      && At(r, 0, a) && At(r, 1, b) && At(r, 9, c) && At(r, 13, d) && At(r, 13 + |d|, e) && At(r, 17 + |d|, f)
  {
  }

  /** An insert record: kind 1, id, dimension, components, metadata length, metadata. */
  lemma InsertRecordBytes(id: u64, vec: Vec, metadata: Data, i: nat)
    requires |vec| < 0x1_0000_0000 && |metadata| < 0x1_0000_0000
    ensures
      var b, n := Wal.Encode(Wal.Inserted(id, vec, metadata)), |vec|;
      && |b| == 17 + 4 * n + |metadata|
      && At(b, 0, [1]) && At(b, 1, Le64(id)) && At(b, 9, Le32(n))
      && (i < n ==> At(b, 13 + 4 * i, Le32(vec[i])))
      && At(b, 13 + 4 * n, Le32(|metadata|)) && At(b, 17 + 4 * n, metadata)
  {
    hide Le32, Le64, LeWords, At;
    Wal.NothingCut(vec, metadata);
    SixParts([1], Le64(id), Le32(|vec|), LeWords(vec), Le32(|metadata|), metadata);
    if i < |vec| {
      WordBytes(vec, i);
      AtInside(Wal.Encode(Wal.Inserted(id, vec, metadata)), 13, LeWords(vec), 4 * i, Le32(vec[i]));
    }
  }

  /** A delete record: kind 2, id, and two zero lengths. */
  lemma DeleteRecordBytes(id: u64)
    ensures
      var b := Wal.Encode(Wal.Deleted(id));
      |b| == 17 && At(b, 0, [2]) && At(b, 1, Le64(id)) && At(b, 9, [0, 0, 0, 0, 0, 0, 0, 0])
  {
    hide Le64;
  }

  // ---------- items of the index file ----------

  /** Each item begins where the ones before it end. */
  lemma {:induction false} ItemAt<T>(xs: seq<T>, enc: T -> Data, i: nat)
    requires i < |xs|
    ensures At(Concat(xs, enc), |Concat(xs[..i], enc)|, enc(xs[i]))
  {
    AtFront(enc(xs[0]), Concat(xs[1..], enc));
    if i > 0 {
      ItemAt(xs[1..], enc, i - 1);
      assert xs[..i][1..] == xs[1..][..i - 1];
      AtInside(Concat(xs, enc), |enc(xs[0])|, Concat(xs[1..], enc), |Concat(xs[1..][..i - 1], enc)|, enc(xs[i]));
    }
  }

  /** Items of one width are found by multiplication. */
  lemma {:induction false} FixedWidth<T>(xs: seq<T>, enc: T -> Data, width: nat)
    requires forall i :: 0 <= i < |xs| ==> |enc(xs[i])| == width
    ensures |Concat(xs, enc)| == width * |xs|
  {
    if xs != [] {
      FixedWidth(xs[1..], enc, width);
      assert width * |xs| == width + width * (|xs| - 1);
    }
  }

  lemma FixedAt<T>(xs: seq<T>, enc: T -> Data, width: nat, i: nat)
    requires i < |xs| && forall j :: 0 <= j < |xs| ==> |enc(xs[j])| == width
    ensures At(Concat(xs, enc), width * i, enc(xs[i]))
  {
    hide At;
    FixedWidth(xs[..i], enc, width);
    ItemAt(xs, enc, i);
  }

  lemma {:induction false} VecIsWords(v: Vec)
    ensures EncodeVec(v) == LeWords(v)
  {
    if v != [] { VecIsWords(v[1..]); }
  }

  /** A metadata string: its length, then its bytes. */
  lemma TextBytes(m: Data)
    requires |m| < 0x1_0000_0000
    ensures |EncodeText(m)| == 4 + |m| && At(EncodeText(m), 0, Le32(|m|)) && At(EncodeText(m), 4, m)
  {
    hide Le32;
    assert m[..|m|] == m;
    AtFront(Le32(|m|), m);
  }

  /** A neighbour list: its length, then the ids in order, four bytes each. */
  lemma ListBytes(list: seq<nat>, i: nat)
    requires ListFits(list)
    ensures |EncodeList(list)| == 4 + 4 * |list| && At(EncodeList(list), 0, Le32(|list|))
    ensures i < |list| ==> At(EncodeList(list), 4 + 4 * i, Le32(list[i]))
  {
    hide Le32, At, Concat;
    assert list[..|list|] == list;
    FixedWidth(list, EncodeSize, 4);
    AtFront(Le32(|list|), Concat(list, EncodeSize));
    if i < |list| {
      FixedAt(list, EncodeSize, 4, i);
      AtInside(EncodeList(list), 4, Concat(list, EncodeSize), 4 * i, Le32(list[i]));
    }
  }

  /** A node: its number of layers, then its lists from layer 0 up. */
  lemma NodeBytes(layers: seq<seq<nat>>, l: nat)
    requires NodeFits(layers)
    ensures At(EncodeNode(layers), 0, Le32(|layers|))
    ensures l < |layers| ==> At(EncodeNode(layers), 4 + |Concat(layers[..l], EncodeList)|, EncodeList(layers[l]))
  {
    hide Le32, At, Concat, EncodeList;
    AtFront(Le32(|layers|), Concat(layers, EncodeList));
    if l < |layers| {
      ItemAt(layers, EncodeList, l);
      AtInside(EncodeNode(layers), 4, Concat(layers, EncodeList), |Concat(layers[..l], EncodeList)|, EncodeList(layers[l]));
    }
  }

  // ---------- sections of the index file ----------

  lemma FiveParts(a: Data, b: Data, c: Data, d: Data, e: Data)
    requires |a| == |b| == |c| == |d| == 4
    ensures
      var r := a + (b + (c + (d + e)));
      At(r, 0, a) && At(r, 4, b) && At(r, 8, c) && At(r, 12, d) && At(r, 16, e)
  {
  }

  lemma HeaderBytes(s: Index)
    requires s.dim < 0x1_0000_0000 && |s.ids| < 0x1_0000_0000
    ensures
      var h := Header(s);
      && |h| == 24 && At(h, 0, [0x20, 0x42, 0x44, 0x4E]) && At(h, 4, [2, 0, 0, 0])
      && At(h, 8, Le32(s.dim)) && At(h, 12, [0, 0, 0, 0]) && At(h, 16, Le64(|s.ids|))
  {
    SmallWords();
    hide Le64, Le32, At;
    FiveParts(Le32(MAGIC), Le32(VERSION), Le32(Low32(s.dim)), Le32(0), Le64(|s.ids|));
  }

  lemma SmallWords()
    ensures Le32(MAGIC) == [0x20, 0x42, 0x44, 0x4E] && Le32(VERSION) == [2, 0, 0, 0] && Le32(0) == [0, 0, 0, 0]
  {
  }

  lemma Sections(h: Data, a: Data, b: Data, c: Data, d: Data, e: Data, f: Data, g: Data)
    requires |h| == 24 && |d| == |e| == 4
    ensures
      var file := h + ((a + (b + c)) + (d + (e + (f + g))));
      var metas := 24 + |a| + |b|;
      var top := metas + |c|;
      && At(file, 0, h) && At(file, 24, a) && At(file, 24 + |a|, b) && At(file, metas, c)
      && At(file, top, d) && At(file, top + 4, e) && At(file, top + 8, f) && At(file, top + 8 + |f|, g)
      && |file| == top + 8 + |f| + |g|
  {
    assert h + ((a + (b + c)) + (d + (e + (f + g)))) == h + a + b + c + d + e + f + g;
  }

  /** Where the metadata of a saved index begin, and where its entry point stands. */
  function MetasAt(s: Index): nat {
    24 + 8 * |s.ids| + 4 * s.dim * |s.ids|
  }

  function TopAt(s: Index): nat {
    MetasAt(s) + |Concat(s.metas, EncodeText)|
  }

  lemma SectionBytes(s: Index, words: seq<u64>)
    requires FieldsFit(s) && |words| == WordCount(|s.tomb|)
    ensures
      var file, n, top := FileBytes(s, words), |s.ids|, TopAt(s);
      && At(file, 0, Header(s)) && At(file, 24, Concat(s.ids, Le64)) && At(file, 24 + 8 * n, Concat(s.vecs, EncodeVec))
      && At(file, MetasAt(s), Concat(s.metas, EncodeText))
      && At(file, top, Le32(s.maxLayer)) && At(file, top + 4, Le32(s.entry))
      && At(file, top + 8, Concat(words, Le64)) && At(file, top + 8 + 8 * |words|, Concat(s.graph, EncodeNode))
      && |words| == (n + 63) / 64 && |file| == top + 8 + 8 * |words| + |Concat(s.graph, EncodeNode)|
  {
    hide Concat, Le64, Le32, EncodeText, EncodeNode, Header, LeWords, At, NodeFits, EncodeVec;
    FixedWidth(s.ids, Le64, 8);
    FixedWidth(words, Le64, 8);
    forall i | 0 <= i < |s.vecs| ensures |EncodeVec(s.vecs[i])| == 4 * s.dim { VecIsWords(s.vecs[i]); }
    FixedWidth(s.vecs, EncodeVec, 4 * s.dim);
    HeaderBytes(s);
    Sections(Header(s), Concat(s.ids, Le64), Concat(s.vecs, EncodeVec), Concat(s.metas, EncodeText),
             Le32(s.maxLayer), Le32(s.entry), Concat(words, Le64), Concat(s.graph, EncodeNode));
  }

  // ---------- the whole index file ----------

  lemma SlotInSections(s: Index, file: Data, i: nat, nodes: int)
    requires FieldsFit(s) && i < |s.ids|
    requires At(file, 24, Concat(s.ids, Le64)) && At(file, 24 + 8 * |s.ids|, Concat(s.vecs, EncodeVec))
    requires At(file, MetasAt(s), Concat(s.metas, EncodeText)) && At(file, nodes, Concat(s.graph, EncodeNode))
    ensures At(file, 24 + 8 * i, Le64(s.ids[i]))
    ensures At(file, 24 + 8 * |s.ids| + 4 * s.dim * i, LeWords(s.vecs[i]))
    ensures At(file, MetasAt(s) + |Concat(s.metas[..i], EncodeText)|, EncodeText(s.metas[i]))
    ensures At(file, nodes + |Concat(s.graph[..i], EncodeNode)|, EncodeNode(s.graph[i]))
  {
    hide Concat, Le64, EncodeText, EncodeNode, LeWords, At, NodeFits, EncodeVec, MetasAt;
    forall j | 0 <= j < |s.vecs| ensures |EncodeVec(s.vecs[j])| == 4 * s.dim { VecIsWords(s.vecs[j]); }
    VecIsWords(s.vecs[i]);
    FixedAt(s.ids, Le64, 8, i);
    FixedAt(s.vecs, EncodeVec, 4 * s.dim, i);
    ItemAt(s.metas, EncodeText, i);
    ItemAt(s.graph, EncodeNode, i);
    AtInside(file, 24, Concat(s.ids, Le64), 8 * i, Le64(s.ids[i]));
    AtInside(file, 24 + 8 * |s.ids|, Concat(s.vecs, EncodeVec), 4 * s.dim * i, EncodeVec(s.vecs[i]));
    AtInside(file, MetasAt(s), Concat(s.metas, EncodeText), |Concat(s.metas[..i], EncodeText)|, EncodeText(s.metas[i]));
    AtInside(file, nodes, Concat(s.graph, EncodeNode), |Concat(s.graph[..i], EncodeNode)|, EncodeNode(s.graph[i]));
  }

  /** The flag of slot `i` is bit `i % 64` of long word `i / 64`. */
  lemma FlagBits(words: seq<u64>, n: nat, i: nat)
    requires |words| == WordCount(n) && i < n
    ensures |words| == (n + 63) / 64
    ensures Unpack(words, n)[i] <==> ((words[i / 64] as bv64) >> ((i % 64) as bv6)) & 1 == 1
  {
  }

  /** The parts of a saved index that stand alone: magic number, version 2, dimension, count, top layer, entry point. */
  lemma FixedBytes(s: Index, words: seq<u64>)
    requires FieldsFit(s) && |words| == WordCount(|s.tomb|)
    ensures
      var file, n := FileBytes(s, words), |s.ids|;
      var top := 24 + 8 * n + 4 * s.dim * n + |Concat(s.metas, EncodeText)|;
      && At(file, 0, [0x20, 0x42, 0x44, 0x4E]) && At(file, 4, [2, 0, 0, 0]) && At(file, 8, Le32(s.dim))
      && At(file, 12, [0, 0, 0, 0]) && At(file, 16, Le64(n))
      && At(file, top, Le32(s.maxLayer)) && At(file, top + 4, Le32(s.entry))
      && |words| == (n + 63) / 64 && |file| == top + 8 + 8 * |words| + |Concat(s.graph, EncodeNode)|
  {
    hide Concat, Le64, Le32, EncodeText, EncodeNode, EncodeVec, LeWords, At, NodeFits, Header, FileBytes, WordCount;
    SectionBytes(s, words);
    HeaderInFile(s, FileBytes(s, words));
  }

  lemma HeaderInFile(s: Index, file: Data)
    requires FieldsFit(s) && At(file, 0, Header(s))
    ensures At(file, 0, [0x20, 0x42, 0x44, 0x4E]) && At(file, 4, [2, 0, 0, 0]) && At(file, 8, Le32(s.dim))
    ensures At(file, 12, [0, 0, 0, 0]) && At(file, 16, Le64(|s.ids|))
  {
    hide Concat, Le64, Le32, At, NodeFits, Header;
    HeaderBytes(s);
    AtInside(file, 0, Header(s), 0, [0x20, 0x42, 0x44, 0x4E]);
    AtInside(file, 0, Header(s), 4, [2, 0, 0, 0]);
    AtInside(file, 0, Header(s), 8, Le32(s.dim));
    AtInside(file, 0, Header(s), 12, [0, 0, 0, 0]);
    AtInside(file, 0, Header(s), 16, Le64(|s.ids|));
  }

  /** The parts of slot `i`: id, vector, metadata, node. */
  lemma SlotBytes(s: Index, words: seq<u64>, i: nat)
    requires FieldsFit(s) && |words| == WordCount(|s.tomb|) && i < |s.ids|
    ensures
      var file, n := FileBytes(s, words), |s.ids|;
      var metas := 24 + 8 * n + 4 * s.dim * n;
      var nodes := metas + |Concat(s.metas, EncodeText)| + 8 + 8 * |words|;
      && At(file, 24 + 8 * i, Le64(s.ids[i]))
      && At(file, 24 + 8 * n + 4 * s.dim * i, LeWords(s.vecs[i]))
      && At(file, metas + |Concat(s.metas[..i], EncodeText)|, EncodeText(s.metas[i]))
      && At(file, nodes + |Concat(s.graph[..i], EncodeNode)|, EncodeNode(s.graph[i]))
  {
    hide Concat, Le64, Le32, EncodeText, EncodeNode, EncodeVec, LeWords, At, NodeFits, Header, FileBytes, WordCount;
    SectionBytes(s, words);
    SlotInSections(s, FileBytes(s, words), i, TopAt(s) + 8 + 8 * |words|);
  }

  /** The long words with the deletion flags stand behind the entry point. */
  lemma FlagWordBytes(s: Index, words: seq<u64>, w: nat)
    requires FieldsFit(s) && |words| == WordCount(|s.tomb|) && w < |words|
    ensures
      var n := |s.ids|;
      At(FileBytes(s, words), 24 + 8 * n + 4 * s.dim * n + |Concat(s.metas, EncodeText)| + 8 + 8 * w, Le64(words[w]))
  {
    hide Concat, Le64, Le32, EncodeText, EncodeNode, EncodeVec, LeWords, At, NodeFits, Header, FileBytes, WordCount;
    SectionBytes(s, words);
    FixedAt(words, Le64, 8, w);
    AtInside(FileBytes(s, words), TopAt(s) + 8, Concat(words, Le64), 8 * w, Le64(words[w]));
  }

  // ---------- the page file ----------

  /** Pages of 4096 bytes start with their number and hold vectors of `4 * dim` bytes from byte 8 on. */
  ghost predicate OnItsPage(file: Data, dim: nat, perPage: nat, slot: nat, vec: Vec)
    requires perPage > 0
  {
    && At(file, slot / perPage * 4096, Le32(Low32(slot / perPage)))
    && At(file, slot / perPage * 4096 + 8 + slot % perPage * (4 * dim), LeWords(vec))
  }

  /** Every pushed vector stands on its page; a page holds as many as fit. */
  lemma PageFileBytes(file: Data, dim: nat, perPage: nat, pushed: seq<Vec>, slot: nat)
    requires PL.FileOk(file, dim, perPage, pushed) && slot < |pushed|
    ensures dim > 0 && perPage == 4088 / (4 * dim)
    ensures perPage > 0 && OnItsPage(file, dim, perPage, slot, pushed[slot])
  {
    hide Le32, LeWords;
    assert PL.Stored(file, perPage, slot, pushed[slot]) && PL.Headed(file, perPage, slot);
  }
}
