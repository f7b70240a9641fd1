/** The index file: what `save` writes, what `load` reads, and that the second undoes the first. */
module IndexFile {
  import opened Bytes
  import opened Wrappers
  import opened BeamSearch
  import opened Codec
  import opened Tombstones
  import opened Hnsw

  const MAGIC: u32 := 0x4E444220
  const VERSION: u32 := 2

  datatype LoadError = BadMagic | Truncated

  // ---------- writing ----------

  function HeaderOf(version: u32, s: Index): Data
    requires |s.ids| < 0x1_0000_0000_0000_0000
  {
    Le32(MAGIC) + (Le32(version) + (Le32(Low32(s.dim)) + (Le32(0) + Le64(|s.ids|))))
  }

  function Header(s: Index): Data
    requires |s.ids| < 0x1_0000_0000_0000_0000
  {
    HeaderOf(VERSION, s)
  }

  /** Ids, vectors and metadata. */
  function Arrays(s: Index): Data {
    Concat(s.ids, Le64) + (Concat(s.vecs, EncodeVec) + Concat(s.metas, EncodeText))
  }

  /** Entry point, tombstones and links. */
  function Topology(s: Index, words: seq<u64>): Data {
    Le32(Low32(s.maxLayer)) + (Le32(Low32(s.entry)) + (Concat(words, Le64) + Concat(s.graph, EncodeNode)))
  }

  function Body(s: Index, words: seq<u64>): Data {
    Arrays(s) + Topology(s, words)
  }

  function FileBytes(s: Index, words: seq<u64>): Data
    requires |s.ids| < 0x1_0000_0000_0000_0000
  {
    Header(s) + Body(s, words)
  }

  /** `file` is what `save` writes for `s`. */
  ghost predicate Saved(s: Index, file: Data) {
    && |s.ids| < 0x1_0000_0000_0000_0000
    && exists words ::
         && |words| == WordCount(|s.tomb|) && Unpack(words, |s.tomb|) == s.tomb
         && file == FileBytes(s, words)
  }

  // ---------- reading ----------

  datatype Prefix = Prefix(magic: u32, version: u32, dim: u32, count: u64)

  /** Everything after the header. */
  datatype Image = Image(ids: seq<u64>, vecs: seq<Vec>, metas: seq<Data>, maxLayer: u32, entry: u32, words: seq<u64>, graph: Graph)

  function ReadHeader(b: Data): Read<Prefix> {
    var (magic, b1) :- Read32(b);
    var (version, b2) :- Read32(b1);
    var (dim, b3) :- Read32(b2);
    var (_, b4) :- Read32(b3);
    var (count, b5) :- Read64(b4);
    Some((Prefix(magic, version, dim, count), b5))
  }

  /** Files before version 2 hold no tombstones. */
  function ReadTombs(b: Data, p: Prefix): (r: Read<seq<u64>>)
    ensures r.Some? && p.version >= 2 ==> |r.value.0| == WordCount(p.count)
  {
    if p.version >= 2 then ReadMany(b, WordCount(p.count), Read64) else Some(([], b))
  }

  function ReadArrays(b: Data, p: Prefix): (r: Read<(seq<u64>, seq<Vec>, seq<Data>)>)
    ensures r.Some? ==> |r.value.0.0| == |r.value.0.1| == |r.value.0.2| == p.count
  {
    var (ids, b1) :- ReadMany(b, p.count, Read64);
    var (vecs, b2) :- ReadMany(b1, p.count, ReadVec(p.dim));
    var (metas, b3) :- ReadMany(b2, p.count, ReadText);
    Some(((ids, vecs, metas), b3))
  }

  function ReadTopology(b: Data, p: Prefix): (r: Read<(u32, u32, seq<u64>, Graph)>)
    ensures r.Some? ==> |r.value.0.3| == p.count
    ensures r.Some? && p.version >= 2 ==> |r.value.0.2| == WordCount(p.count)
  {
    var (maxLayer, b1) :- Read32(b);
    var (entry, b2) :- Read32(b1);
    var (words, b3) :- ReadTombs(b2, p);
    var (graph, b4) :- ReadMany(b3, p.count, ReadNode);
    Some(((maxLayer, entry, words, graph), b4))
  }

  function ReadBody(b: Data, p: Prefix): (r: Read<Image>)
    ensures r.Some? ==> |r.value.0.ids| == |r.value.0.vecs| == |r.value.0.metas| == |r.value.0.graph| == p.count
    ensures r.Some? && p.version >= 2 ==> |r.value.0.words| == WordCount(p.count)
  {
    var (arrays, b1) :- ReadArrays(b, p);
    var (top, b2) :- ReadTopology(b1, p);
    Some((Image(arrays.0, arrays.1, arrays.2, top.0, top.1, top.2, top.3), b2))
  }

  /** Header, image and the bytes left over. */
  function Decode(file: Data): Result<(Prefix, Image, Data), LoadError> {
    match Read32(file)
    case None => Failure(Truncated)
    case Some(magic) =>
      if magic.0 != MAGIC then Failure(BadMagic)
      else
        match ReadHeader(file)
        case None => Failure(Truncated)
        case Some(h) =>
          match ReadBody(h.1, h.0)
          case None => Failure(Truncated)
          case Some(im) => Success((h.0, im.0, im.1))
  }

  lemma MagicComesFirst(b: Data)
    requires ReadHeader(b).Some?
    ensures Read32(b).Some? && Read32(b).value.0 == ReadHeader(b).value.0.magic
  {
  }

  /** A file is refused for its magic number exactly when it has four bytes and they are not these four. */
  lemma RefusedIff(file: Data)
    ensures Decode(file) == Failure(BadMagic) <==> |file| >= 4 && file[..4] != [0x20, 0x42, 0x44, 0x4E]
  {
    hide ReadHeader, ReadBody;
    if |file| >= 4 {
      MagicBytes(file[0], file[1], file[2], file[3]);
      assert file[..4] == [file[0], file[1], file[2], file[3]];
    }
  }

  /** What a saved file starts with: the magic number and version 2. */
  lemma SavedStarts(s: Index, file: Data)
    requires Saved(s, file)
    ensures |file| >= 24 && file[..8] == [0x20, 0x42, 0x44, 0x4E, 2, 0, 0, 0]
  {
    hide Body, Le64;
    assert file[..8] == Header(s)[..8] == Le32(MAGIC) + Le32(VERSION);
  }

  lemma MagicBytes(a: u8, b: u8, c: u8, d: u8)
    ensures U32([a, b, c, d]) == MAGIC <==> [a, b, c, d] == [0x20, 0x42, 0x44, 0x4E]
  {
  }

  /** The version stands behind the magic number. */
  lemma VersionBytes(file: Data)
    requires Decode(file).Success?
    ensures |file| >= 8 && Decode(file).value.0.version == U32(file[4..8])
  {
    hide ReadBody;
    assert file[4..][..4] == file[4..8];
  }

  /** As many entries as the header says. */
  ghost predicate FitsCounts(p: Prefix, im: Image) {
    && |im.ids| == |im.vecs| == |im.metas| == |im.graph| == p.count
    && (p.version >= 2 ==> |im.words| == WordCount(p.count))
  }

  /** `tombstone_.resize(n, false)` keeps what flags there were. */
  function Resized(flags: seq<bool>, n: nat): (r: seq<bool>)
    ensures |r| == n
  {
    seq(n, i => 0 <= i < |flags| && flags[i])
  }

  /** The state after loading; `old` is what the index held before, `history` goes with the loaded links. */
  function Loaded(before: Index, p: Prefix, im: Image, history: seq<seq<set<nat>>>): Index
    requires FitsCounts(p, im)
  {
    Index(p.dim, im.vecs, im.ids, im.metas,
          if p.version >= 2 then Unpack(im.words, p.count) else Resized(before.tomb, p.count),
          im.graph, history, im.maxLayer, im.entry)
  }

  // ---------- round trip ----------

  /** Every size and internal id fits its 32-bit field. */
  ghost predicate FieldsFit(s: Index) {
    && s.dim < 0x1_0000_0000 && s.maxLayer < 0x1_0000_0000 && s.entry < 0x1_0000_0000
    && |s.ids| < 0x1_0000_0000
    && |s.vecs| == |s.metas| == |s.tomb| == |s.graph| == |s.ids|
    && (forall i :: 0 <= i < |s.vecs| ==> |s.vecs[i]| == s.dim)
    && (forall i :: 0 <= i < |s.metas| ==> |s.metas[i]| < 0x1_0000_0000)
    && (forall i :: 0 <= i < |s.graph| ==> NodeFits(s.graph[i]))
  }

  lemma Drop(a: Data, b: Data, c: Data)
    ensures (a + b) + c == a + (b + c)
  {
  }

  lemma Low32Small(n: nat)
    requires n < 0x1_0000_0000
    ensures Low32(n) == n
  {
  }

  lemma HeaderReadsBack(version: u32, s: Index, rest: Data)
    requires s.dim < 0x1_0000_0000 && |s.ids| < 0x1_0000_0000_0000_0000
    ensures ReadHeader(HeaderOf(version, s) + rest) == Some((Prefix(MAGIC, version, s.dim, |s.ids|), rest))
  {
    hide Low32, Le32, Le64, Read32, Read64;
    Low32Small(s.dim);
    var d := Le64(|s.ids|);
    var c := Le32(0) + d;
    var b := Le32(s.dim) + c;
    var a := Le32(version) + b;
    assert HeaderOf(version, s) == Le32(MAGIC) + a;
    Drop(Le32(MAGIC), a, rest);
    Drop(Le32(version), b, rest);
    Drop(Le32(s.dim), c, rest);
    Drop(Le32(0), d, rest);
    Read32Back(MAGIC, a + rest);
    Read32Back(version, b + rest);
    Read32Back(s.dim, c + rest);
    Read32Back(0, d + rest);
    Read64Back(|s.ids|, rest);
  }

  lemma IdsReadBack(ids: seq<u64>, rest: Data)
    ensures ReadMany(Concat(ids, Le64) + rest, |ids|, Read64) == Some((ids, rest))
  {
    forall i | 0 <= i < |ids| ensures ReadsBack(ids[i], Le64, Read64) {
      forall r: Data ensures Read64(Le64(ids[i]) + r) == Some((ids[i], r)) { Read64Back(ids[i], r); }
    }
    ManyReadBack(ids, Le64, Read64, rest);
  }

  lemma VecsReadBack(vecs: seq<Vec>, dim: nat, rest: Data)
    requires forall i :: 0 <= i < |vecs| ==> |vecs[i]| == dim
    ensures ReadMany(Concat(vecs, EncodeVec) + rest, |vecs|, ReadVec(dim)) == Some((vecs, rest))
  {
    forall i | 0 <= i < |vecs| ensures ReadsBack(vecs[i], EncodeVec, ReadVec(dim)) { VecReadsBack(vecs[i]); }
    ManyReadBack(vecs, EncodeVec, ReadVec(dim), rest);
  }

  lemma TextsReadBack(metas: seq<Data>, rest: Data)
    requires forall i :: 0 <= i < |metas| ==> |metas[i]| < 0x1_0000_0000
    ensures ReadMany(Concat(metas, EncodeText) + rest, |metas|, ReadText) == Some((metas, rest))
  {
    forall i | 0 <= i < |metas| ensures ReadsBack(metas[i], EncodeText, ReadText) { TextReadsBack(metas[i]); }
    ManyReadBack(metas, EncodeText, ReadText, rest);
  }

  lemma GraphReadsBack(graph: Graph, rest: Data)
    requires forall i :: 0 <= i < |graph| ==> NodeFits(graph[i])
    ensures ReadMany(Concat(graph, EncodeNode) + rest, |graph|, ReadNode) == Some((graph, rest))
  {
    forall i | 0 <= i < |graph| ensures ReadsBack(graph[i], EncodeNode, ReadNode) { NodeReadsBack(graph[i]); }
    ManyReadBack(graph, EncodeNode, ReadNode, rest);
  }

  lemma ArraysReadBack(version: u32, s: Index, rest: Data)
    requires FieldsFit(s)
    ensures ReadArrays(Arrays(s) + rest, Prefix(MAGIC, version, s.dim, |s.ids|)) == Some(((s.ids, s.vecs, s.metas), rest))
  {
    hide Concat, ReadMany, Le64, Read64, EncodeVec, ReadVec, EncodeText, ReadText;
    var c := Concat(s.metas, EncodeText);
    var b := Concat(s.vecs, EncodeVec) + c;
    Drop(Concat(s.ids, Le64), b, rest);
    Drop(Concat(s.vecs, EncodeVec), c, rest);
    IdsReadBack(s.ids, b + rest);
    VecsReadBack(s.vecs, s.dim, c + rest);
    TextsReadBack(s.metas, rest);
  }

  /** As many tombstone words as the version asks for. */
  predicate WordsFit(version: u32, s: Index, words: seq<u64>) {
    |words| == if version >= 2 then WordCount(|s.tomb|) else 0
  }

  lemma TopologyReadsBack(version: u32, s: Index, words: seq<u64>, rest: Data)
    requires FieldsFit(s) && WordsFit(version, s, words)
    ensures ReadTopology(Topology(s, words) + rest, Prefix(MAGIC, version, s.dim, |s.ids|))
         == Some(((s.maxLayer, s.entry, words, s.graph), rest))
  {
    hide Concat, ReadMany, Le32, Le64, Read32, Read64, EncodeNode, ReadNode, Low32;
    Low32Small(s.maxLayer);
    Low32Small(s.entry);
    var g := Concat(s.graph, EncodeNode);
    var f := Concat(words, Le64) + g;
    var e := Le32(s.entry) + f;
    Drop(Le32(s.maxLayer), e, rest);
    Drop(Le32(s.entry), f, rest);
    Drop(Concat(words, Le64), g, rest);
    Read32Back(s.maxLayer, e + rest);
    Read32Back(s.entry, f + rest);
    TombsReadBack(version, s, words, g + rest);
    GraphReadsBack(s.graph, rest);
  }

  lemma TombsReadBack(version: u32, s: Index, words: seq<u64>, rest: Data)
    requires FieldsFit(s) && WordsFit(version, s, words)
    ensures ReadTombs(Concat(words, Le64) + rest, Prefix(MAGIC, version, s.dim, |s.ids|)) == Some((words, rest))
  {
    IdsReadBack(words, rest);
  }

  lemma BodyReadsBack(version: u32, s: Index, words: seq<u64>, rest: Data)
    requires FieldsFit(s) && WordsFit(version, s, words)
    ensures ReadBody(Body(s, words) + rest, Prefix(MAGIC, version, s.dim, |s.ids|))
         == Some((Image(s.ids, s.vecs, s.metas, s.maxLayer, s.entry, words, s.graph), rest))
  {
    hide Arrays, Topology, ReadArrays, ReadTopology;
    Drop(Arrays(s), Topology(s, words), rest);
    ArraysReadBack(version, s, Topology(s, words) + rest);
    TopologyReadsBack(version, s, words, rest);
  }

  // ---------- everything read fits ----------

  /** Whatever a reader yields satisfies `fits`. */
  ghost predicate Yields<T>(dec: Data -> Read<T>, fits: T -> bool) {
    forall b: Data :: dec(b).Some? ==> fits(dec(b).value.0)
  }

  lemma {:induction false} ManyYield<T>(b: Data, n: nat, dec: Data -> Read<T>, fits: T -> bool)
    requires Yields(dec, fits) && ReadMany(b, n, dec).Some?
    ensures forall i :: 0 <= i < n ==> fits(ReadMany(b, n, dec).value.0[i])
    decreases n
  {
    if n > 0 { ManyYield(dec(b).value.1, n - 1, dec, fits); }
  }

  lemma SizesYield()
    ensures Yields(ReadSize, n => n < 0x1_0000_0000)
  {
  }

  lemma TextsYield()
    ensures Yields(ReadText, (m: Data) => |m| < 0x1_0000_0000)
  {
  }

  lemma ListsYield()
    ensures Yields(ReadList, ListFits)
  {
    SizesYield();
    forall b: Data | ReadList(b).Some? ensures ListFits(ReadList(b).value.0) {
      var (n, rest) := ReadSize(b).value;
      ManyYield(rest, n, ReadSize, n => n < 0x1_0000_0000);
    }
  }

  lemma NodesYield()
    ensures Yields(ReadNode, NodeFits)
  {
    ListsYield();
    forall b: Data | ReadNode(b).Some? ensures NodeFits(ReadNode(b).value.0) {
      var (n, rest) := ReadSize(b).value;
      ManyYield(rest, n, ReadList, ListFits);
    }
  }

  /** A file can only ever hold metadata and links that fit their 32-bit fields. */
  lemma DecodedFits(file: Data)
    requires Decode(file).Success?
    ensures
      var im := Decode(file).value.1;
      && (forall i :: 0 <= i < |im.metas| ==> |im.metas[i]| < 0x1_0000_0000)
      && (forall i :: 0 <= i < |im.graph| ==> NodeFits(im.graph[i]))
  {
    TextsYield();
    NodesYield();
    var (p, b) := ReadHeader(file).value;
    var ids := ReadMany(b, p.count, Read64).value;
    var vecs := ReadMany(ids.1, p.count, ReadVec(p.dim)).value;
    var metas := ReadMany(vecs.1, p.count, ReadText).value;
    ManyYield(vecs.1, p.count, ReadText, (m: Data) => |m| < 0x1_0000_0000);
    var maxLayer := Read32(metas.1).value;
    var entry := Read32(maxLayer.1).value;
    var words := ReadTombs(entry.1, p).value;
    ManyYield(words.1, p.count, ReadNode, NodeFits);
  }

  /** A file of any version, written for `s`, decodes to the fields of `s`, and the bytes behind it are left. */
  lemma FileReadsBack(version: u32, s: Index, words: seq<u64>, rest: Data)
    requires FieldsFit(s) && WordsFit(version, s, words)
    ensures
      Decode(HeaderOf(version, s) + Body(s, words) + rest) ==
      Success((Prefix(MAGIC, version, s.dim, |s.ids|), Image(s.ids, s.vecs, s.metas, s.maxLayer, s.entry, words, s.graph), rest))
  {
    hide ReadHeader, ReadBody, HeaderOf, Body;
    Drop(HeaderOf(version, s), Body(s, words), rest);
    HeaderReadsBack(version, s, Body(s, words) + rest);
    MagicComesFirst(HeaderOf(version, s) + Body(s, words) + rest);
    BodyReadsBack(version, s, words, rest);
  }

  /**
   Save and load: reading what was saved restores every field of the index, from whatever state the
   loading index was in, and stops exactly where the file ends; bytes behind it are not touched.
   */
  lemma LoadUndoesSave(s: Index, before: Index, file: Data, rest: Data)
    requires FieldsFit(s) && Saved(s, file)
    ensures Decode(file + rest).Success?
    ensures
      var r := Decode(file + rest).value;
      && r.2 == rest && FitsCounts(r.0, r.1)
      && Loaded(before, r.0, r.1, s.offered) == s
  {
    hide Decode, HeaderOf, Body, Unpack;
    var words :|
      && |words| == WordCount(|s.tomb|) && Unpack(words, |s.tomb|) == s.tomb
      && file == FileBytes(s, words);
    FileReadsBack(VERSION, s, words, rest);
  }

  /**
   Files of the first version hold no tombstone words.  Loading one restores every field but the deletion flags,
   which stay those of the loading index: a new index comes out with none deleted.
   */
  lemma OldFileLoads(version: u32, s: Index, before: Index, rest: Data)
    requires FieldsFit(s) && version < 2
    ensures Decode(HeaderOf(version, s) + Body(s, []) + rest).Success?
    ensures
      var r := Decode(HeaderOf(version, s) + Body(s, []) + rest).value;
      && r.2 == rest && FitsCounts(r.0, r.1)
      && var t := Loaded(before, r.0, r.1, s.offered);
         && t.(tomb := s.tomb) == s && |t.tomb| == |s.ids|
         && forall i :: 0 <= i < |s.ids| ==> (t.tomb[i] <==> i < |before.tomb| && before.tomb[i])
  {
    hide Decode, HeaderOf, Body;
    FileReadsBack(version, s, [], rest);
  }
}
