/** Length-prefixed lists of encoded items, and reading them back. */
module Codec {
  import opened Bytes
  import opened Wrappers

  /** A read either runs out of bytes or yields a value and what follows it. */
  type Read<+T> = Option<(T, Data)>

  /** The items one after another. */
  function Concat<T>(xs: seq<T>, enc: T -> Data): Data {
    if xs == [] then [] else enc(xs[0]) + Concat(xs[1..], enc)
  }

  /** `n` items, one after another. */
  function ReadMany<T>(b: Data, n: nat, dec: Data -> Read<T>): (r: Read<seq<T>>)
    ensures r.Some? ==> |r.value.0| == n
    decreases n
  {
    if n == 0 then Some(([], b))
    else
      match dec(b)
      case None => None
      case Some(first) =>
        match ReadMany(first.1, n - 1, dec)
        case None => None
        case Some(more) => Some(([first.0] + more.0, more.1))
  }

  /** Whatever follows the encoded item, the item is read back and exactly its bytes are consumed. */
  ghost predicate ReadsBack<T>(x: T, enc: T -> Data, dec: Data -> Read<T>) {
    forall rest: Data :: dec(enc(x) + rest) == Some((x, rest))
  }

  lemma {:induction false} ManyReadBack<T>(xs: seq<T>, enc: T -> Data, dec: Data -> Read<T>, rest: Data)
    requires forall i :: 0 <= i < |xs| ==> ReadsBack(xs[i], enc, dec)
    ensures ReadMany(Concat(xs, enc) + rest, |xs|, dec) == Some((xs, rest))
  {
    if xs == [] {
      assert Concat(xs, enc) + rest == rest;
    } else {
      var tail := Concat(xs[1..], enc) + rest;
      assert Concat(xs, enc) + rest == enc(xs[0]) + tail;
      assert ReadsBack(xs[0], enc, dec);
      ManyReadBack(xs[1..], enc, dec, rest);
      assert [xs[0]] + xs[1..] == xs;
    }
  }

  lemma {:induction false} ConcatLast<T>(xs: seq<T>, x: T, enc: T -> Data)
    ensures Concat(xs + [x], enc) == Concat(xs, enc) + enc(x)
  {
    if xs == [] {
      assert Concat([x], enc) == enc(x) + Concat([], enc);
    } else {
      ConcatLast(xs[1..], x, enc);
      assert (xs + [x])[1..] == xs[1..] + [x];
      assert enc(xs[0]) + (Concat(xs[1..], enc) + enc(x)) == (enc(xs[0]) + Concat(xs[1..], enc)) + enc(x);
    }
  }

  /** A writing loop. */
  method WriteItems<T>(xs: seq<T>, enc: T -> Data) returns (out: Data)
    ensures out == Concat(xs, enc)
  {
    out := [];
    for i := 0 to |xs|
      invariant out == Concat(xs[..i], enc)
    {
      ConcatLast(xs[..i], xs[i], enc);
      assert xs[..i + 1] == xs[..i] + [xs[i]];
      out := out + enc(xs[i]);
    }
    assert xs[..|xs|] == xs;
  }

  /** `more`, if it was read, continues the items read so far. */
  function Continue<T>(got: seq<T>, more: Read<seq<T>>): Read<seq<T>> {
    match more
    case None => None
    case Some(m) => Some((got + m.0, m.1))
  }

  lemma ContinueNothing<T>(more: Read<seq<T>>)
    ensures Continue([], more) == more
  {
    if more.Some? { assert [] + more.value.0 == more.value.0; }
  }

  lemma ContinueOne<T>(got: seq<T>, x: T, more: seq<T>, rest: Data)
    ensures Continue(got, Some(([x] + more, rest))) == Continue(got + [x], Some((more, rest)))
  {
    assert got + ([x] + more) == (got + [x]) + more;
  }

  /** A reading loop. */
  method ReadItems<T>(b: Data, n: nat, dec: Data -> Read<T>) returns (r: Read<seq<T>>)
    ensures r == ReadMany(b, n, dec)
  {
    var got: seq<T> := [];
    var rest := b;
    ContinueNothing(ReadMany(b, n, dec));
    for i := 0 to n
      invariant ReadMany(b, n, dec) == Continue(got, ReadMany(rest, n - i, dec))
    {
      var item := dec(rest);
      if item.None? { return None; }
      ghost var more := ReadMany(item.value.1, n - i - 1, dec);
      if more.Some? { ContinueOne(got, item.value.0, more.value.0, more.value.1); }
      got := got + [item.value.0];
      rest := item.value.1;
    }
    assert got + [] == got;
    return Some((got, rest));
  }

  // ---------- items ----------

  function Read32(b: Data): Read<u32> {
    if |b| < 4 then None else Some((U32(b[..4]), b[4..]))
  }

  function Read64(b: Data): Read<u64> {
    if |b| < 8 then None else Some((U64(b[..8]), b[8..]))
  }

  function ReadBytes(b: Data, n: nat): Read<Data> {
    if |b| < n then None else Some((b[..n], b[n..]))
  }

  /** Sizes and internal ids are written as 32-bit words. */
  function EncodeSize(n: nat): Data {
    Le32(Low32(n))
  }

  function ReadSize(b: Data): Read<nat> {
    match Read32(b)
    case None => None
    case Some(r) => Some((r.0 as nat, r.1))
  }

  /** A metadata string: its length in 32 bits, and that many bytes. */
  function EncodeText(m: Data): Data {
    EncodeSize(|m|) + m[..Low32(|m|)]
  }

  function ReadText(b: Data): Read<Data> {
    match Read32(b)
    case None => None
    case Some(r) => ReadBytes(r.1, r.0)
  }

  function EncodeVec(v: Vec): Data {
    Concat(v, Le32)
  }

  function ReadVec(dim: nat): Data -> Read<Vec> {
    (b: Data) => ReadMany(b, dim, Read32)
  }

  /** A neighbour list: its length in 32 bits, then that many ids. */
  function EncodeList(list: seq<nat>): Data {
    EncodeSize(|list|) + Concat(list[..Low32(|list|)], EncodeSize)
  }

  function ReadList(b: Data): Read<seq<nat>> {
    match ReadSize(b)
    case None => None
    case Some(r) => ReadMany(r.1, r.0, ReadSize)
  }

  /** A node: its number of layers, then each list. */
  function EncodeNode(layers: seq<seq<nat>>): Data {
    EncodeSize(|layers|) + Concat(layers, EncodeList)
  }

  function ReadNode(b: Data): Read<seq<seq<nat>>> {
    match ReadSize(b)
    case None => None
    case Some(r) => ReadMany(r.1, r.0, ReadList)
  }

  // ---------- items read back ----------

  lemma Read32Back(x: u32, rest: Data)
    ensures Read32(Le32(x) + rest) == Some((x, rest))
  {
    var b := Le32(x) + rest;
    assert b[..4] == Le32(x) && b[4..] == rest;
    Le32RoundTrip(x);
  }

  lemma Read64Back(x: u64, rest: Data)
    ensures Read64(Le64(x) + rest) == Some((x, rest))
  {
    var b := Le64(x) + rest;
    assert b[..8] == Le64(x) && b[8..] == rest;
    Le64RoundTrip(x);
  }

  lemma SizeReadsBack(n: nat)
    requires n < 0x1_0000_0000
    ensures ReadsBack(n, EncodeSize, ReadSize)
  {
    forall rest: Data ensures ReadSize(EncodeSize(n) + rest) == Some((n, rest)) {
      assert EncodeSize(n) == Le32(n);
      Read32Back(n, rest);
    }
  }

  lemma TextReadsBack(m: Data)
    requires |m| < 0x1_0000_0000
    ensures ReadsBack(m, EncodeText, ReadText)
  {
    forall rest: Data ensures ReadText(EncodeText(m) + rest) == Some((m, rest)) {
      assert Low32(|m|) == |m| && m[..|m|] == m;
      assert EncodeText(m) + rest == Le32(|m|) + (m + rest);
      Read32Back(|m|, m + rest);
      assert (m + rest)[..|m|] == m && (m + rest)[|m|..] == rest;
    }
  }

  lemma VecReadsBack(v: Vec)
    ensures ReadsBack(v, EncodeVec, ReadVec(|v|))
  {
    forall rest: Data ensures ReadVec(|v|)(EncodeVec(v) + rest) == Some((v, rest)) {
      forall i | 0 <= i < |v| ensures ReadsBack(v[i], Le32, Read32) {
        forall r: Data ensures Read32(Le32(v[i]) + r) == Some((v[i], r)) { Read32Back(v[i], r); }
      }
      ManyReadBack(v, Le32, Read32, rest);
    }
  }

  predicate ListFits(list: seq<nat>) {
    |list| < 0x1_0000_0000 && forall i :: 0 <= i < |list| ==> list[i] < 0x1_0000_0000
  }

  lemma ListReadsBack(list: seq<nat>)
    requires ListFits(list)
    ensures ReadsBack(list, EncodeList, ReadList)
  {
    forall rest: Data ensures ReadList(EncodeList(list) + rest) == Some((list, rest)) {
      var ids := Concat(list, EncodeSize);
      assert list[..Low32(|list|)] == list;
      assert EncodeList(list) + rest == EncodeSize(|list|) + (ids + rest);
      SizeReadsBack(|list|);
      forall i | 0 <= i < |list| ensures ReadsBack(list[i], EncodeSize, ReadSize) { SizeReadsBack(list[i]); }
      ManyReadBack(list, EncodeSize, ReadSize, rest);
    }
  }

  predicate NodeFits(layers: seq<seq<nat>>) {
    |layers| < 0x1_0000_0000 && forall i :: 0 <= i < |layers| ==> ListFits(layers[i])
  }

  lemma NodeReadsBack(layers: seq<seq<nat>>)
    requires NodeFits(layers)
    ensures ReadsBack(layers, EncodeNode, ReadNode)
  {
    forall rest: Data ensures ReadNode(EncodeNode(layers) + rest) == Some((layers, rest)) {
      var lists := Concat(layers, EncodeList);
      assert EncodeNode(layers) + rest == EncodeSize(|layers|) + (lists + rest);
      SizeReadsBack(|layers|);
      forall i | 0 <= i < |layers| ensures ReadsBack(layers[i], EncodeList, ReadList) { ListReadsBack(layers[i]); }
      ManyReadBack(layers, EncodeList, ReadList, rest);
    }
  }
}
