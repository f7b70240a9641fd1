/** Fixed-width unsigned words and their little-endian bytes, as written by `fwrite` of an integer. */
module Bytes {

  type u8 = x: nat | x < 0x100
  type u32 = x: nat | x < 0x1_0000_0000
  type u64 = x: nat | x < 0x1_0000_0000_0000_0000

  type Data = seq<u8>

  /** A float is carried around as its 32-bit pattern. */
  type Vec = seq<u32>

  /** `static_cast<uint32_t>` of a size. */
  function Low32(n: nat): u32 {
    n % 0x1_0000_0000
  }

  // ---------- encoding ----------

  function Le32(x: u32): (r: Data)
    ensures |r| == 4
  {
    [x % 256, x / 256 % 256, x / 256 / 256 % 256, x / 256 / 256 / 256]
  }

  function Le64(x: u64): (r: Data)
    ensures |r| == 8
  {
    Le32(x % 0x1_0000_0000) + Le32(x / 0x1_0000_0000)
  }

  function LeWords(ws: seq<u32>): (r: Data)
    ensures |r| == 4 * |ws|
  {
    if ws == [] then [] else Le32(ws[0]) + LeWords(ws[1..])
  }

  // ---------- decoding ----------

  function U32(b: Data): u32
    requires |b| == 4
  {
    b[0] as int + 256 * (b[1] as int + 256 * (b[2] as int + 256 * b[3] as int))
  }

  function U64(b: Data): u64
    requires |b| == 8
  {
    U32(b[..4]) as int + 0x1_0000_0000 * U32(b[4..]) as int
  }

  /** `n` consecutive words. */
  function Words(b: Data, n: nat): (ws: seq<u32>)
    requires |b| == 4 * n
    ensures |ws| == n
  {
    if n == 0 then [] else [U32(b[..4])] + Words(b[4..], n - 1)
  }

  // ---------- round trips ----------

  lemma Le32RoundTrip(x: u32)
    ensures U32(Le32(x)) == x
  {
  }

  lemma Le64RoundTrip(x: u64)
    ensures U64(Le64(x)) == x
  {
    assert Le64(x)[..4] == Le32(x % 0x1_0000_0000) && Le64(x)[4..] == Le32(x / 0x1_0000_0000);
    Le32RoundTrip(x % 0x1_0000_0000);
    Le32RoundTrip(x / 0x1_0000_0000);
  }

  lemma {:induction false} WordsRoundTrip(ws: seq<u32>)
    ensures Words(LeWords(ws), |ws|) == ws
  {
    if ws != [] {
      assert LeWords(ws)[..4] == Le32(ws[0]) && LeWords(ws)[4..] == LeWords(ws[1..]);
      Le32RoundTrip(ws[0]);
      WordsRoundTrip(ws[1..]);
    }
  }
}
