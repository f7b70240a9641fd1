/** Packing deletion flags into 64-bit words and back. */
module Tombstones {
  import opened Bytes

  predicate Bit(w: bv64, k: bv6) {
    (w >> k) & 1 == 1
  }

  function WithBit(w: bv64, k: bv6): bv64 {
    w | (1 << k)
  }

  lemma SetBit(w: bv64, j: bv6, k: bv6)
    ensures Bit(w | (1 << j), k) <==> j == k || Bit(w, k)
  {
  }

  lemma NoBit(k: bv6)
    ensures !Bit(0, k)
  {
  }

  /** Position of slot `i` inside its word. */
  function Pos(i: nat): bv6 {
    (i % 64) as bv6
  }

  lemma SamePlace(i: nat, j: nat)
    ensures i / 64 == j / 64 && Pos(i) == Pos(j) <==> i == j
  {
    PosValue(i % 64);
    PosValue(j % 64);
  }

  lemma PosValue(k: nat)
    requires k < 64
    ensures (k as bv6) as nat == k
  {
  }

  function WordCount(n: nat): nat {
    (n + 63) / 64
  }

  /** The flag of slot `i` in the word array. */
  predicate FlagAt(bits: seq<bv64>, i: nat)
    requires i / 64 < |bits|
  {
    Bit(bits[i / 64], Pos(i))
  }

  function ToBits(word: u64): bv64 {
    word as bv64
  }

  function BitsOf(words: seq<u64>): (bits: seq<bv64>)
    ensures |bits| == |words| && forall i :: 0 <= i < |words| ==> bits[i] == ToBits(words[i])
  {
    seq(|words|, i requires 0 <= i < |words| => ToBits(words[i]))
  }

  /** Reading the flags back from the packed words. */
  function Unpack(words: seq<u64>, n: nat): (flags: seq<bool>)
    requires |words| == WordCount(n)
    ensures |flags| == n && forall i :: 0 <= i < n ==> flags[i] == FlagAt(BitsOf(words), i)
  {
    seq(n, i requires 0 <= i < n => FlagAt(BitsOf(words), i))
  }

  /** `tbits[i / 64] |= uint64_t(1) << (i % 64)` */
  function WithFlag(bits: seq<bv64>, i: nat): (r: seq<bv64>)
    requires i / 64 < |bits|
    ensures |r| == |bits|
  {
    bits[i / 64 := WithBit(bits[i / 64], Pos(i))]
  }

  lemma OnlyThatBit(bits: seq<bv64>, w: nat, k: bv6, v: nat, l: bv6)
    requires w < |bits| && v < |bits|
    ensures Bit(bits[w := WithBit(bits[w], k)][v], l) <==> (w == v && k == l) || Bit(bits[v], l)
  {
    hide Bit;
    if w == v { SetBit(bits[w], k, l); }
  }

  /** Setting one flag changes no other. */
  lemma OnlyThatFlag(bits: seq<bv64>, i: nat, j: nat)
    requires i / 64 < |bits| && j / 64 < |bits|
    ensures FlagAt(WithFlag(bits, i), j) <==> i == j || FlagAt(bits, j)
  {
    hide Bit, Pos, WithBit;
    OnlyThatBit(bits, i / 64, Pos(i), j / 64, Pos(j));
    SamePlace(i, j);
  }

  /** The packing loop: one bit set per tombstone. */
  method Pack(flags: seq<bool>) returns (words: seq<u64>)
    ensures |words| == WordCount(|flags|)
    ensures Unpack(words, |flags|) == flags
  {
    hide Bit, FlagAt, WithFlag, Pos;
    var n := |flags|;
    var bits := seq(WordCount(n), _ => 0 as bv64);
    forall j | 0 <= j < n ensures !FlagAt(bits, j) { EmptyWords(bits, j); }
    for i := 0 to n
      invariant |bits| == WordCount(n)
      invariant forall j :: 0 <= j < n ==> (FlagAt(bits, j) <==> j < i && flags[j])
    {
      if flags[i] {
        forall j | 0 <= j < n ensures FlagAt(WithFlag(bits, i), j) <==> i == j || FlagAt(bits, j) {
          OnlyThatFlag(bits, i, j);
        }
        bits := WithFlag(bits, i);
      }
    }
    words := WordValues(bits);
    WordsBack(bits);
    assert Unpack(words, n) == flags;
  }

  lemma EmptyWords(bits: seq<bv64>, j: nat)
    requires j / 64 < |bits| && bits[j / 64] == 0
    ensures !FlagAt(bits, j)
  {
    NoBit(Pos(j));
  }

  function WordValues(bits: seq<bv64>): (words: seq<u64>)
    ensures |words| == |bits| && forall i :: 0 <= i < |bits| ==> words[i] == bits[i] as nat
  {
    seq(|bits|, i requires 0 <= i < |bits| => bits[i] as nat)
  }

  lemma WordBack(w: bv64)
    ensures ToBits(w as nat) == w
  {
  }

  lemma WordsBack(bits: seq<bv64>)
    ensures BitsOf(WordValues(bits)) == bits
  {
    forall i | 0 <= i < |bits| ensures BitsOf(WordValues(bits))[i] == bits[i] {
      WordBack(bits[i]);
    }
  }
}
