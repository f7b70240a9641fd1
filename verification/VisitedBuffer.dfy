/** The generation-tagged visited buffer shared by all searches of a thread. */
module VisitedBuffer {

  newtype uint16 = x: int | 0 <= x < 0x1_0000

  /** Spare room added whenever the buffer has to grow. */
  const HEADROOM := 10000

  class VisitedBuffer {
    var buf: array<uint16>
    var tag: uint16

    /** No entry carries a tag from the future, so bumping the tag empties the set. */
    ghost predicate Valid()
      reads this, buf
    {
      forall i :: 0 <= i < buf.Length ==> buf[i] <= tag
    }

    /** The set the buffer stands for. */
    ghost function Marked(): set<nat>
      reads this, buf
    {
      set i | 0 <= i < buf.Length && buf[i] == tag
    }

    constructor ()
      ensures Valid() && fresh(buf)
    {
      buf := new uint16[0];
      tag := 0;
    }

    /** Start of a search over `nv` nodes: grow if needed, bump the tag, wipe on wrap-around. */
    method Begin(nv: nat)
      requires Valid()
      modifies this, buf
      ensures Valid() && (buf == old(buf) || fresh(buf))
      ensures buf.Length == if old(buf.Length) < nv then nv + 10000 else old(buf.Length)
      ensures Marked() == {} && 1 <= tag
    {
      if buf.Length < nv {
        Grow(nv + HEADROOM);
      }
      tag := if tag == 0xFFFF then 0 else tag + 1;
      if tag == 0 {
        for i := 0 to buf.Length
          modifies buf
          invariant forall j :: 0 <= j < i ==> buf[j] == 0
        {
          buf[i] := 0;
        }
        tag := 1;
      }
    }

    method Grow(size: nat)
      requires Valid() && buf.Length < size
      modifies this
      ensures Valid() && fresh(buf) && tag == old(tag)
      ensures buf.Length == size
      ensures forall i :: 0 <= i < size ==> buf[i] == if i < old(buf.Length) then old(buf[i]) else 0
    {
      var bigger := new uint16[size];
      for i := 0 to size
        modifies bigger
        invariant forall j :: 0 <= j < i ==> bigger[j] == if j < buf.Length then buf[j] else 0
      {
        bigger[i] := if i < buf.Length then buf[i] else 0;
      }
      buf := bigger;
    }

    method IsMarked(v: nat) returns (seen: bool)
      requires Valid() && v < buf.Length
      ensures seen <==> v in Marked()
    {
      seen := buf[v] == tag;
    }

    method Mark(v: nat)
      requires Valid() && v < buf.Length
      modifies buf
      ensures Valid()
      ensures Marked() == old(Marked()) + {v}
    {
      buf[v] := tag;
    }
  }
}
