/** Where the bytes of a number lie: little-endian fields at fixed offsets. */
module Layout {
  import opened Bytes
  import Align

  /** Byte i of a number, least significant first. */
  function ByteOf(n: nat, i: nat): Byte { n / Pow256(i) % 256 }

  /** The number n stands at `off`, `width` bytes wide. */
  ghost predicate Field(w: seq<Byte>, off: nat, n: nat, width: nat) {
    off + width <= |w| && forall i :: 0 <= i < width ==> w[off + i] == ByteOf(n, i)
  }

  lemma {:induction false} LEByte(v: nat, n: nat, i: nat)
    requires i < n
    ensures LE(v, n)[i] == ByteOf(v, i)
  {
    if i > 0 {
      LEByte(v / 256, n - 1, i - 1);
      Align.NestedDivision(v, 256, Pow256(i - 1));
    }
  }

  /** A little-endian number inside a longer string is a field of it. */
  lemma FieldAt(w: seq<Byte>, pre: seq<Byte>, v: nat, width: nat, post: seq<Byte>)
    requires w == pre + LE(v, width) + post
    ensures Field(w, |pre|, v, width)
  {
    hide LE;
    forall i | 0 <= i < width ensures w[|pre| + i] == ByteOf(v, i) {
      LEByte(v, width, i);
    }
  }

  lemma SliceAt(w: seq<Byte>, pre: seq<Byte>, mid: seq<Byte>, post: seq<Byte>)
    requires w == pre + mid + post
    ensures |w| == |pre| + |mid| + |post| && w[|pre|..|pre| + |mid|] == mid
  {
  }

  function FourBytes(a: nat, b: nat, c: nat, d: nat): nat { a + 0x100 * b + 0x1_0000 * c + 0x100_0000 * d }

  /** Four little-endian bytes, added up. */
  lemma FourBytesLE(s: seq<Byte>)
    requires |s| == 4
    ensures FromLE(s) == FourBytes(s[0], s[1], s[2], s[3])
  {
    assert FromLE(s[3..]) == s[3] by { assert s[3..][1..] == []; }
    assert FromLE(s[2..]) == s[2] + 256 * FromLE(s[3..]) by { assert s[2..][1..] == s[3..]; }
    assert FromLE(s[1..]) == s[1] + 256 * FromLE(s[2..]) by { assert s[1..][1..] == s[2..]; }
  }
}
