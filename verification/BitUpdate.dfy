/** SETBIT and GETBIT on a bitmap, and what a SETBIT does to every later count. */
module BitUpdate {
  import opened Words
  import opened BitCount

  /** A 0/1 byte. */
  function OneBit(b: bool): Octet { Fill(7, false) + [b] }

  /** The bitmap with one bit replaced. */
  function WithBit(v: Bitmap, p: nat, b: bool): Bitmap
    requires p < 8 * |v|
  {
    v[p / 8 := v[p / 8][p % 8 := b]]
  }

  /** Whether the shifted byte has a one at position i. */
  predicate Lands(put: Octet, k: nat, i: nat)
    requires k < 8
  {
    i <= k && put[i + 7 - k]
  }

  /** What the mask expression makes of octet o at bit k for an arbitrary byte: its low bit lands on k, and
      its other bits are or-ed into the positions before k. */
  function Spliced(o: Octet, k: nat, put: Octet): Octet
    requires k < 8
  {
    seq(8, i requires 0 <= i < 8 => if i < k then o[i] || Lands(put, k, i) else if i == k then put[7] else o[i])
  }

  lemma MaskedWrite(o: Octet, k: nat, put: Octet)
    requires k < 8
    ensures Or(And(o, Not(Shl(OneBit(true), 7 - k))), Shl(put, 7 - k)) == Spliced(o, k, put)
    ensures And(Shr(o, 7 - k), OneBit(true)) == OneBit(o[k])
  {
    var one, put' := Shl(OneBit(true), 7 - k), Shl(put, 7 - k);
    assert forall i :: 0 <= i < 8 ==> one[i] == (i == k) && put'[i] == Lands(put, k, i);
    assert Shr(o, 7 - k)[7] == o[k];
  }

  /** Exactly one bit is written when no stray bit of the byte meets a clear bit; 0 and 1 have none. */
  lemma SplicedOneBit(o: Octet, k: nat, put: Octet)
    requires k < 8
    ensures Spliced(o, k, put) == o[k := put[7]] <==> forall i :: 0 <= i < k && Lands(put, k, i) ==> o[i]
    ensures put == OneBit(put[7]) ==> Spliced(o, k, put) == o[k := put[7]]
  {
    var r, w := Spliced(o, k, put), o[k := put[7]];
    assert forall i :: 0 <= i < 8 ==> (r[i] == w[i] <==> !(i < k && Lands(put, k, i) && !o[i]));
    if put == OneBit(put[7]) {
      assert forall i :: 0 <= i < k ==> !Lands(put, k, i);
    }
    if forall i :: 0 <= i < k && Lands(put, k, i) ==> o[i] {
      assert r == w;
    }
  }

  method UpdateBitmap(value: array<Octet>, offset: nat, put: Octet) returns (previous: Octet)
    requires offset / 8 < value.Length
    modifies value
    ensures value[..] == old(value[..])[offset / 8 := Spliced(old(value[..])[offset / 8], offset % 8, put)]
    ensures put == OneBit(put[7]) ==> value[..] == WithBit(old(value[..]), offset, put[7])
    ensures previous == OneBit(Bit(old(value[..]), offset))
  {
    hide Or, And, Not, Shl, Shr, Spliced;
    var byteIndex, bitIndex := offset / 8, 7 - offset % 8;
    var o := value[byteIndex];
    MaskedWrite(o, offset % 8, put);
    SplicedOneBit(o, offset % 8, put);
    previous := And(Shr(o, bitIndex), OneBit(true));
    value[byteIndex] := Or(And(o, Not(Shl(OneBit(true), bitIndex))), Shl(put, bitIndex));
  }

  /** Offsets outside the payload, negative ones included, read as zero. */
  function GetBit(offset: int, v: Bitmap): (r: Octet)
    ensures r == OneBit(0 <= offset < 8 * |v| && Bit(v, offset))
  {
    if offset < 0 || offset / 8 >= |v| then Fill(7, false) + [false]
    else
      MaskedWrite(v[offset / 8], offset % 8, OneBit(false));
      And(Shr(v[offset / 8], 7 - offset % 8), OneBit(true))
  }

  /** Reading after writing: the new bit at its own offset, the old ones everywhere else. */
  lemma GetAfterUpdate(v: Bitmap, p: nat, b: bool, q: int)
    requires p < 8 * |v|
    ensures GetBit(q, WithBit(v, p, b)) == if q == p then OneBit(b) else GetBit(q, v)
  {
  }

  /** A write moves every count of a range around it by exactly the difference of the two bits. */
  lemma {:induction false} CountAfterUpdate(v: Bitmap, p: nat, b: bool, lo: nat, hi: nat)
    requires p < 8 * |v| && hi <= 8 * |v|
    ensures CountRange(WithBit(v, p, b), lo, hi) + (if lo <= p < hi && Bit(v, p) then 1 else 0)
         == CountRange(v, lo, hi) + (if lo <= p < hi && b then 1 else 0)
    decreases hi - lo
  {
    if lo < hi {
      CountAfterUpdate(v, p, b, lo + 1, hi);
      BitAfterUpdate(v, p, b, lo);
      hide WithBit, Bit;
    }
  }

  lemma BitAfterUpdate(v: Bitmap, p: nat, b: bool, q: nat)
    requires p < 8 * |v| && q < 8 * |v|
    ensures Bit(WithBit(v, p, b), q) == if q == p then b else Bit(v, q)
  {
  }
}
