/** Machine words as bit strings, most significant bit first, and bitmaps as strings of octets. */
module Words {
  import opened Wrappers

  type Word = seq<bool>
  type Octet = w: seq<bool> | |w| == 8 witness [false, false, false, false, false, false, false, false]

  // ------------------------------------------------------------------ word operations

  function Fill(n: nat, b: bool): (w: Word)
    ensures |w| == n && forall i :: 0 <= i < n ==> w[i] == b
  {
    seq(n, _ => b)
  }

  function Not(w: Word): (r: Word)
    ensures |r| == |w| && forall i :: 0 <= i < |w| ==> r[i] == !w[i]
  {
    seq(|w|, i requires 0 <= i < |w| => !w[i])
  }

  function And(a: Word, b: Word): (r: Word)
    requires |a| == |b|
    ensures |r| == |a| && forall i :: 0 <= i < |a| ==> r[i] == (a[i] && b[i])
  {
    seq(|a|, i requires 0 <= i < |a| => a[i] && b[i])
  }

  function Or(a: Word, b: Word): (r: Word)
    requires |a| == |b|
    ensures |r| == |a| && forall i :: 0 <= i < |a| ==> r[i] == (a[i] || b[i])
  {
    seq(|a|, i requires 0 <= i < |a| => a[i] || b[i])
  }

  function Xor(a: Word, b: Word): (r: Word)
    requires |a| == |b|
    ensures |r| == |a| && forall i :: 0 <= i < |a| ==> r[i] == (a[i] != b[i])
  {
    seq(|a|, i requires 0 <= i < |a| => a[i] != b[i])
  }

  function Shl(w: Word, k: nat): (r: Word)
    requires k <= |w|
    ensures |r| == |w|
  {
    w[k..] + Fill(k, false)
  }

  function Shr(w: Word, k: nat): (r: Word)
    requires k <= |w|
    ensures |r| == |w|
  {
    Fill(k, false) + w[..|w| - k]
  }

  /** An octet in the low end of a 64-bit word, and back. */
  function Extend(o: Octet): (w: Word)
    ensures |w| == 64
  {
    Fill(56, false) + o
  }

  function Low8(w: Word): Octet
    requires |w| == 64
  {
    w[56..]
  }

  function LeadingZeros(w: Word): (n: nat)
    ensures n <= |w|
  {
    if w == [] || w[0] then 0 else 1 + LeadingZeros(w[1..])
  }

  function CountOnes(w: Word): nat {
    if w == [] then 0 else (if w[0] then 1 else 0) + CountOnes(w[1..])
  }

  /** Counting leading zeros finds the first one. */
  lemma {:induction false} FirstOne(w: Word, k: nat)
    requires k < |w| && w[k] && forall i :: 0 <= i < k ==> !w[i]
    ensures LeadingZeros(w) == k
  {
    if k > 0 { FirstOne(w[1..], k - 1); }
  }

  lemma {:induction false} CountOnesConcat(a: Word, b: Word)
    ensures CountOnes(a + b) == CountOnes(a) + CountOnes(b)
  {
    if a == [] {
      assert a + b == b;
    } else {
      CountOnesConcat(a[1..], b);
      assert (a + b)[1..] == a[1..] + b;
    }
  }

  // ------------------------------------------------------------------ bitmaps

  type Bitmap = seq<Octet>

  predicate Bit(v: Bitmap, p: nat)
    requires p < 8 * |v|
  {
    v[p / 8][p % 8]
  }

  /** n octets from index i as one big-endian word. */
  function LoadBE(v: Bitmap, i: nat, n: nat): (w: Word)
    requires i + n <= |v|
    ensures |w| == 8 * n
    decreases n
  {
    if n == 0 then [] else v[i] + LoadBE(v, i + 1, n - 1)
  }

  lemma {:induction false} LoadBit(v: Bitmap, i: nat, n: nat, k: nat)
    requires i + n <= |v| && k < 8 * n
    ensures LoadBE(v, i, n)[k] == Bit(v, 8 * i + k)
    decreases n
  {
    if k >= 8 {
      LoadBit(v, i + 1, n - 1, k - 8);
    }
  }

  /** n octets from index i as the little-endian machine reads them. */
  function LoadLE(v: Bitmap, i: nat, n: nat): (w: Word)
    requires i + n <= |v|
    ensures |w| == 8 * n
    decreases n
  {
    if n == 0 then [] else LoadLE(v, i + 1, n - 1) + v[i]
  }

  // ------------------------------------------------------------------ scan ranges

  datatype Unit = ByteUnit | BitUnit

  function ProcessNegativeOffset(offset: int, len: int): int {
    if len <= 0 || offset <= -len then 0 else len + offset
  }

  /** The closed range of units to scan, or None for an empty one. */
  function NormalizeScanRange(unit: Unit, startOffset: int, endOffset: int, len: nat): (r: Option<(nat, nat)>)
    ensures r.Some? ==> r.value.0 <= r.value.1 < Limit(unit, len)
  {
    var limit := Limit(unit, len);
    var start := if startOffset < 0 then ProcessNegativeOffset(startOffset, limit) else startOffset;
    var end0 := if endOffset < 0 then ProcessNegativeOffset(endOffset, limit) else endOffset;
    var end := if end0 >= limit then limit - 1 else end0;
    if start >= limit || start > end then None else Some((start, end))
  }

  function Limit(unit: Unit, len: nat): nat { if unit.BitUnit? then len * 8 else len }

  /** An offset counted from the end when negative, never before the first unit. */
  function Resolve(offset: int, limit: nat): nat {
    if offset >= 0 then offset else if limit + offset < 0 then 0 else limit + offset
  }

  /** The range is exactly the units between the resolved offsets that exist. */
  lemma NormalizeMeans(unit: Unit, startOffset: int, endOffset: int, len: nat, p: nat)
    ensures var limit := Limit(unit, len);
            var r := NormalizeScanRange(unit, startOffset, endOffset, len);
            (r.Some? && r.value.0 <= p <= r.value.1)
            <==> p < limit && Resolve(startOffset, limit) <= p <= Resolve(endOffset, limit)
  {
  }

  /** First and last bit of a normalised range. */
  function BitRange(unit: Unit, r: (nat, nat)): (nat, nat) {
    if unit.BitUnit? then r else (8 * r.0, 8 * r.1 + 7)
  }
}
