/** BITCOUNT: word-wide population counts against the number of set bits in a range. */
module BitCount {
  import opened Wrappers
  import opened Words

  // ------------------------------------------------------------------ per-bit meaning

  /** Set bits at positions [lo, hi). */
  ghost function CountRange(v: Bitmap, lo: nat, hi: nat): nat
    requires hi <= 8 * |v|
    decreases hi - lo
  {
    if lo >= hi then 0 else (if Bit(v, lo) then 1 else 0) + CountRange(v, lo + 1, hi)
  }

  ghost function SetBits(v: Bitmap, lo: nat, hi: nat): set<nat>
    requires hi <= 8 * |v|
  {
    set p: nat | lo <= p < hi && Bit(v, p)
  }

  /** The count is the number of positions whose bit is set. */
  lemma {:induction false} CountIsCardinality(v: Bitmap, lo: nat, hi: nat)
    requires hi <= 8 * |v|
    ensures CountRange(v, lo, hi) == |SetBits(v, lo, hi)|
    decreases hi - lo
  {
    if lo >= hi {
      assert SetBits(v, lo, hi) == {};
    } else {
      CountIsCardinality(v, lo + 1, hi);
      assert SetBits(v, lo, hi) == (if Bit(v, lo) then {lo} else {}) + SetBits(v, lo + 1, hi);
    }
  }

  lemma {:induction false} CountSplit(v: Bitmap, lo: nat, mid: nat, hi: nat)
    requires lo <= mid <= hi <= 8 * |v|
    ensures CountRange(v, lo, hi) == CountRange(v, lo, mid) + CountRange(v, mid, hi)
    decreases mid - lo
  {
    hide Bit;
    if lo < mid { CountSplit(v, lo + 1, mid, hi); }
  }

  // ------------------------------------------------------------------ octets and words

  /** Set bits of one octet at positions [s, e) are the set bits under that mask. */
  lemma {:induction false} OctetCount(v: Bitmap, b: nat, s: nat, e: nat, w: Word)
    requires b < |v| && s <= e <= 8 && |w| == 8 - s
    requires forall k :: 0 <= k < |w| ==> w[k] == (s + k < e && v[b][s + k])
    ensures CountOnes(w) == CountRange(v, 8 * b + s, 8 * b + e)
    decreases e - s
  {
    if s < e {
      OctetCount(v, b, s + 1, e, w[1..]);
    } else {
      ZerosBefore(w, |w|);
    }
  }

  lemma {:induction false} ZerosBefore(w: Word, n: nat)
    requires n <= |w| && forall i :: 0 <= i < n ==> !w[i]
    ensures CountOnes(w) == CountOnes(w[n..])
  {
    if n > 0 {
      ZerosBefore(w[1..], n - 1);
      assert w[1..][n - 1..] == w[n..];
    } else {
      assert w[0..] == w;
    }
  }

  /** The constant table of octet masks, built by its two nested loops: the masks that are read below. */
  method BuildRangeMasks() returns (table: map<(nat, nat), Octet>)
    ensures forall s, e :: 0 <= s <= 8 && 0 <= e <= 8 ==> (s, e) in table && table[(s, e)] == RangeMask(s, e)
  {
    table := map[];
    var s := 0;
    while s <= 8
      invariant 0 <= s <= 9
      invariant forall x, e :: 0 <= x < s && 0 <= e <= 8 ==> (x, e) in table && IsMask(table[(x, e)], x, e)
    {
      var e := 0;
      while e <= 8
        invariant 0 <= e <= 9
        invariant forall x, y :: 0 <= x < s && 0 <= y <= 8 ==> (x, y) in table && IsMask(table[(x, y)], x, y)
        invariant forall y :: 0 <= y < e ==> (s, y) in table && IsMask(table[(s, y)], s, y)
      {
        var m: Octet := Fill(8, false);
        var i := s;
        while i < e
          invariant s <= i && (i <= e || i == s)
          invariant forall k :: 0 <= k < 8 ==> m[k] == (s <= k < i)
        {
          m := m[i := true];
          i := i + 1;
        }
        table := table[(s, e) := m];
        e := e + 1;
      }
      s := s + 1;
    }
    forall s, e | 0 <= s <= 8 && 0 <= e <= 8 ensures table[(s, e)] == RangeMask(s, e) {
      OneMask(table[(s, e)], s, e);
    }
  }

  predicate IsMask(m: Octet, s: nat, e: nat) { forall k :: 0 <= k < 8 ==> m[k] == (s <= k < e) }

  function RangeMask(s: nat, e: nat): (m: Octet)
    ensures IsMask(m, s, e)
  {
    seq(8, k => s <= k < e)
  }

  /** The bits between two positions determine the octet, so the table and the function agree. */
  lemma OneMask(m: Octet, s: nat, e: nat)
    requires IsMask(m, s, e)
    ensures m == RangeMask(s, e)
  {
  }

  function BitIndexCount(o: Octet, s: nat, e: nat): nat {
    if s > 8 || e > 8 then 0 else CountOnes(And(RangeMask(s, e), o))
  }

  lemma BitIndexCountExact(v: Bitmap, b: nat, s: nat, e: nat)
    requires b < |v| && s <= e <= 8
    ensures BitIndexCount(v[b], s, e) == CountRange(v, 8 * b + s, 8 * b + e)
  {
    var w := And(RangeMask(s, e), v[b]);
    ZerosBefore(w, s);
    OctetCount(v, b, s, e, w[s..]);
  }

  lemma OctetOnes(v: Bitmap, b: nat)
    requires b < |v|
    ensures CountOnes(v[b]) == CountRange(v, 8 * b, 8 * b + 8)
  {
    OctetCount(v, b, 0, 8, v[b]);
  }

  lemma {:induction false} WordOnes(v: Bitmap, i: nat, n: nat)
    requires i + n <= |v|
    ensures CountOnes(LoadLE(v, i, n)) == CountRange(v, 8 * i, 8 * (i + n))
    decreases n
  {
    if n > 0 {
      WordOnes(v, i + 1, n - 1);
      CountOnesConcat(LoadLE(v, i + 1, n - 1), v[i]);
      OctetOnes(v, i);
      CountSplit(v, 8 * i, 8 * i + 8, 8 * (i + n));
    }
  }

  // ------------------------------------------------------------------ spans of bytes

  /** A few trailing bytes, one at a time. */
  method PopcTail(v: Bitmap, at: nat, n: nat) returns (count: nat)
    requires at + n <= |v|
    ensures count == CountRange(v, 8 * at, 8 * (at + n))
  {
    hide CountOnes;
    count := 0;
    var i := 0;
    EmptyCount(v, 8 * at);
    while i < n
      invariant 0 <= i <= n
      invariant count == CountRange(v, 8 * at, 8 * (at + i))
    {
      OctetOnes(v, at + i);
      CountSplit(v, 8 * at, 8 * (at + i), 8 * (at + i) + 8);
      count := count + CountOnes(v[at + i]);
      i := i + 1;
    }
  }

  lemma EmptyCount(v: Bitmap, p: nat)
    requires p <= 8 * |v|
    ensures CountRange(v, p, p) == 0
  {
  }

  /** Whole 64-bit words. */
  method PopcBytes(v: Bitmap, at: nat, width: nat) returns (count: nat)
    requires at + width <= |v| && width % 8 == 0
    ensures count == CountRange(v, 8 * at, 8 * (at + width))
  {
    hide CountOnes, LoadLE, CountRange;
    count := 0;
    var i := 0;
    EmptyCount(v, 8 * at);
    while i < width
      invariant 0 <= i <= width && i % 8 == 0
      invariant count == CountRange(v, 8 * at, 8 * (at + i))
    {
      WordOnes(v, at + i, 8);
      CountSplit(v, 8 * at, 8 * (at + i), 8 * (at + i + 8));
      count := count + CountOnes(LoadLE(v, at + i, 8));
      i := i + 8;
    }
  }

  /** Four words at a time, then one, then the tail. */
  method PopcU64Span(v: Bitmap, at: nat, len: nat) returns (count: nat)
    requires at + len <= |v|
    ensures count == CountRange(v, 8 * at, 8 * (at + len))
  {
    hide CountOnes, LoadLE, CountRange;
    count := 0;
    var curr := at;
    var tail := len % 32;
    var vend := curr + (len - tail);
    ghost var k, q := 0, len / 32;
    assert vend == at + 32 * q;
    EmptyCount(v, 8 * at);
    while curr < vend
      invariant curr == at + 32 * k && k <= q
      invariant count == CountRange(v, 8 * at, 8 * curr)
    {
      FourWords(v, curr);
      CountSplit(v, 8 * at, 8 * curr, 8 * (curr + 32));
      count := count + CountOnes(LoadLE(v, curr, 8)) + CountOnes(LoadLE(v, curr + 8, 8))
             + CountOnes(LoadLE(v, curr + 16, 8)) + CountOnes(LoadLE(v, curr + 24, 8));
      curr, k := curr + 32, k + 1;
    }
    var rest := tail;
    tail := rest % 8;
    var words := PopcBytes(v, curr, rest - tail);
    CountSplit(v, 8 * at, 8 * curr, 8 * (curr + (rest - tail)));
    curr := curr + (rest - tail);
    var last := PopcTail(v, curr, tail);
    CountSplit(v, 8 * at, 8 * curr, 8 * (curr + tail));
    count := count + words + last;
  }

  lemma FourWords(v: Bitmap, i: nat)
    requires i + 32 <= |v|
    ensures CountRange(v, 8 * i, 8 * (i + 32))
         == CountOnes(LoadLE(v, i, 8)) + CountOnes(LoadLE(v, i + 8, 8))
          + CountOnes(LoadLE(v, i + 16, 8)) + CountOnes(LoadLE(v, i + 24, 8))
  {
    hide CountOnes, LoadLE, CountRange;
    WordOnes(v, i, 8);
    WordOnes(v, i + 8, 8);
    WordOnes(v, i + 16, 8);
    WordOnes(v, i + 24, 8);
    CountSplit(v, 8 * i, 8 * (i + 8), 8 * (i + 32));
    CountSplit(v, 8 * (i + 8), 8 * (i + 16), 8 * (i + 32));
    CountSplit(v, 8 * (i + 16), 8 * (i + 24), 8 * (i + 32));
  }

  method ScalarPopc(v: Bitmap, start: nat, end: nat) returns (count: nat)
    requires start <= end < |v|
    ensures count == CountRange(v, 8 * start, 8 * (end + 1))
  {
    count := PopcU64Span(v, start, end - start + 1);
  }

  /** Blocks of 256 bytes, then of 32, then the scalar span. */
  method WidePopc(v: Bitmap, start: nat, end: nat) returns (count: nat)
    requires start <= end < |v|
    ensures count == CountRange(v, 8 * start, 8 * (end + 1))
  {
    hide CountRange;
    var len := end - start + 1;
    var tail := len % 256;
    var curr := start;
    count, curr := PopcBlocks(v, curr, len - tail, 256);
    if tail == 0 {
      return;
    }
    var rest := tail;
    tail := rest % 32;
    var more: nat;
    more, curr := PopcBlocks(v, curr, rest - tail, 32);
    CountSplit(v, 8 * start, 8 * (curr - (rest - tail)), 8 * curr);
    count := count + more;
    if tail == 0 {
      return;
    }
    var last := PopcU64Span(v, curr, tail);
    CountSplit(v, 8 * start, 8 * curr, 8 * (curr + tail));
    count := count + last;
  }

  method PopcBlocks(v: Bitmap, at: nat, len: nat, block: nat) returns (count: nat, curr: nat)
    requires block in {32, 256} && at + len <= |v| && len % block == 0
    ensures curr == at + len && count == CountRange(v, 8 * at, 8 * curr)
  {
    hide CountRange;
    count, curr := 0, at;
    EmptyCount(v, 8 * at);
    while curr < at + len
      invariant at <= curr <= at + len && (curr - at) % block == 0
      invariant count == CountRange(v, 8 * at, 8 * curr)
    {
      var n := PopcBytes(v, curr, block);
      CountSplit(v, 8 * at, 8 * curr, 8 * (curr + block));
      count := count + n;
      curr := curr + block;
    }
  }

  // ------------------------------------------------------------------ the driver

  /** First and last octet of a bit range; the octets between are not counted here. */
  function BitIndexCountRange(v: Bitmap, start: nat, end: nat): nat
    requires start <= end < 8 * |v|
  {
    var left, right := start % 8, end % 8 + 1;
    if start / 8 == end / 8 then BitIndexCount(v[start / 8], left, right)
    else BitIndexCount(v[start / 8], left, 8) + BitIndexCount(v[end / 8], 0, right)
  }

  lemma EdgeCount(v: Bitmap, start: nat, end: nat)
    requires start <= end < 8 * |v|
    ensures start / 8 == end / 8 ==> BitIndexCountRange(v, start, end) == CountRange(v, start, end + 1)
    ensures start / 8 < end / 8 ==>
              CountRange(v, start, end + 1)
              == BitIndexCountRange(v, start, end) + CountRange(v, 8 * (start / 8 + 1), 8 * (end / 8))
  {
    hide CountRange, BitIndexCount;
    var b, c := start / 8, end / 8;
    if b == c {
      BitIndexCountExact(v, b, start % 8, end % 8 + 1);
    } else {
      BitIndexCountExact(v, b, start % 8, 8);
      BitIndexCountExact(v, c, 0, end % 8 + 1);
      CountSplit(v, start, 8 * (b + 1), end + 1);
      CountSplit(v, 8 * (b + 1), 8 * c, end + 1);
    }
  }

  /** The number of set bits in the inclusive normalised range, in either unit and for every length; two
      negative offsets in the wrong order count nothing. */
  method BitCountDriver(startOffset: int, endOffset: int, unit: Unit, v: Bitmap) returns (count: nat)
    ensures var r := NormalizeScanRange(unit, startOffset, endOffset, |v|);
            if (startOffset < 0 && endOffset < 0 && startOffset > endOffset) || r.None? then count == 0
            else var (lo, last) := BitRange(unit, r.value); count == CountRange(v, lo, last + 1)
  {
    hide NormalizeScanRange, CountRange, BitIndexCountRange;
    if startOffset < 0 && endOffset < 0 && startOffset > endOffset {
      return 0;
    }
    match NormalizeScanRange(unit, startOffset, endOffset, |v|)
    case None =>
      return 0;
    case Some(range) =>
      var start, end: int := range.0, range.1;
      count := 0;
      if unit.BitUnit? {
        count := BitIndexCountRange(v, start, end);
        EdgeCount(v, start, end);
        start, end := start / 8 + 1, end / 8 - 1;
        if start > end {
          NothingBetween(v, 8 * start, 8 * (end + 1));
          return;
        }
      }
      var inner: nat;
      if end - start < 128 {
        inner := ScalarPopc(v, start, end);
      } else {
        inner := WidePopc(v, start, end);
      }
      count := count + inner;
  }

  lemma NothingBetween(v: Bitmap, lo: nat, hi: int)
    requires hi <= lo && hi <= 8 * |v| && 0 <= hi
    ensures CountRange(v, lo, hi) == 0
  {
  }
}
