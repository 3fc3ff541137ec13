/** BITPOS: the first bit of a value in a byte or bit range, found a word at a time. */
module BitPos {
  import opened Wrappers
  import opened Words

  // ------------------------------------------------------------------ per-bit meaning

  ghost predicate NoneIn(v: Bitmap, lo: nat, hi: nat, want: bool)
    requires hi <= 8 * |v|
  {
    forall p :: lo <= p < hi ==> Bit(v, p) != want
  }

  /** r is the least position of [lo, hi) that holds the wanted bit. */
  ghost predicate IsFirst(v: Bitmap, lo: nat, hi: nat, want: bool, r: int)
    requires hi <= 8 * |v|
  {
    lo <= r < hi && Bit(v, r) == want && NoneIn(v, lo, r, want)
  }

  // ------------------------------------------------------------------ one word, one octet

  /** Zeros before the first wanted bit of a word. */
  function Skip(w: Word, want: bool): nat { LeadingZeros(if want then w else Not(w)) }

  lemma {:induction false} LeastWanted(w: Word, want: bool, j: nat) returns (k: nat)
    requires j < |w| && w[j] == want
    ensures k < |w| && w[k] == want && forall i :: 0 <= i < k ==> w[i] != want
  {
    if i :| 0 <= i < j && w[i] == want {
      k := LeastWanted(w, want, i);
    } else {
      k := j;
    }
  }

  /** If the word is not all unwanted, skipping stops at its first wanted bit. */
  lemma SkipFinds(w: Word, want: bool)
    requires w != Fill(|w|, !want)
    ensures Skip(w, want) < |w| && w[Skip(w, want)] == want
    ensures forall i :: 0 <= i < Skip(w, want) ==> w[i] != want
  {
    var j := Difference(w, Fill(|w|, !want));
    var k := LeastWanted(w, want, j);
    FirstOne(if want then w else Not(w), k);
  }

  lemma WordHit(v: Bitmap, at: nat, n: nat, want: bool)
    requires at + n <= |v|
    ensures var w := LoadBE(v, at, n);
            if w == Fill(8 * n, !want) then NoneIn(v, 8 * at, 8 * (at + n), want)
            else IsFirst(v, 8 * at, 8 * (at + n), want, 8 * at + Skip(w, want))
  {
    var w := LoadBE(v, at, n);
    forall k | 0 <= k < 8 * n ensures w[k] == Bit(v, 8 * at + k) { LoadBit(v, at, n, k); }
    assert forall p :: 8 * at <= p < 8 * (at + n) ==> Bit(v, p) == w[p - 8 * at];
    if w != Fill(8 * n, !want) { SkipFinds(w, want); }
  }

  /** One octet moved to the top of a 64-bit word. */
  lemma OctetHit(o: Octet, want: bool)
    requires o != Fill(8, !want)
    ensures Skip(Shl(Extend(o), 56), want) == Skip(o, want)
  {
    SkipFinds(o, want);
    var w := Shl(Extend(o), 56);
    assert w == o + Fill(56, false);
    FirstOne(if want then w else Not(w), Skip(o, want));
  }

  // ------------------------------------------------------------------ byte range

  method ByteSearch(v: Bitmap, start: nat, end: nat, want: bool, hasEnd: bool) returns (r: int)
    requires start <= end < |v|
    ensures NoneIn(v, 8 * start, 8 * (end + 1), want) ==> r == if !want && !hasEnd then 8 * |v| else -1
    ensures !NoneIn(v, 8 * start, 8 * (end + 1), want) ==> IsFirst(v, 8 * start, 8 * (end + 1), want, r)
  {
    hide Skip, LoadBE, Bit;
    var cur := start;
    while cur <= end
      invariant start <= cur <= end + 1
      invariant NoneIn(v, 8 * start, 8 * cur, want)
    {
      var remainder := end - cur + 1;
      var n := if remainder >= 8 then 8 else if remainder >= 4 then 4 else 1;
      WordHit(v, cur, n, want);
      if n > 1 {
        var payload := LoadBE(v, cur, n);
        if payload != Fill(8 * n, !want) {
          return 8 * cur + Skip(payload, want);
        }
      } else {
        var octet := v[cur];
        LoadOne(v, cur);
        if octet != Fill(8, !want) {
          OctetHit(octet, want);
          return 8 * cur + Skip(Shl(Extend(octet), 56), want);
        }
      }
      cur := cur + n;
    }
    if !want && !hasEnd {
      return 8 * |v|;
    }
    return -1;
  }

  lemma LoadOne(v: Bitmap, i: nat)
    requires i < |v|
    ensures LoadBE(v, i, 1) == v[i]
  {
  }

  // ------------------------------------------------------------------ bit range

  function Ones8(): Word { Extend(Fill(8, true)) }

  /** Ones at octet positions [left, right), in the low octet of a 64-bit word. */
  function RangeMask(left: nat, right: nat): (m: Word)
    requires left <= right <= 64
    ensures |m| == 64
  {
    And(Xor(Shr(Ones8(), left), Shr(Ones8(), right)), Ones8())
  }

  /** The clipped octet, or None when it holds no wanted bit. */
  function ClipSearch(o: Octet, left: nat, right: nat, want: bool): Option<nat>
    requires left < 8 && left < right <= 16
  {
    var mask := RangeMask(left, right);
    var payload := Extend(And(o, Low8(mask)));
    var invalid := And(Extend(Fill(8, !want)), mask);
    if payload == invalid then None else Some(Skip(Shl(payload, 56 + left), want))
  }

  /** Bit by bit: what is compared and what is shifted. */
  lemma ClipBits(o: Octet, left: nat, right: nat, want: bool)
    requires left < 8 && left < right <= 16
    ensures var mask := RangeMask(left, right);
            var payload := Extend(And(o, Low8(mask)));
            var invalid := And(Extend(Fill(8, !want)), mask);
            && (forall j :: 0 <= j < 64 ==> payload[j] == (56 + left <= j < 56 + right && o[j - 56]))
            && (forall j :: 0 <= j < 64 ==> invalid[j] == (56 + left <= j < 56 + right && !want))
  {
  }

  /** Clipping, comparing and shifting finds the first wanted bit of the octet in [left, right). */
  lemma ClipFinds(o: Octet, left: nat, right: nat, want: bool)
    requires left < 8 && left < right <= 16
    ensures match ClipSearch(o, left, right, want)
            case None => forall i :: left <= i < 8 && i < right ==> o[i] != want
            case Some(k) => left + k < 8 && left + k < right && o[left + k] == want
                            && forall i :: left <= i < left + k ==> o[i] != want
  {
    hide RangeMask, Extend, And, Low8, Skip;
    ClipBits(o, left, right, want);
    var mask := RangeMask(left, right);
    var payload := Extend(And(o, Low8(mask)));
    var invalid := And(Extend(Fill(8, !want)), mask);
    if payload != invalid {
      var j := Difference(payload, invalid);
      ShiftedHit(o, left, right, want, payload, j);
    } else {
      forall i | left <= i < 8 && i < right ensures o[i] != want { assert payload[56 + i] == invalid[56 + i]; }
    }
  }

  lemma ShiftedHit(o: Octet, left: nat, right: nat, want: bool, payload: Word, j: nat)
    requires left < 8 && left < right <= 16 && |payload| == 64
    requires forall j :: 0 <= j < 64 ==> payload[j] == (56 + left <= j < 56 + right && o[j - 56])
    requires 56 + left <= j < 64 && j < 56 + right && o[j - 56] == want
    ensures var k := Skip(Shl(payload, 56 + left), want);
            left + k < 8 && left + k < right && o[left + k] == want && forall i :: left <= i < left + k ==> o[i] != want
  {
    hide Skip;
    var w := Shl(payload, 56 + left);
    assert forall i :: 0 <= i < 64 ==> w[i] == (i < 8 - left && left + i < right && o[left + i]);
    var m := j - 56 - left;
    assert w[m] == want;
    SkipFinds(w, want);
    var k := Skip(w, want);
    assert k <= m;
    forall i | left <= i < left + k ensures o[i] != want { assert w[i - left] != want; }
  }

  lemma Difference(a: Word, b: Word) returns (j: nat)
    requires |a| == |b| && a != b
    ensures j < |a| && a[j] != b[j]
  {
    j :| 0 <= j < |a| && a[j] != b[j];
  }

  /** Right clip of the octet that holds bit `cur` when the range ends at bit `end`. */
  function RightClip(cur: nat, end: nat): nat {
    if cur + (8 - cur % 8) <= end then cur % 8 + 8 else end % 8 + 1
  }

  /** One turn of the bit loop, in terms of the bitmap's own positions. */
  lemma ClipStep(v: Bitmap, cur: nat, end: nat, want: bool)
    requires cur <= end < 8 * |v|
    ensures var left := cur % 8;
            var right := RightClip(cur, end);
            && left < right <= 16
            && match ClipSearch(v[cur / 8], left, right, want)
               case None => NoneIn(v, cur, if cur + 8 - left <= end then cur + 8 - left else end + 1, want)
               case Some(k) => IsFirst(v, cur, end + 1, want, cur + k)
  {
    hide ClipSearch;
    var left, right := cur % 8, RightClip(cur, end);
    ClipFinds(v[cur / 8], left, right, want);
    forall p | cur <= p < cur - left + 8 ensures p / 8 == cur / 8 && p % 8 == left + (p - cur) {
    }
  }

  method BitSearch(v: Bitmap, start: nat, end: nat, want: bool) returns (r: int)
    requires start <= end < 8 * |v|
    ensures NoneIn(v, start, end + 1, want) ==> r == -1
    ensures !NoneIn(v, start, end + 1, want) ==> IsFirst(v, start, end + 1, want, r)
  {
    hide ClipSearch, Bit;
    var cur := start;
    while cur <= end
      invariant start <= cur <= end + 8
      invariant NoneIn(v, start, if cur <= end then cur else end + 1, want)
    {
      var left := cur % 8;
      var boundary := 8 - left;
      var right := if cur + boundary <= end then left + 8 else end % 8 + 1;
      ClipStep(v, cur, end, want);
      match ClipSearch(v[cur / 8], left, right, want)
      case Some(k) =>
        return cur + k;
      case None =>
        cur := cur + boundary;
    }
    return -1;
  }

  // ------------------------------------------------------------------ the driver

  /** The least position in the normalised range with the wanted bit; otherwise -1, or the bit length when
      a zero is sought in bytes without an explicit end. */
  method BitPosDriver(v: Bitmap, startOffset: int, endOffset: int, want: bool, unit: Unit, hasEnd: bool) returns (r: int)
    ensures match NormalizeScanRange(unit, startOffset, endOffset, |v|)
            case None => r == -1
            case Some(range) =>
              var (lo, last) := BitRange(unit, range);
              && (NoneIn(v, lo, last + 1, want) ==>
                    r == if !want && unit.ByteUnit? && !hasEnd then 8 * |v| else -1)
              && (!NoneIn(v, lo, last + 1, want) ==> IsFirst(v, lo, last + 1, want, r))
  {
    hide NormalizeScanRange;
    match NormalizeScanRange(unit, startOffset, endOffset, |v|)
    case None =>
      return -1;
    case Some(range) =>
      if unit.ByteUnit? {
        r := ByteSearch(v, range.0, range.1, want, hasEnd);
      } else {
        r := BitSearch(v, range.0, range.1, want);
      }
  }
}
