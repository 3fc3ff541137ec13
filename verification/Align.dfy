/** Rounding of unsigned 64-bit addresses: the bit-mask forms against plain arithmetic. */
module Align {
  import opened Bytes
  import opened Wrappers

  // ------------------------------------------------------------------ bits

  predicate IsPow2(n: nat) { n == 1 || (n > 1 && n % 2 == 0 && IsPow2(n / 2)) }

  /** Bitwise conjunction. */
  function And(a: nat, b: nat): nat {
    if a == 0 || b == 0 then 0 else 2 * And(a / 2, b / 2) + (a % 2) * (b % 2)
  }

  function Not64(a: U64): U64 { U64_MAX - a }

  function TrailingZeros(n: nat): nat
    requires n > 0
  {
    if n % 2 == 1 then 0 else 1 + TrailingZeros(n / 2)
  }

  /** Shifting right by k drops k bits. */
  function Shr(a: nat, k: nat): nat { if k == 0 then a else Shr(a / 2, k - 1) }

  lemma AndStep(a: nat, b: nat)
    ensures And(a, b) == 2 * And(a / 2, b / 2) + (a % 2) * (b % 2)
  {
  }

  lemma Pow2Half(a: nat)
    requires IsPow2(a) && a > 1
    ensures a == 2 * (a / 2) && IsPow2(a / 2) && a / 2 >= 1
  {
  }

  lemma DivModUnique(v: nat, d: nat, q: nat, r: nat)
    requires d > 0 && v == q * d + r && r < d
    ensures v / d == q && v % d == r
  {
    var p, t := v / d, v % d;
    assert v == p * d + t;
    assert p <= q by { if p >= q + 1 { MulMono(q + 1, p, d); assert false; } }
    assert q <= p by { if q >= p + 1 { MulMono(p + 1, q, d); assert false; } }
  }

  lemma NestedDivision(v: nat, a: nat, b: nat)
    requires a > 0 && b > 0
    ensures a * b > 0 && v / a / b == v / (a * b)
  {
    var q, r, low := v / a / b, v / a % b, v % a;
    assert v / a == q * b + r && v == a * (v / a) + low;
    NestedCore(v, a, b, q, r, low);
  }

  lemma NestedCore(v: nat, a: nat, b: nat, q: nat, r: nat, low: nat)
    requires r < b && low < a && v == a * (q * b + r) + low
    ensures a * b > 0 && v / (a * b) == q
  {
    Regroup(a, b, q, r);
    MulMono(r + 1, b, a);
    DivModUnique(v, a * b, q, a * r + low);
  }

  lemma Regroup(a: nat, b: nat, q: nat, r: nat)
    ensures a * (q * b + r) == q * (a * b) + a * r && (r + 1) * a == a * r + a && b * a == a * b
  {
  }

  lemma MulMono(a: nat, b: nat, d: nat)
    requires a <= b
    ensures a * d <= b * d
  {
  }

  /** Halving both sides of a remainder. */
  lemma HalfMod(v: nat, a: nat)
    requires a > 0
    ensures v % (2 * a) == 2 * (v / 2 % a) + v % 2
    ensures v / (2 * a) == v / 2 / a
  {
    var q, r := v / 2 / a, v / 2 % a;
    assert v == 2 * (v / 2) + v % 2 && v / 2 == q * a + r;
    assert 2 * (q * a) == q * (2 * a);
    DivModUnique(v, 2 * a, q, 2 * r + v % 2);
  }

  /** Shifting by the trailing zeros of a power of two divides by it. */
  lemma {:induction false} ShiftDivides(v: nat, a: nat)
    requires IsPow2(a)
    ensures a > 0 && Shr(v, TrailingZeros(a)) == v / a
  {
    if a > 1 {
      Pow2Half(a);
      ShiftDivides(v / 2, a / 2);
      HalfMod(v, a / 2);
    }
  }

  /** Masking with a power of two less one takes the remainder. */
  lemma {:induction false} MaskLow(v: nat, a: nat)
    requires IsPow2(a)
    ensures And(v, a - 1) == v % a
  {
    if a > 1 {
      hide And, IsPow2;
      Pow2Half(a);
      var h := a / 2;
      AndStep(v, a - 1);
      assert (a - 1) / 2 == h - 1 && (a - 1) % 2 == 1;
      MaskLow(v / 2, h);
      HalfMod(v, h);
    }
  }

  /** Masking with the complement of a power of two less one, in a word of `w` values, clears it. */
  lemma {:induction false} MaskHigh(v: nat, a: nat, w: nat)
    requires IsPow2(a) && IsPow2(w) && a <= w && v < w
    ensures And(v, w - a) == v - v % a
    decreases a, 1
  {
    if a == 1 {
      MaskAll(v, w);
    } else {
      MaskHighStep(v, a, w);
    }
  }

  lemma {:induction false} MaskAll(v: nat, w: nat)
    requires IsPow2(w) && v < w
    ensures And(v, w - 1) == v
  {
    hide And, IsPow2;
    MaskLow(v, w);
    DivModUnique(v, w, 0, v);
  }

  lemma {:induction false} MaskHighStep(v: nat, a: nat, w: nat)
    requires IsPow2(a) && IsPow2(w) && 1 < a <= w && v < w
    ensures And(v, w - a) == v - v % a
    decreases a, 0
  {
    hide And, IsPow2;
    Pow2Half(a);
    Pow2Half(w);
    var h, u := a / 2, w / 2;
    MaskHigh(v / 2, h, u);
    AndStep(v, w - a);
    EvenSplit(w - a, u - h);
    HalfMod(v, h);
  }

  lemma EvenSplit(x: nat, y: nat)
    requires x == 2 * y
    ensures x / 2 == y && x % 2 == 0
  {
  }

  lemma SixteenBitsUp(n: nat)
    requires IsPow2(n)
    ensures IsPow2(0x1_0000 * n)
  {
    EightBitsUp(n);
    EightBitsUp(0x100 * n);
  }

  lemma EightBitsUp(n: nat)
    requires IsPow2(n)
    ensures IsPow2(0x100 * n)
  {
    hide IsPow2;
    TwoBitsUp(n);
    TwoBitsUp(4 * n);
    TwoBitsUp(16 * n);
    TwoBitsUp(64 * n);
  }

  lemma TwoBitsUp(n: nat)
    requires IsPow2(n)
    ensures IsPow2(4 * n)
  {
  }

  lemma WordIsPow2()
    ensures IsPow2(U64_MAX + 1)
  {
    SixteenBitsUp(1);
    SixteenBitsUp(0x1_0000);
    SixteenBitsUp(0x1_0000_0000);
    SixteenBitsUp(0x1_0000_0000_0000);
  }

  // ------------------------------------------------------------------ rounding

  function AlignDown(val: U64, align: U64): nat {
    if align <= 1 then val
    else if IsPow2(align) then And(val, Not64(align - 1))
    else val / align * align
  }

  function CheckedAdd(a: nat, b: nat): Option<U64> { if a + b <= U64_MAX then Some(a + b) else None }

  function CheckedAlignUp(val: U64, align: U64): (r: Option<nat>)
    ensures r.None? ==> align > 1
  {
    if align <= 1 then Some(val)
    else if IsPow2(align) then
      var mask := align - 1;
      if And(val, mask) == 0 then Some(val)
      else
        match CheckedAdd(val, mask)
        case Some(v) => Some(And(v, Not64(mask)))
        case None => None
    else
      var rem := val % align;
      if rem == 0 then Some(val) else
        match CheckedAdd(val, align - rem)
        case Some(v) => Some(v)
        case None => None
  }

  function AlignUp(val: U64, align: U64): nat {
    match CheckedAlignUp(val, align)
    case Some(v) => v
    case None => if IsPow2(align) then Not64(align - 1) else U64_MAX / align * align
  }

  /** Alignment 0 and 1 both leave a value alone. */
  function Unit(align: nat): (a: nat)
    ensures a >= 1
  {
    if align <= 1 then 1 else align
  }

  /** Greatest multiple not above, least multiple not below. */
  function Floor(val: nat, a: nat): nat
    requires a > 0
  {
    val - val % a
  }

  function Ceil(val: nat, a: nat): nat
    requires a > 0
  {
    if val % a == 0 then val else val - val % a + a
  }

  lemma FloorIsGreatest(val: nat, a: nat, m: nat)
    requires a > 0
    ensures Floor(val, a) % a == 0 && Floor(val, a) <= val < Floor(val, a) + a
    ensures m % a == 0 && m <= val ==> m <= Floor(val, a)
  {
    var q := val / a;
    assert val == q * a + val % a;
    DivModUnique(q * a, a, q, 0);
    if m % a == 0 && m <= val {
      assert m == m / a * a;
      assert m / a <= q by { if m / a >= q + 1 { MulMono(q + 1, m / a, a); assert false; } }
      MulMono(m / a, q, a);
    }
  }

  lemma CeilIsLeast(val: nat, a: nat, m: nat)
    requires a > 0
    ensures Ceil(val, a) % a == 0 && val <= Ceil(val, a) < val + a
    ensures m % a == 0 && val <= m ==> Ceil(val, a) <= m
  {
    var q := val / a;
    assert val == q * a + val % a;
    DivModUnique((q + 1) * a, a, q + 1, 0);
    assert (q + 1) * a == q * a + a;
    if m % a == 0 && val <= m && val % a != 0 {
      assert m == m / a * a;
      assert m / a >= q + 1 by { if m / a <= q { MulMono(m / a, q, a); assert false; } }
      MulMono(q + 1, m / a, a);
    }
  }

  /** Both arms of the rounding down give the greatest multiple. */
  lemma AlignDownIsFloor(val: U64, align: U64)
    ensures AlignDown(val, align) == Floor(val, Unit(align))
  {
    if align > 1 && IsPow2(align) {
      WordIsPow2();
      MaskHigh(val, align, U64_MAX + 1);
    }
  }

  /** Rounding up gives the least multiple, and reports overflow exactly when that does not fit. */
  lemma CheckedAlignUpIsCeil(val: U64, align: U64)
    ensures CheckedAlignUp(val, align)
         == if Ceil(val, Unit(align)) <= U64_MAX then Some(Ceil(val, Unit(align))) else None
  {
    hide And, IsPow2;
    if align > 1 {
      CeilIsLeast(val, align, 0);
      if IsPow2(align) {
        MaskLow(val, align);
        WordIsPow2();
        if val % align != 0 && val + (align - 1) <= U64_MAX {
          MaskHigh(val + (align - 1), align, U64_MAX + 1);
          CeilByAdding(val, align);
        } else if val % align != 0 {
          CeilOverflows(val, align);
        }
      }
    }
  }

  /** Adding the mask and clearing it rounds up. */
  lemma CeilByAdding(val: nat, a: nat)
    requires a > 0 && val % a != 0
    ensures Floor(val + (a - 1), a) == Ceil(val, a)
  {
    var q := val / a;
    assert val == q * a + val % a;
    assert (q + 1) * a == q * a + a;
    DivModUnique(val + (a - 1), a, q + 1, val % a - 1);
  }

  lemma CeilOverflows(val: U64, a: U64)
    requires IsPow2(a) && a > 1 && val % a != 0 && val + (a - 1) > U64_MAX
    ensures Ceil(val, a) > U64_MAX
  {
    WordIsPow2();
    Pow2Divides(a, U64_MAX + 1);
    CeilIsLeast(val, a, 0);
    FloorIsGreatest(val + (a - 1), a, U64_MAX + 1);
    CeilByAdding(val, a);
  }

  lemma {:induction false} Pow2Divides(a: nat, w: nat)
    requires IsPow2(a) && IsPow2(w) && a <= w
    ensures w % a == 0
  {
    if a > 1 {
      hide IsPow2;
      Pow2Half(a);
      Pow2Half(w);
      Pow2Divides(a / 2, w / 2);
      HalfMod(w, a / 2);
    }
  }

  /** The saturating form: the least multiple when it fits, else the greatest one that does. */
  lemma AlignUpIsCeilOrTop(val: U64, align: U64)
    ensures AlignUp(val, align)
         == if Ceil(val, Unit(align)) <= U64_MAX then Ceil(val, Unit(align)) else Floor(U64_MAX, Unit(align))
  {
    hide And, IsPow2, CheckedAlignUp;
    CheckedAlignUpIsCeil(val, align);
    if CheckedAlignUp(val, align).None? && IsPow2(align) {
      WordIsPow2();
      Pow2Divides(align, U64_MAX + 1);
      TopMultiple(align, U64_MAX + 1);
    }
  }

  lemma TopMultiple(a: nat, w: nat)
    requires 0 < a <= w && w % a == 0
    ensures Floor(w - 1, a) == w - a
  {
    var q := w / a;
    assert w == q * a;
    assert (q - 1) * a == q * a - a;
    assert q >= 1 by { if q == 0 { assert false; } }
    DivModUnique(w - 1, a, q - 1, a - 1);
  }
}
