/** What the CRC-64 hash computes: the remainder of the message by one polynomial, laws that fix every bit of it. */
module CrcLaws {
  import opened Words
  import opened Crc64

  const ZERO: Octet := [false, false, false, false, false, false, false, false]
  const TOP: Octet := [true, false, false, false, false, false, false, false]

  const R0: Octet := [true, false, false, true, false, true, false, true]
  const R1: Octet := [true, false, true, false, true, true, false, false]
  const R2: Octet := [true, false, false, true, false, false, true, true]
  const R3: Octet := [false, false, true, false, true, false, false, true]
  const R4: Octet := [true, false, true, false, true, true, false, false]
  const R5: Octet := [false, true, false, false, true, false, true, true]
  const R6: Octet := [true, true, false, false, true, false, false, true]
  const R7: Octet := [true, false, true, true, false, true, false, true]

  /** The hash of the message whose one set bit comes last: 0x95ac9329ac4bc9b5. */
  const LAST_BIT: Reg := R0 + (R1 + (R2 + (R3 + (R4 + (R5 + (R6 + R7))))))

  // ------------------------------------------------------------------ messages as bits

  /** The bits of a message in the order they are fed, each byte least significant bit first. */
  function Bits(data: seq<Octet>): (w: Word)
    ensures |w| == 8 * |data|
  {
    if data == [] then [] else Reverse(data[0]) + Bits(data[1..])
  }

  lemma {:induction false} FeedConcat(x: Reg, a: Word, b: Word)
    ensures Feed(x, a + b) == Feed(Feed(x, a), b)
    decreases |a|
  {
    hide Step;
    if a == [] {
      assert a + b == b;
    } else {
      FeedConcat(Step(x, a[0]), a[1..], b);
      assert (a + b)[1..] == a[1..] + b;
    }
  }

  lemma {:induction false} RegisterIsFeed(x: Reg, data: seq<Octet>)
    ensures Register(x, data) == Feed(x, Bits(data))
    decreases |data|
  {
    hide Feed;
    if data == [] {
      NothingFed(x);
    } else {
      RegisterIsFeed(Feed(x, Reverse(data[0])), data[1..]);
      FeedConcat(x, Reverse(data[0]), Bits(data[1..]));
    }
  }

  lemma NothingFed(x: Reg)
    ensures Feed(x, []) == x
  {
  }

  lemma ReverseTwice(w: Word)
    ensures Reverse(Reverse(w)) == w
  {
  }

  // ------------------------------------------------------------------ the remainder

  /** The polynomial, with its leading one, at the low end of n + 65 bits, or nothing. */
  function Multiple(n: nat, t: bool): (w: Word)
    ensures |w| == n + 65
  {
    if t then Fill(n, false) + [true] + Poly() else Fill(n + 65, false)
  }

  /** Multiplication without carry of q, highest coefficient first, by the polynomial with its leading one. */
  function Product(q: Word): (w: Word)
    ensures |w| == |q| + 64
  {
    if q == [] then Fill(64, false)
    else
      var n := |q| - 1;
      Xor(Product(q[..n]) + [false], Multiple(n, q[n]))
  }

  /** Message times x^64, plus the register. */
  function Shifted(m: Word, reg: Reg): (w: Word)
    ensures |w| == |m| + 64
  {
    Xor(m + Fill(64, false), Fill(|m|, false) + reg)
  }

  lemma ProductAt(q: Word, t: bool, i: nat)
    requires i < |q| + 65
    ensures Product(q + [t])[i] ==
            ((i < |q| + 64 && Product(q)[i]) != (t && (i == |q| || (i > |q| && Poly()[i - |q| - 1]))))
  {
    hide Poly;
    MultipleAt(|q|, t, i);
    hide Multiple;
    assert (q + [t])[..|q|] == q;
  }

  lemma MultipleAt(n: nat, t: bool, i: nat)
    requires i < n + 65
    ensures Multiple(n, t)[i] == (t && (i == n || (i > n && Poly()[i - n - 1])))
  {
    hide Poly;
  }

  lemma ShiftedAt(m: Word, reg: Reg, i: nat)
    requires i < |m| + 64
    ensures Shifted(m, reg)[i] == if i < |m| then m[i] else reg[i - |m|]
  {
  }

  lemma StepAt(reg: Reg, b: bool, j: nat)
    requires j < 64
    ensures Step(reg, b)[j] == ((j < 63 && reg[j + 1]) != (reg[0] != b && Poly()[j]))
  {
    hide Poly;
  }

  lemma RemainderStep(m: Word, q: Word, reg: Reg, b: bool)
    requires |q| == |m| && Product(q) == Shifted(m, reg)
    ensures Product(q + [reg[0] != b]) == Shifted(m + [b], Step(reg, b))
  {
    hide Poly, Product, Shifted, Step;
    var n, t := |m|, reg[0] != b;
    var l, r := Product(q + [t]), Shifted(m + [b], Step(reg, b));
    forall i | 0 <= i < n + 65 ensures l[i] == r[i] {
      ProductAt(q, t, i);
      ShiftedAt(m + [b], Step(reg, b), i);
      if i < n + 64 { ShiftedAt(m, reg, i); }
      if i > n { StepAt(reg, b, i - n - 1); }
    }
  }

  lemma NothingLeft()
    ensures Product([]) == Shifted([], Feed(Fill(64, false), []))
  {
  }

  lemma {:induction false} RemainderOf(m: Word) returns (q: Word)
    ensures |q| == |m| && Product(q) == Shifted(m, Feed(Fill(64, false), m))
  {
    hide Feed, Step, Poly, Product, Shifted;
    var zero := Fill(64, false);
    if m == [] {
      q := [];
      NothingLeft();
    } else {
      var n := |m| - 1;
      var before, b := m[..n], m[n];
      var q0 := RemainderOf(before);
      var reg := Feed(zero, before);
      RemainderStep(before, q0, reg, b);
      FeedConcat(zero, before, [b]);
      OneFed(reg, b);
      assert m == before + [b];
      q := q0 + [reg[0] != b];
    }
  }

  lemma OneFed(x: Reg, b: bool)
    ensures Feed(x, [b]) == Step(x, b)
  {
    hide Step;
    assert [b][1..] == [];
    NothingFed(Step(x, b));
  }

  /** Message times x^64 and reflected hash differ by a multiple of the polynomial: the hash is the remainder. */
  lemma HashIsRemainder(data: seq<Octet>) returns (q: Word)
    ensures |q| == 8 * |data| && Product(q) == Shifted(Bits(data), Reverse(Bitwise(data)))
  {
    hide Feed, Step, Product, Shifted, Register;
    q := RemainderOf(Bits(data));
    RegisterIsFeed(Fill(64, false), data);
    ReverseTwice(Register(Fill(64, false), data));
  }

  // ------------------------------------------------------------------ linearity

  function XorBytes(a: seq<Octet>, b: seq<Octet>): seq<Octet>
    requires |a| == |b|
  {
    seq(|a|, i requires 0 <= i < |a| => var o: Octet := Xor(a[i], b[i]); o)
  }

  lemma StepBilinear(x: Reg, y: Reg, b: bool, c: bool)
    ensures Step(Xor(x, y), b != c) == Xor(Step(x, b), Step(y, c))
  {
    hide Poly;
  }

  lemma {:induction false} FeedBilinear(x: Reg, y: Reg, a: Word, b: Word)
    requires |a| == |b|
    ensures Feed(Xor(x, y), Xor(a, b)) == Xor(Feed(x, a), Feed(y, b))
    decreases |a|
  {
    hide Step;
    if a != [] {
      StepBilinear(x, y, a[0], b[0]);
      FeedBilinear(Step(x, a[0]), Step(y, b[0]), a[1..], b[1..]);
      assert Xor(a, b)[1..] == Xor(a[1..], b[1..]);
    }
  }

  lemma {:induction false} BitsXor(a: seq<Octet>, b: seq<Octet>)
    requires |a| == |b|
    ensures Bits(XorBytes(a, b)) == Xor(Bits(a), Bits(b))
  {
    if a != [] {
      BitsXor(a[1..], b[1..]);
      assert XorBytes(a, b)[1..] == XorBytes(a[1..], b[1..]);
      assert Reverse(Xor(a[0], b[0])) == Xor(Reverse(a[0]), Reverse(b[0]));
    }
  }

  /** The hash of the bytewise xor of two equally long inputs is the xor of their hashes. */
  lemma HashIsLinear(a: seq<Octet>, b: seq<Octet>)
    requires |a| == |b|
    ensures Bitwise(XorBytes(a, b)) == Xor(Bitwise(a), Bitwise(b))
  {
    hide Feed, Register, XorBytes, Bits;
    var zero := Fill(64, false);
    BitsXor(a, b);
    RegisterIsFeed(zero, a);
    RegisterIsFeed(zero, b);
    RegisterIsFeed(zero, XorBytes(a, b));
    assert Xor(zero, zero) == zero;
    FeedBilinear(zero, zero, Bits(a), Bits(b));
    var r, s := Register(zero, a), Register(zero, b);
    assert Reverse(Xor(r, s)) == Xor(Reverse(r), Reverse(s));
  }

  // ------------------------------------------------------------------ one bit

  lemma {:induction false} ZerosFed(n: nat)
    ensures Feed(Fill(64, false), Fill(n, false)) == Fill(64, false)
    decreases n
  {
    var zero := Fill(64, false);
    if n > 0 {
      assert Step(zero, false) == zero by { hide Poly; }
      assert Fill(n, false)[1..] == Fill(n - 1, false);
      ZerosFed(n - 1);
    }
  }

  lemma {:induction false} ZeroBytes(n: nat)
    ensures Bits(seq(n, _ => ZERO)) == Fill(8 * n, false)
  {
    var data := seq(n, _ => ZERO);
    if n > 0 {
      assert data[1..] == seq(n - 1, _ => ZERO);
      ZeroBytes(n - 1);
    }
  }

  lemma {:induction false} BitsConcat(a: seq<Octet>, b: seq<Octet>)
    ensures Bits(a + b) == Bits(a) + Bits(b)
  {
    hide Bits, Reverse;
    var c := a + b;
    if a == [] {
      assert c == b;
    } else {
      BitsConcat(a[1..], b);
      BitsUnfold(a);
      BitsUnfold(c);
      assert c[1..] == a[1..] + b;
    }
  }

  lemma BitsUnfold(data: seq<Octet>)
    requires data != []
    ensures Bits(data) == Reverse(data[0]) + Bits(data[1..])
  {
  }

  /** After any number of zero bytes, the byte 0x80 gives one and the same hash. */
  lemma LastBitHash(n: nat)
    ensures Bitwise(seq(n, _ => ZERO) + [TOP]) == LAST_BIT
  {
    hide Feed, Register, Bits, Step;
    var data, zero := seq(n, _ => ZERO), Fill(64, false);
    RegisterIsFeed(zero, data + [TOP]);
    BitsConcat(data, [TOP]);
    ZeroBytes(n);
    var m := 8 * n + 7;
    assert Bits([TOP]) == Fill(7, false) + [true] by { TopBits(); }
    assert Bits(data + [TOP]) == Fill(m, false) + [true];
    FeedConcat(zero, Fill(m, false), [true]);
    ZerosFed(m);
    OneFed(zero, true);
    assert Step(zero, true) == Poly() by { StepOfOne(); }
    PolyReflected();
  }

  lemma TopBits()
    ensures Bits([TOP]) == Fill(7, false) + [true]
  {
    assert [TOP][1..] == [] && Bits([]) == [];
  }

  lemma StepOfOne()
    ensures Step(Fill(64, false), true) == Poly()
  {
    hide Poly;
  }

  /** The four bits of a hexadecimal digit. */
  function Digit(d: nat): (w: Word)
    ensures |w| == 4
  {
    [d / 8 % 2 == 1, d / 4 % 2 == 1, d / 2 % 2 == 1, d % 2 == 1]
  }

  lemma HexDigit(n: nat, k: nat)
    ensures ToBits(n, k + 4) == ToBits(n / 16, k) + Digit(n % 16)
  {
    DigitUnfolds(n / 16, n % 16, k);
  }

  lemma BitUnfolds(h: nat, b: nat, k: nat)
    ensures ToBits(2 * h + b % 2, k + 1) == ToBits(h, k) + [b % 2 == 1]
  {
    hide ToBits;
    OneMoreBit(2 * h + b % 2, k);
  }

  lemma OneMoreBit(n: nat, k: nat)
    ensures ToBits(n, k + 1) == ToBits(n / 2, k) + [n % 2 == 1]
  {
  }

  lemma DigitUnfolds(q: nat, d: nat, k: nat)
    requires d < 16
    ensures ToBits(16 * q + d, k + 4) == ToBits(q, k) + Digit(d)
  {
    hide ToBits;
    BitUnfolds(8 * q + d / 2, d, k + 3);
    BitUnfolds(4 * q + d / 4, d / 2, k + 2);
    BitUnfolds(2 * q + d / 8, d / 4, k + 1);
    BitUnfolds(q, d / 8, k);
  }

  lemma HexOctet(n: nat, k: nat)
    ensures ToBits(n, k + 8) == ToBits(n / 256, k) + (Digit(n / 16 % 16) + Digit(n % 16))
  {
    hide ToBits, Digit;
    HexDigit(n, k + 4);
    HexDigit(n / 16, k);
    assert n / 16 / 16 == n / 256;
  }

  lemma ReverseConcat(a: Word, b: Word)
    ensures Reverse(a + b) == Reverse(b) + Reverse(a)
  {
  }

  /** One octet more on the left of a number is its reflection on the right. */
  lemma ReflectOctet(n: nat, k: nat, high: nat, reflected: Word)
    requires n / 256 == high && Reverse(Digit(n / 16 % 16) + Digit(n % 16)) == reflected
    ensures Reverse(ToBits(n, k + 8)) == reflected + Reverse(ToBits(high, k))
  {
    hide ToBits, Digit;
    HexOctet(n, k);
    ReverseConcat(ToBits(high, k), Digit(n / 16 % 16) + Digit(n % 16));
  }

  lemma OctetsReflected()
    ensures Reverse(Digit(0xa) + Digit(0x9)) == R0
    ensures Reverse(Digit(0x3) + Digit(0x5)) == R1
    ensures Reverse(Digit(0xc) + Digit(0x9)) == R2
    ensures Reverse(Digit(0x9) + Digit(0x4)) == R3
    ensures Reverse(Digit(0x3) + Digit(0x5)) == R4
    ensures Reverse(Digit(0xd) + Digit(0x2)) == R5
    ensures Reverse(Digit(0x9) + Digit(0x3)) == R6
    ensures Reverse(Digit(0xa) + Digit(0xd)) == R7
  {
  }

  lemma PolyReflected()
    ensures Reverse(Poly()) == LAST_BIT
  {
    hide ToBits, Digit, Reverse;
    OctetsReflected();
    ReflectOctet(0xad93d23594c935a9, 56, 0xad93d23594c935, R0);
    ReflectOctet(0xad93d23594c935, 48, 0xad93d23594c9, R1);
    ReflectOctet(0xad93d23594c9, 40, 0xad93d23594, R2);
    ReflectOctet(0xad93d23594, 32, 0xad93d235, R3);
    ReflectOctet(0xad93d235, 24, 0xad93d2, R4);
    ReflectOctet(0xad93d2, 16, 0xad93, R5);
    ReflectOctet(0xad93, 8, 0xad, R6);
    ReflectOctet(0xad, 0, 0x0, R7);
    assert Reverse(ToBits(0, 0)) == [] && R7 + [] == R7;
  }
}
