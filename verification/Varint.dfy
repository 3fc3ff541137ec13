/** The order-preserving prefix varint: byte order is number order. */
module Varint {
  import opened Bytes
  import opened Wrappers
  import opened Align

  const MAX_1B: nat := 128
  const MAX_2B: nat := 16_512
  const MAX_3B: nat := 2_113_664
  const MAX_4B: nat := 270_549_120

  datatype Error = BufferTooShort(expected: nat, actual: nat) | NonCanonical

  // ------------------------------------------------------------------ big-endian integers and masks

  function BE(v: nat, n: nat): (s: seq<Byte>)
    ensures |s| == n
  {
    if n == 0 then [] else BE(v / 256, n - 1) + [v % 256]
  }

  function FromBE(s: seq<Byte>): (v: nat)
    ensures v < Pow256(|s|)
  {
    if s == [] then 0 else 256 * FromBE(s[..|s| - 1]) + s[|s| - 1]
  }

  /** Bitwise disjunction. */
  function Or(a: nat, b: nat): nat {
    if a == 0 then b else if b == 0 then a
    else 2 * Or(a / 2, b / 2) + (if a % 2 == 1 || b % 2 == 1 then 1 else 0)
  }

  /** Disjoint bits add up. */
  lemma {:induction false} OrAdds(a: nat, b: nat, p: nat)
    requires IsPow2(p) && a % p == 0 && b < p
    ensures Or(a, b) == a + b
  {
    if p > 1 && a > 0 && b > 0 {
      hide IsPow2;
      Pow2Half(p);
      HalfMod(a, p / 2);
      OrAdds(a / 2, b / 2, p / 2);
    }
  }

  lemma {:induction false} BERoundTrip(v: nat, n: nat)
    requires v < Pow256(n)
    ensures FromBE(BE(v, n)) == v
  {
    if n > 0 {
      BERoundTrip(v / 256, n - 1);
      assert BE(v, n)[..n - 1] == BE(v / 256, n - 1);
    }
  }

  lemma {:induction false} FromBERoundTrip(s: seq<Byte>)
    ensures BE(FromBE(s), |s|) == s
  {
    if s != [] {
      FromBERoundTrip(s[..|s| - 1]);
      LowByte(s[|s| - 1], FromBE(s[..|s| - 1]));
    }
  }

  /** The leading byte of a big-endian integer is its highest digit. */
  lemma {:induction false} BEHead(m: Byte, x: nat, n: nat)
    requires x < Pow256(n)
    ensures BE(m * Pow256(n) + x, n + 1) == [m] + BE(x, n)
  {
    if n == 0 {
      assert BE(m, 1) == BE(m / 256, 0) + [m % 256];
    } else {
      var p := Pow256(n - 1);
      assert Pow256(n) == 256 * p;
      hide Pow256;
      BEHead(m, x / 256, n - 1);
      Shift(m, x, p);
      assert [m] + BE(x / 256, n - 1) + [x % 256] == [m] + BE(x, n);
    }
  }

  lemma Shift(m: nat, x: nat, p: nat)
    ensures (m * (256 * p) + x) / 256 == m * p + x / 256 && (m * (256 * p) + x) % 256 == x % 256
  {
  }

  // ------------------------------------------------------------------ lexicographic order

  predicate LexLess(s: seq<Byte>, t: seq<Byte>) {
    t != [] && (s == [] || s[0] < t[0] || (s[0] == t[0] && LexLess(s[1..], t[1..])))
  }

  lemma {:induction false} LexSnoc(s: seq<Byte>, t: seq<Byte>, a: Byte, b: Byte)
    requires |s| == |t|
    ensures LexLess(s + [a], t + [b]) <==> LexLess(s, t) || (s == t && a < b)
  {
    if s == [] {
      assert s + [a] == [a] && t + [b] == [b];
      assert !LexLess([a][1..], [b][1..]);
    } else {
      LexSnoc(s[1..], t[1..], a, b);
      assert (s + [a])[1..] == s[1..] + [a] && (t + [b])[1..] == t[1..] + [b];
      assert s == t <==> s[0] == t[0] && s[1..] == t[1..] by {
        assert s == [s[0]] + s[1..] && t == [t[0]] + t[1..];
      }
    }
  }

  /** Equal-width big-endian integers compare like numbers. */
  lemma {:induction false} BEOrder(x: nat, y: nat, n: nat)
    requires x < Pow256(n) && y < Pow256(n)
    ensures LexLess(BE(x, n), BE(y, n)) <==> x < y
    ensures BE(x, n) == BE(y, n) <==> x == y
  {
    if n > 0 {
      BEOrder(x / 256, y / 256, n - 1);
      LexSnoc(BE(x / 256, n - 1), BE(y / 256, n - 1), x % 256, y % 256);
      if BE(x, n) == BE(y, n) {
        assert BE(x, n)[..n - 1] == BE(x / 256, n - 1) && BE(y, n)[..n - 1] == BE(y / 256, n - 1);
        assert BE(x, n)[n - 1] == BE(y, n)[n - 1];
      }
    }
  }

  // ------------------------------------------------------------------ encoding

  function Len(v: U64): (n: nat)
    ensures 1 <= n <= 9
  {
    if v < MAX_1B then 1 else if v < MAX_2B then 2 else if v < MAX_3B then 3 else if v < MAX_4B then 4 else 9
  }

  function Encode(v: U64): seq<Byte> {
    if v < MAX_1B then [v]
    else if v < MAX_2B then
      var b := BE(v - MAX_1B, 2);
      MarkerFits(v);
      [Or(0x80, b[0]), b[1]]
    else if v < MAX_3B then
      var b := BE(v - MAX_2B, 4);
      MarkerFits(v);
      [Or(0xC0, b[1]), b[2], b[3]]
    else if v < MAX_4B then
      var b := BE(v - MAX_3B, 4);
      MarkerFits(v);
      [Or(0xE0, b[0]), b[1], b[2], b[3]]
    else [0xFF] + BE(v, 8)
  }

  lemma MarkerFits(v: U64)
    ensures MAX_1B <= v < MAX_2B ==> var b := BE(v - MAX_1B, 2); b[0] < 64 && Or(0x80, b[0]) == 0x80 + b[0]
    ensures MAX_2B <= v < MAX_3B ==> var b := BE(v - MAX_2B, 4); b[0] == 0 && b[1] < 32 && Or(0xC0, b[1]) == 0xC0 + b[1]
    ensures MAX_3B <= v < MAX_4B ==> var b := BE(v - MAX_3B, 4); b[0] < 16 && Or(0xE0, b[0]) == 0xE0 + b[0]
  {
    hide Or, BE;
    Widths();
    assert IsPow2(64) && IsPow2(32) && IsPow2(16);
    if MAX_1B <= v < MAX_2B {
      var x := v - MAX_1B;
      Split(x, 1);
      OrAdds(0x80, x / 256, 64);
    } else if MAX_2B <= v < MAX_3B {
      var x := v - MAX_2B;
      Split(x, 3);
      Split(x, 2);
      OrAdds(0xC0, x / 0x1_0000, 32);
    } else if MAX_3B <= v < MAX_4B {
      var x := v - MAX_3B;
      Split(x, 3);
      OrAdds(0xE0, x / 0x100_0000, 16);
    }
  }

  /** Head and tail of a big-endian integer of n + 1 bytes. */
  lemma Split(x: nat, n: nat)
    requires x < Pow256(n + 1)
    ensures x / Pow256(n) < 256 && BE(x, n + 1) == [x / Pow256(n)] + BE(x % Pow256(n), n)
  {
    var p := Pow256(n);
    assert x < 256 * p;
    hide BE, Pow256;
    Quotient(x, p);
    BEHead(x / p, x % p, n);
  }

  lemma Quotient(x: nat, p: nat)
    requires p > 0 && x < 256 * p
    ensures x == (x / p) * p + x % p && x / p < 256
  {
  }

  // ------------------------------------------------------------------ what the bytes mean

  /** The number whose big-endian bytes the encoding is: a prefix in the top byte, then the offset in the class. */
  function Shifted(v: U64): nat {
    match Len(v)
    case 1 => v
    case 2 => 0x80 * 0x100 + (v - MAX_1B)
    case 3 => 0xC0 * 0x1_0000 + (v - MAX_2B)
    case 4 => 0xE0 * 0x100_0000 + (v - MAX_3B)
    case _ => 0xFF * 0x1_0000_0000_0000_0000 + v
  }

  /** Length announced by a first byte; 0 for a byte that opens no encoding. */
  function LenOf(b: Byte): nat {
    if b <= 0x7F then 1 else if b <= 0xBF then 2 else if b <= 0xDF then 3 else if b <= 0xEF then 4
    else if b == 0xFF then 9 else 0
  }

  /** A big-endian integer whose top byte is raised by a marker. */
  lemma Raise(marker: Byte, x: nat, n: nat)
    requires n in {1, 2, 3} && x < Pow256(n + 1) && marker + x / Pow256(n) < 256
    ensures BE(marker * Pow256(n) + x, n + 1) == [marker + x / Pow256(n)] + BE(x, n + 1)[1..]
  {
    hide BE, Pow256;
    var p := Pow256(n);
    var top, low := x / p, x % p;
    assert marker * p + x == (marker + top) * p + low;
    BEHead(marker + top, low, n);
    Split(x, n);
  }

  lemma EncodeIsBE(v: U64)
    ensures Shifted(v) < Pow256(Len(v)) && Encode(v) == BE(Shifted(v), Len(v))
    ensures LenOf(Encode(v)[0]) == Len(v)
  {
    hide BE, Or;
    Widths();
    assert Pow256(3) == 0x100_0000 && Pow256(9) == 256 * Pow256(8);
    MarkerFits(v);
    if v < MAX_1B {
      assert BE(v, 1) == [v] by {
        BEHead(v, 0, 0);
      }
    } else if v < MAX_2B {
      Split(v - MAX_1B, 1);
      Raise(0x80, v - MAX_1B, 1);
    } else if v < MAX_3B {
      Split(v - MAX_2B, 2);
      BEHead(0, v - MAX_2B, 3);
      Raise(0xC0, v - MAX_2B, 2);
    } else if v < MAX_4B {
      Split(v - MAX_3B, 3);
      Raise(0xE0, v - MAX_3B, 3);
    } else {
      BEHead(0xFF, v, 8);
    }
  }

  /** The bytes on the wire, class by class. */
  lemma WireTwo(v: U64)
    requires 128 <= v < 16_512
    ensures var x := v - 128; Encode(v) == [0x80 + x / 0x100, x % 0x100]
  {
    hide Or, BE;
    MarkerFits(v);
    LowBytes(v - 128, 2);
  }

  lemma WireThree(v: U64)
    requires 16_512 <= v < 2_113_664
    ensures var x := v - 16_512; Encode(v) == [0xC0 + x / 0x1_0000, x / 0x100 % 0x100, x % 0x100]
  {
    hide Or, BE;
    MarkerFits(v);
    LowBytes(v - 16_512, 4);
  }

  lemma WireFour(v: U64)
    requires 2_113_664 <= v < 270_549_120
    ensures var x := v - 2_113_664;
            Encode(v) == [0xE0 + x / 0x100_0000, x / 0x1_0000 % 0x100, x / 0x100 % 0x100, x % 0x100]
  {
    hide Or, BE;
    MarkerFits(v);
    LowBytes(v - 2_113_664, 4);
  }

  lemma WireOneAndNine(v: U64)
    ensures v < 128 ==> Encode(v) == [v]
    ensures 270_549_120 <= v ==>
              |Encode(v)| == 9 && Encode(v)[0] == 0xFF
              && forall i :: 1 <= i < 9 ==> Encode(v)[i] == v / Pow256(8 - i) % 256
  {
    hide Or, BE;
    if 270_549_120 <= v {
      forall i | 1 <= i < 9 ensures Encode(v)[i] == v / Pow256(8 - i) % 256 {
        BEByte(v, 8, i - 1);
      }
    }
  }

  lemma {:induction false} BEByte(v: nat, n: nat, i: nat)
    requires i < n
    ensures BE(v, n)[i] == v / Pow256(n - 1 - i) % 256
  {
    if i < n - 1 {
      BEByte(v / 256, n - 1, i);
      Align.NestedDivision(v, 256, Pow256(n - 2 - i));
    }
  }

  lemma LowBytes(x: nat, n: nat)
    requires n == 2 || n == 4
    ensures BE(x, n)[n - 1] == x % 0x100 && BE(x, n)[n - 2] == x / 0x100 % 0x100
    ensures n == 4 ==> BE(x, n)[1] == x / 0x1_0000 % 0x100 && BE(x, n)[0] == x / 0x100_0000 % 0x100
  {
    hide BE;
    Widths();
    assert Pow256(3) == 0x100_0000;
    BEByte(x, n, n - 1);
    BEByte(x, n, n - 2);
    BEByte(x, n, 0);
    BEByte(x, n, 1);
  }

  /** First bytes of shorter encodings are smaller, so length never disturbs the order. */
  lemma ShorterIsSmaller(v: U64, w: U64)
    requires Len(v) < Len(w)
    ensures v < w && Encode(v) != [] && Encode(w) != [] && Encode(v)[0] < Encode(w)[0]
  {
    hide Encode, BE;
    EncodeIsBE(v);
    EncodeIsBE(w);
  }

  /** Byte order is number order. */
  lemma OrderPreserved(v: U64, w: U64)
    ensures v < w <==> LexLess(Encode(v), Encode(w))
  {
    if Len(v) == Len(w) {
      hide Encode, BE, LexLess;
      EncodeIsBE(v);
      EncodeIsBE(w);
      BEOrder(Shifted(v), Shifted(w), Len(v));
    } else if Len(v) < Len(w) {
      hide Encode;
      ShorterIsSmaller(v, w);
    } else {
      hide Encode;
      ShorterIsSmaller(w, v);
    }
  }

  // ------------------------------------------------------------------ decoding

  function Decode(s: seq<Byte>): Result<(U64, nat), Error> {
    Widths();
    if s == [] then Err(BufferTooShort(1, 0))
    else if s[0] <= 0x7F then Ok((s[0], 1))
    else
      MaskedByte(s[0]);
      if |s| >= 2 && 0x80 <= s[0] <= 0xBF then
        Ok((MAX_1B + FromBE([And(s[0], 0x3F), s[1]]), 2))
      else if |s| >= 3 && 0xC0 <= s[0] <= 0xDF then
        Ok((MAX_2B + FromBE([0, And(s[0], 0x1F), s[1], s[2]]), 3))
      else if |s| >= 4 && 0xE0 <= s[0] <= 0xEF then
        Ok((MAX_3B + FromBE([And(s[0], 0x0F), s[1], s[2], s[3]]), 4))
      else if |s| >= 9 && s[0] == 0xFF then
        var v := FromBE(s[1..9]);
        if v < MAX_4B then Err(NonCanonical) else Ok((v, 9))
      else if LenOf(s[0]) == 0 then Err(NonCanonical)
      else Err(BufferTooShort(LenOf(s[0]), |s|))
  }

  lemma MaskedByte(b: Byte)
    ensures And(b, 0x3F) == b % 64 && And(b, 0x1F) == b % 32 && And(b, 0x0F) == b % 16
  {
    hide And;
    MaskLow(b, 64);
    MaskLow(b, 32);
    MaskLow(b, 16);
  }

  lemma FromBESnoc(s: seq<Byte>, b: Byte)
    ensures FromBE(s + [b]) == 256 * FromBE(s) + b
  {
  }

  lemma FourBytes(a: Byte, b: Byte, c: Byte, d: Byte)
    ensures FromBE([a, b]) == 0x100 * a + b
    ensures FromBE([a, b, c, d]) == 0x100_0000 * a + 0x1_0000 * b + 0x100 * c + d
  {
    hide FromBE;
    assert FromBE([]) == 0 && [] + [a] == [a] && [a] + [b] == [a, b]
        && [a, b] + [c] == [a, b, c] && [a, b, c] + [d] == [a, b, c, d] by {
      assert FromBE([]) < Pow256(0) == 1;
    }
    FromBESnoc([], a);
    FromBESnoc([a], b);
    FromBESnoc([a, b], c);
    FromBESnoc([a, b, c], d);
  }

  lemma ReadsTwo(v: U64, rest: seq<Byte>)
    requires MAX_1B <= v < MAX_2B
    ensures Decode(Encode(v) + rest) == Ok((v, 2))
  {
    hide BE, FromBE, Or, And;
    var b := BE(v - MAX_1B, 2);
    MarkerFits(v);
    MaskedByte(0x80 + b[0]);
    Widths();
    BERoundTrip(v - MAX_1B, 2);
    assert b == [b[0], b[1]];
  }

  lemma ReadsThree(v: U64, rest: seq<Byte>)
    requires MAX_2B <= v < MAX_3B
    ensures Decode(Encode(v) + rest) == Ok((v, 3))
  {
    hide BE, FromBE, Or, And;
    var b := BE(v - MAX_2B, 4);
    MarkerFits(v);
    MaskedByte(0xC0 + b[1]);
    Widths();
    BERoundTrip(v - MAX_2B, 4);
    assert b == [0, b[1], b[2], b[3]];
  }

  lemma ReadsFour(v: U64, rest: seq<Byte>)
    requires MAX_3B <= v < MAX_4B
    ensures Decode(Encode(v) + rest) == Ok((v, 4))
  {
    hide BE, FromBE, Or, And;
    var b := BE(v - MAX_3B, 4);
    MarkerFits(v);
    MaskedByte(0xE0 + b[0]);
    Widths();
    BERoundTrip(v - MAX_3B, 4);
    assert b == [b[0], b[1], b[2], b[3]];
  }

  lemma ReadsNine(v: U64, rest: seq<Byte>)
    requires MAX_4B <= v
    ensures Decode(Encode(v) + rest) == Ok((v, 9))
  {
    hide BE, FromBE, Or, And;
    Widths();
    BERoundTrip(v, 8);
    assert (Encode(v) + rest)[1..9] == BE(v, 8);
  }

  /** Decoding undoes encoding, whatever follows. */
  lemma RoundTrip(v: U64, rest: seq<Byte>)
    ensures |Encode(v)| == Len(v) && Decode(Encode(v) + rest) == Ok((v, Len(v)))
  {
    EncodeIsBE(v);
    if v >= MAX_1B {
      hide Encode, Decode, BE;
      if v < MAX_2B {
        ReadsTwo(v, rest);
      } else if v < MAX_3B {
        ReadsThree(v, rest);
      } else if v < MAX_4B {
        ReadsFour(v, rest);
      } else {
        ReadsNine(v, rest);
      }
    }
  }

  lemma CanonicalTwo(s: seq<Byte>)
    requires |s| >= 2 && 0x80 <= s[0] <= 0xBF
    ensures var v := MAX_1B + FromBE([s[0] % 64, s[1]]); v < MAX_2B && Encode(v) == s[..2]
  {
    hide BE, FromBE, Or;
    var m := s[0] % 64;
    FourBytes(m, s[1], 0, 0);
    FromBERoundTrip([m, s[1]]);
    MarkerFits(MAX_1B + FromBE([m, s[1]]));
  }

  lemma CanonicalThree(s: seq<Byte>)
    requires |s| >= 3 && 0xC0 <= s[0] <= 0xDF
    ensures var v := MAX_2B + FromBE([0, s[0] % 32, s[1], s[2]]); MAX_2B <= v < MAX_3B && Encode(v) == s[..3]
  {
    hide BE, FromBE, Or;
    var m := s[0] % 32;
    FourBytes(0, m, s[1], s[2]);
    FromBERoundTrip([0, m, s[1], s[2]]);
    MarkerFits(MAX_2B + FromBE([0, m, s[1], s[2]]));
  }

  lemma CanonicalFour(s: seq<Byte>)
    requires |s| >= 4 && 0xE0 <= s[0] <= 0xEF
    ensures var v := MAX_3B + FromBE([s[0] % 16, s[1], s[2], s[3]]); MAX_3B <= v < MAX_4B && Encode(v) == s[..4]
  {
    hide BE, FromBE, Or;
    var m := s[0] % 16;
    FourBytes(m, s[1], s[2], s[3]);
    FromBERoundTrip([m, s[1], s[2], s[3]]);
    MarkerFits(MAX_3B + FromBE([m, s[1], s[2], s[3]]));
  }

  lemma CanonicalNine(s: seq<Byte>)
    requires |s| >= 9 && s[0] == 0xFF && MAX_4B <= FromBE(s[1..9])
    ensures FromBE(s[1..9]) <= U64_MAX && Encode(FromBE(s[1..9])) == s[..9]
  {
    hide BE, FromBE, Or;
    Widths();
    FromBERoundTrip(s[1..9]);
    assert s[..9] == [s[0]] + s[1..9];
  }

  /** Only the encoder's own bytes are accepted. */
  lemma Canonical(s: seq<Byte>)
    requires Decode(s).Ok?
    ensures var (v, n) := Decode(s).value; n == Len(v) <= |s| && s[..n] == Encode(v)
  {
    hide BE, FromBE, And, Encode;
    MaskedByte(s[0]);
    if s[0] <= 0x7F {
      assert Encode(s[0]) == [s[0]] by {
        EncodeIsBE(s[0]);
        BEHead(s[0], 0, 0);
      }
    } else if s[0] <= 0xBF {
      CanonicalTwo(s);
    } else if s[0] <= 0xDF {
      CanonicalThree(s);
    } else if s[0] <= 0xEF {
      CanonicalFour(s);
    } else {
      CanonicalNine(s);
    }
  }

  /** The decoder accepts exactly the inputs that open with some encoding, and reads that one. */
  lemma DecodesIff(s: seq<Byte>, v: U64)
    ensures Encode(v) <= s <==> Decode(s) == Ok((v, Len(v)))
    ensures Decode(s).Ok? ==> Encode(Decode(s).value.0) <= s
  {
    hide Encode, Decode;
    if Encode(v) <= s {
      RoundTrip(v, s[|Encode(v)|..]);
      assert s == Encode(v) + s[|Encode(v)|..];
    }
    if Decode(s).Ok? {
      Canonical(s);
    }
  }

  /** No encoding opens another. */
  lemma PrefixFree(v: U64, w: U64)
    requires Encode(v) <= Encode(w)
    ensures v == w
  {
    hide Encode, Decode;
    DecodesIff(Encode(w), v);
    DecodesIff(Encode(w), w);
  }

  /**
    * A short buffer stays short until it holds the announced number of bytes and is then judged;
    * a refusal as non-canonical is final.
    */
  lemma ErrorsOverExtension(s: seq<Byte>, more: seq<Byte>)
    requires Decode(s).Err?
    ensures match Decode(s).error
            case BufferTooShort(expected, actual) =>
              && actual == |s| < expected
              && (|s + more| < expected ==> Decode(s + more) == Err(BufferTooShort(expected, |s + more|)))
              && (s != [] && |s + more| >= expected ==> Decode(s + more).Ok? || Decode(s + more).error.NonCanonical?)
            case NonCanonical => Decode(s + more) == Err(NonCanonical)
  {
    hide FromBE, And;
    if |s| >= 9 {
      assert (s + more)[1..9] == s[1..9];
    }
    if |s| == 0 && |more| == 0 {
      assert s + more == [];
    }
  }

  // ------------------------------------------------------------------ the table and the writers

  method BuildLenTable() returns (lut: array<nat>)
    ensures fresh(lut) && lut.Length == 256
    ensures forall b: Byte :: lut[b] == LenOf(b)
    ensures forall v: U64, rest: seq<Byte> :: lut[(Encode(v) + rest)[0]] == Len(v)
  {
    lut := new nat[256](_ => 0);
    var i := 0;
    while i < 256
      invariant 0 <= i <= 256
      invariant forall b: Byte :: b < i ==> lut[b] == LenOf(b)
    {
      lut[i] := if i <= 0x7F then 1
                else if 0x80 <= i <= 0xBF then 2
                else if 0xC0 <= i <= 0xDF then 3
                else if 0xE0 <= i <= 0xEF then 4
                else if i == 0xFF then 9
                else 0;
      i := i + 1;
    }
    hide Encode, Len;
    forall v: U64, rest: seq<Byte>
      ensures lut[(Encode(v) + rest)[0]] == Len(v)
    {
      EncodeIsBE(v);
    }
  }

  method EncodeU64(val: U64, dst: array<Byte>) returns (r: Result<nat, Error>)
    modifies dst
    ensures dst.Length < Len(val) ==> r == Err(BufferTooShort(Len(val), dst.Length)) && dst[..] == old(dst[..])
    ensures dst.Length >= Len(val) ==> r == Ok(Len(val)) && dst[..] == Encode(val) + old(dst[..])[Len(val)..]
  {
    hide BE, Or;
    MarkerFits(val);
    if val < MAX_1B {
      if dst.Length == 0 {
        return Err(BufferTooShort(1, 0));
      }
      dst[0] := val;
      r := Ok(1);
    } else if val < MAX_2B {
      if dst.Length < 2 {
        return Err(BufferTooShort(2, dst.Length));
      }
      var bytes := BE(val - MAX_1B, 2);
      dst[0], dst[1] := Or(0x80, bytes[0]), bytes[1];
      r := Ok(2);
    } else if val < MAX_3B {
      if dst.Length < 3 {
        return Err(BufferTooShort(3, dst.Length));
      }
      var bytes := BE(val - MAX_2B, 4);
      dst[0], dst[1], dst[2] := Or(0xC0, bytes[1]), bytes[2], bytes[3];
      r := Ok(3);
    } else if val < MAX_4B {
      if dst.Length < 4 {
        return Err(BufferTooShort(4, dst.Length));
      }
      var bytes := BE(val - MAX_3B, 4);
      dst[0], dst[1], dst[2], dst[3] := Or(0xE0, bytes[0]), bytes[1], bytes[2], bytes[3];
      r := Ok(4);
    } else {
      if dst.Length < 9 {
        return Err(BufferTooShort(9, dst.Length));
      }
      var bytes := BE(val, 8);
      dst[0], dst[1], dst[2], dst[3], dst[4] := 0xFF, bytes[0], bytes[1], bytes[2], bytes[3];
      dst[5], dst[6], dst[7], dst[8] := bytes[4], bytes[5], bytes[6], bytes[7];
      r := Ok(9);
    }
  }

  method EncodeU64ToArray(val: U64) returns (buf: array<Byte>, len: nat)
    ensures fresh(buf) && buf.Length == 9 && len == Len(val)
    ensures buf[..] == Encode(val) + seq(9 - len, _ => 0)
  {
    hide Encode;
    buf := new Byte[9](_ => 0);
    var zeros := buf[..];
    var r := EncodeU64(val, buf);
    len := r.value;
    assert zeros[len..] == seq(9 - len, _ => 0);
  }
}
