/** CRC-64: the table-driven form against the bit-at-a-time register, over words as bit strings. */
module Crc64 {
  import opened Words

  type Reg = w: Word | |w| == 64 witness seq(64, _ => false)

  function Poly(): Reg {
    hide ToBits;
    ToBits(0xad93d23594c935a9, 64)
  }

  // ------------------------------------------------------------------ numbers and bits

  function ToBits(n: nat, k: nat): (w: Word)
    ensures |w| == k
  {
    if k == 0 then [] else ToBits(n / 2, k - 1) + [n % 2 == 1]
  }

  function FromBits(w: Word): nat {
    if w == [] then 0 else 2 * FromBits(w[..|w| - 1]) + (if w[|w| - 1] then 1 else 0)
  }

  function Exp2(k: nat): nat { if k == 0 then 1 else 2 * Exp2(k - 1) }

  lemma {:induction false} BitsRoundTrip(w: Word)
    ensures ToBits(FromBits(w), |w|) == w && FromBits(w) < Exp2(|w|)
  {
    if w != [] {
      BitsRoundTrip(w[..|w| - 1]);
      var h, b := FromBits(w[..|w| - 1]), if w[|w| - 1] then 1 else 0;
      assert (2 * h + b) / 2 == h && (2 * h + b) % 2 == b;
    }
  }

  function Reverse(w: Word): (r: Word)
    ensures |r| == |w| && forall i :: 0 <= i < |w| ==> r[i] == w[|w| - 1 - i]
  {
    seq(|w|, i requires 0 <= i < |w| => w[|w| - 1 - i])
  }

  // ------------------------------------------------------------------ the bitwise reference

  /** One register step that takes in one message bit. */
  function Step(crc: Reg, bit: bool): Reg {
    if crc[0] != bit then Xor(Shl(crc, 1), Poly()) else Shl(crc, 1)
  }

  function Feed(crc: Reg, bits: Word): Reg
    decreases |bits|
  {
    if bits == [] then crc else Feed(Step(crc, bits[0]), bits[1..])
  }

  /** Each byte enters least significant bit first. */
  function Register(crc: Reg, data: seq<Octet>): Reg
    decreases |data|
  {
    if data == [] then crc else Register(Feed(crc, Reverse(data[0])), data[1..])
  }

  function Bitwise(data: seq<Octet>): Reg { Reverse(Register(Fill(64, false), data)) }

  /** n steps without input. */
  function Rounds(crc: Reg, n: nat): Reg
    decreases n
  {
    if n == 0 then crc else Rounds(Step(crc, false), n - 1)
  }

  // ------------------------------------------------------------------ linearity

  lemma StepLinear(x: Reg, y: Reg)
    ensures Step(Xor(x, y), false) == Xor(Step(x, false), Step(y, false))
  {
  }

  lemma {:induction false} RoundsLinear(x: Reg, y: Reg, n: nat)
    ensures Rounds(Xor(x, y), n) == Xor(Rounds(x, n), Rounds(y, n))
    decreases n
  {
    hide Step;
    if n > 0 {
      StepLinear(x, y);
      RoundsLinear(Step(x, false), Step(y, false), n - 1);
    }
  }

  /** While the leading bits are zero a step only shifts. */
  lemma {:induction false} ZerosShift(x: Reg, n: nat)
    requires n <= 64 && forall i :: 0 <= i < n ==> !x[i]
    ensures Rounds(x, n) == Shl(x, n)
    decreases n
  {
    hide Poly;
    if n == 0 {
      assert Shl(x, 0) == x;
    } else {
      var y := Step(x, false);
      assert forall i :: 0 <= i < 64 ==> y[i] == (i + 1 < 64 && x[i + 1]);
      ZerosShift(y, n - 1);
      assert Shl(y, n - 1) == Shl(x, n);
    }
  }

  /** A message bit can be added to the top of the register before the step. */
  lemma BitAtTop(x: Reg, b: bool)
    ensures Step(x, b) == Step(Xor(x, [b] + Fill(63, false)), false)
  {
  }

  /** Feeding bits one at a time is adding them all at the top and then running that many rounds. */
  lemma {:induction false} FeedIsRounds(x: Reg, bits: Word)
    requires |bits| <= 64
    ensures Feed(x, bits) == Rounds(Xor(x, bits + Fill(64 - |bits|, false)), |bits|)
    decreases |bits|
  {
    hide Step, Rounds;
    RoundsZero(x);
    if bits == [] {
      assert Xor(x, bits + Fill(64, false)) == x;
      RoundsZero(Xor(x, bits + Fill(64, false)));
    } else {
      FeedStep(x, bits);
      FeedIsRounds(Step(x, bits[0]), bits[1..]);
    }
  }

  lemma RoundsZero(x: Reg)
    ensures Rounds(x, 0) == x
  {
  }

  lemma FeedStep(x: Reg, bits: Word)
    requires 0 < |bits| <= 64
    ensures var n := |bits|;
            Rounds(Xor(x, bits + Fill(64 - n, false)), n)
            == Rounds(Xor(Step(x, bits[0]), bits[1..] + Fill(64 - (n - 1), false)), n - 1)
  {
    hide Step;
    var n, b := |bits|, bits[0];
    var head: Reg := [b] + Fill(63, false);
    var tail: Reg := [false] + bits[1..] + Fill(64 - n, false);
    var next: Reg := bits[1..] + Fill(64 - (n - 1), false);
    assert Xor(x, bits + Fill(64 - n, false)) == Xor(Xor(x, head), tail);
    StepLinear(Xor(x, head), tail);
    BitAtTop(x, b);
    TailStep(tail, next);
  }

  lemma TailStep(tail: Reg, next: Reg)
    requires !tail[0] && next == tail[1..] + [false]
    ensures Step(tail, false) == next
  {
  }

  // ------------------------------------------------------------------ the table

  /** The register that holds an octet at its top. */
  function AtTop(o: Octet): Reg { o + Fill(56, false) }

  method BuildTable() returns (table: array<Reg>)
    ensures fresh(table) && table.Length == 256
    ensures forall i :: 0 <= i < 256 ==> table[i] == Rounds(AtTop(ToBits(i, 8)), 8)
  {
    hide Step, Rounds, AtTop, ToBits;
    table := new Reg[256](_ => seq(64, _ => false));
    var i := 0;
    while i < 256
      invariant 0 <= i <= 256
      invariant forall k :: 0 <= k < i ==> table[k] == Rounds(AtTop(ToBits(k, 8)), 8)
    {
      var start: Reg := AtTop(ToBits(i, 8));
      var crc := start;
      var round := 0;
      while round < 8
        invariant 0 <= round <= 8
        invariant forall k :: 0 <= k < i ==> table[k] == Rounds(AtTop(ToBits(k, 8)), 8)
        invariant Rounds(crc, 8 - round) == Rounds(start, 8)
      {
        OneRound(crc, 8 - round);
        var bitSet := crc[0];
        var shifted: Reg := Shl(crc, 1);
        crc := if bitSet then Xor(shifted, Poly()) else shifted;
        round := round + 1;
      }
      RoundsZero(crc);
      table[i] := crc;
      i := i + 1;
    }
  }

  lemma OneRound(crc: Reg, n: nat)
    requires n > 0
    ensures Rounds(crc, n) == Rounds(if crc[0] then Xor(Shl(crc, 1), Poly()) else Shl(crc, 1), n - 1)
  {
  }

  /** Eight rounds are one lookup: the top octet picks what is added to the shifted rest. */
  lemma LookupIsRounds(x: Reg)
    ensures Rounds(x, 8) == Xor(Shl(x, 8), Rounds(AtTop(x[..8]), 8))
  {
    hide Rounds;
    var top, rest: Reg := AtTop(x[..8]), Fill(8, false) + x[8..];
    assert x == Xor(rest, top);
    RoundsLinear(rest, top, 8);
    ZerosShift(rest, 8);
    assert Shl(rest, 8) == Shl(x, 8);
  }

  /** One byte of the table loop is eight bits of the reference. */
  lemma ByteStep(crc: Reg, c: Octet)
    ensures Feed(crc, Reverse(c)) == Xor(Shl(crc, 8), Rounds(AtTop(Xor(crc[..8], Reverse(c))), 8))
  {
    hide Rounds, Feed;
    var bits := Reverse(c);
    var mixed: Reg := Xor(crc, bits + Fill(56, false));
    FeedIsRounds(crc, bits);
    LookupIsRounds(mixed);
    assert mixed[..8] == Xor(crc[..8], bits);
    assert Shl(mixed, 8) == Shl(crc, 8);
  }

  /** The table-driven hash equals the bit-at-a-time hash on every input. */
  method TableHash(data: seq<Octet>) returns (r: Reg)
    ensures r == Bitwise(data)
  {
    hide Feed, Rounds, AtTop, ToBits, FromBits;
    var table := BuildTable();
    var crc: Reg := Fill(64, false);
    var i := 0;
    assert data[0..] == data;
    while i < |data|
      invariant 0 <= i <= |data|
      invariant forall k :: 0 <= k < 256 ==> table[k] == Rounds(AtTop(ToBits(k, 8)), 8)
      invariant Register(crc, data[i..]) == Register(Fill(64, false), data)
    {
      var c := data[i];
      var key: Octet := Xor(crc[..8], Reverse(c));
      KeyInTable(key);
      ByteStep(crc, c);
      assert data[i..][1..] == data[i + 1..] && data[i..][0] == c;
      assert Register(crc, data[i..]) == Register(Feed(crc, Reverse(c)), data[i + 1..]);
      crc := Xor(Shl(crc, 8), table[FromBits(key)]);
      i := i + 1;
    }
    r := Reverse(crc);
  }

  lemma KeyInTable(key: Octet)
    ensures FromBits(key) < 256 && ToBits(FromBits(key), 8) == key
  {
    BitsRoundTrip(key);
    assert Exp2(8) == 256;
  }
}
