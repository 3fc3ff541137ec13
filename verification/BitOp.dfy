/** BITOP: sources folded one at a time into one buffer, against the byte-wise meaning on zero-padded sources. */
module BitOp {
  import opened Wrappers
  import opened Words

  datatype Operation = OpAnd | OpOr | OpXor | OpNot | OpDiff

  const ZERO: Octet := [false, false, false, false, false, false, false, false]

  // ------------------------------------------------------------------ meaning

  /** A source read past its end gives zeros. */
  function Padded(src: Bitmap, i: nat): Octet { if i < |src| then src[i] else ZERO }

  function Apply(op: Operation, d: Octet, s: Octet): Octet {
    match op
    case OpAnd => And(d, s)
    case OpOr => Or(d, s)
    case OpXor => Xor(d, s)
    case OpDiff => And(d, Not(s))
    case OpNot => d
  }

  /** Byte i of the result: the operator applied in order to the padded sources. */
  function Combined(op: Operation, srcs: seq<Bitmap>, i: nat): Octet
    requires srcs != []
  {
    var n := |srcs| - 1;
    if n == 0 then (if op.OpNot? then Not(Padded(srcs[0], i)) else Padded(srcs[0], i))
    else Apply(op, Combined(op, srcs[..n], i), Padded(srcs[n], i))
  }

  function Longest(srcs: seq<Bitmap>): nat {
    if srcs == [] then 0
    else var n := |srcs| - 1; if Longest(srcs[..n]) < |srcs[n]| then |srcs[n]| else Longest(srcs[..n])
  }

  function Shortest(srcs: seq<Bitmap>): nat
    requires srcs != []
  {
    var n := |srcs| - 1;
    if n == 0 then |srcs[0]| else if |srcs[n]| < Shortest(srcs[..n]) then |srcs[n]| else Shortest(srcs[..n])
  }

  /** Length of the result: the longest source; NOT looks at the first one only. */
  function ResultLen(op: Operation, srcs: seq<Bitmap>): nat {
    if op.OpNot? && srcs != [] then |srcs[0]| else Longest(srcs)
  }

  /** Beyond the shortest source the conjunction is zero; beyond the longest, every operator but NOT is. */
  lemma {:induction false} TailIsZero(op: Operation, srcs: seq<Bitmap>, i: nat)
    requires srcs != []
    ensures op.OpAnd? && i >= Shortest(srcs) ==> Combined(op, srcs, i) == ZERO
    ensures !op.OpNot? && i >= Longest(srcs) ==> Combined(op, srcs, i) == ZERO
  {
    var n := |srcs| - 1;
    if n == 0 {
      assert Longest(srcs[..0]) == 0;
    } else {
      TailIsZero(op, srcs[..n], i);
      ApplyZeros(op, Combined(op, srcs[..n], i), Padded(srcs[n], i));
    }
  }

  lemma ApplyZeros(op: Operation, d: Octet, s: Octet)
    ensures op.OpAnd? && (d == ZERO || s == ZERO) ==> Apply(op, d, s) == ZERO
    ensures !op.OpNot? && d == ZERO && s == ZERO ==> Apply(op, d, s) == ZERO
  {
  }

  // ------------------------------------------------------------------ meaning, bit by bit

  /** Bit p of a source, zero past its end. */
  predicate HasBit(src: Bitmap, p: nat) { p < 8 * |src| && Bit(src, p) }

  /** How many sources have the bit. */
  function Holders(srcs: seq<Bitmap>, p: nat): nat {
    if srcs == [] then 0 else Holders(srcs[..|srcs| - 1], p) + (if HasBit(srcs[|srcs| - 1], p) then 1 else 0)
  }

  /** What each operator says about a bit of its result. */
  ghost predicate Says(op: Operation, srcs: seq<Bitmap>, p: nat)
    requires srcs != []
  {
    match op
    case OpAnd => forall k :: 0 <= k < |srcs| ==> HasBit(srcs[k], p)
    case OpOr => exists k :: 0 <= k < |srcs| && HasBit(srcs[k], p)
    case OpXor => Holders(srcs, p) % 2 == 1
    case OpDiff => HasBit(srcs[0], p) && forall k :: 1 <= k < |srcs| ==> !HasBit(srcs[k], p)
    case OpNot => !HasBit(srcs[0], p)
  }

  /** One more source, for one bit. */
  predicate JoinBit(op: Operation, d: bool, s: bool) {
    match op
    case OpAnd => d && s
    case OpOr => d || s
    case OpXor => d != s
    case OpDiff => d && !s
    case OpNot => d
  }

  lemma ApplyBit(op: Operation, d: Octet, s: Octet, k: nat)
    requires k < 8
    ensures Apply(op, d, s)[k] == JoinBit(op, d[k], s[k])
  {
  }

  lemma SaysMore(op: Operation, before: seq<Bitmap>, last: Bitmap, p: nat)
    requires before != []
    ensures Says(op, before + [last], p) == JoinBit(op, Says(op, before, p), HasBit(last, p))
  {
    hide HasBit;
    var srcs, n := before + [last], |before|;
    assert srcs[..n] == before && srcs[n] == last;
    assert forall k :: 0 <= k < n ==> srcs[k] == before[k];
    match op
    case OpOr =>
      if k :| 0 <= k < n && HasBit(before[k], p) {
        assert HasBit(srcs[k], p);
      }
    case _ =>
  }

  lemma {:induction false} CombinedSays(op: Operation, srcs: seq<Bitmap>, p: nat)
    requires srcs != []
    ensures Combined(op, srcs, p / 8)[p % 8] == Says(op, srcs, p)
  {
    hide Apply;
    var n := |srcs| - 1;
    var before, last := srcs[..n], srcs[n];
    if n > 0 {
      hide Says;
      CombinedSays(op, before, p);
      ApplyBit(op, Combined(op, before, p / 8), Padded(last, p / 8), p % 8);
      assert Padded(last, p / 8)[p % 8] == HasBit(last, p);
      assert srcs == before + [last];
      SaysMore(op, before, last, p);
    } else {
      assert Holders(before, p) == 0;
    }
  }

  /** A result that is combined byte by byte says at every bit what its operator says. */
  lemma ResultSays(op: Operation, srcs: seq<Bitmap>, result: Bitmap)
    requires srcs != [] && forall i :: 0 <= i < |result| ==> result[i] == Combined(op, srcs, i)
    ensures forall p :: 0 <= p < 8 * |result| ==> Bit(result, p) == Says(op, srcs, p)
  {
    hide Combined, Says;
    forall p | 0 <= p < 8 * |result| ensures Bit(result, p) == Says(op, srcs, p) {
      CombinedSays(op, srcs, p);
    }
  }

  /** The longest length is reached by some source and exceeded by none. */
  lemma {:induction false} LongestIsMax(srcs: seq<Bitmap>)
    ensures forall k :: 0 <= k < |srcs| ==> |srcs[k]| <= Longest(srcs)
    ensures Longest(srcs) == 0 || exists k :: 0 <= k < |srcs| && |srcs[k]| == Longest(srcs)
  {
    if srcs != [] {
      var n := |srcs| - 1;
      LongestIsMax(srcs[..n]);
      if Longest(srcs[..n]) >= |srcs[n]| && Longest(srcs[..n]) > 0 {
        var k :| 0 <= k < n && |srcs[..n][k]| == Longest(srcs[..n]);
        assert |srcs[k]| == Longest(srcs);
      }
    }
  }

  // ------------------------------------------------------------------ the accumulator

  /** Up to where the buffer already holds the combined bytes; the conjunction's tail is left stale. */
  ghost function Settled(op: Operation, srcs: seq<Bitmap>): nat
    requires srcs != []
  {
    if op.OpAnd? then Shortest(srcs) else ResultLen(op, srcs)
  }

  class Accumulator {
    const op: Operation
    var dst: Bitmap
    var shortest: Option<nat>
    var keysFound: nat
    ghost var srcs: seq<Bitmap>

    ghost predicate Valid()
      reads this
    {
      && keysFound == |srcs|
      && |dst| == ResultLen(op, srcs)
      && (if srcs == [] then dst == [] && shortest == None else
          && shortest == Some(Shortest(srcs))
          && Shortest(srcs) <= Longest(srcs)
          && forall i :: 0 <= i < Settled(op, srcs) ==> dst[i] == Combined(op, srcs, i))
    }

    constructor (op: Operation)
      ensures Valid() && srcs == [] && this.op == op
    {
      this.op := op;
      dst, shortest, keysFound, srcs := [], None, 0, [];
    }

    /** Missing keys are folded as empty sources. NOT ignores every source but the first. */
    method Fold(src: Bitmap)
      requires Valid()
      modifies this
      ensures Valid() && srcs == old(srcs) + [src]
    {
      hide Combined, Apply;
      keysFound := keysFound + 1;
      shortest := Some(match shortest case None => |src| case Some(n) => if |src| < n then |src| else n);
      ghost var before := srcs;
      srcs := srcs + [src];
      assert srcs[..|before|] == before;
      if keysFound == 1 {
        dst := FirstSource(op, src);
        forall i | 0 <= i < |src| ensures dst[i] == Combined(op, srcs, i) {
          FirstByte(op, src, i);
        }
        return;
      }
      if op.OpNot? {
        forall i | 0 <= i < |dst| ensures dst[i] == Combined(op, srcs, i) {
          NotIgnores(before, src, i);
        }
        return;
      }
      dst := FoldInto(op, dst, src);
      forall i | 0 <= i < Settled(op, srcs) ensures dst[i] == Combined(op, srcs, i) {
        FoldedByte(op, before, src, old(dst), i);
      }
    }

    method Finish() returns (r: Result<Bitmap, ()>)
      requires Valid()
      ensures r.Err? <==> op.OpDiff? && |srcs| == 1
      ensures r.Ok? ==> |r.value| == ResultLen(op, srcs)
      ensures r.Ok? && srcs != [] ==> forall i :: 0 <= i < |r.value| ==> r.value[i] == Combined(op, srcs, i)
      ensures r.Ok? && srcs != [] ==> forall p :: 0 <= p < 8 * |r.value| ==> Bit(r.value, p) == Says(op, srcs, p)
    {
      hide Says;
      if op.OpDiff? && keysFound == 1 {
        return Err(());
      }
      if op.OpAnd? && keysFound > 0 {
        var n := shortest.value;
        var out := dst[..n] + seq(|dst| - n, _ => ZERO);
        forall i | 0 <= i < |out| ensures out[i] == Combined(op, srcs, i) {
          if i >= n { TailIsZero(op, srcs, i); }
        }
        ResultSays(op, srcs, out);
        return Ok(out);
      }
      if srcs != [] {
        ResultSays(op, srcs, dst);
      }
      return Ok(dst);
    }
  }

  lemma FirstByte(op: Operation, src: Bitmap, i: nat)
    requires i < |src|
    ensures Combined(op, [src], i) == if op.OpNot? then Not(src[i]) else src[i]
  {
  }

  lemma NotIgnores(before: seq<Bitmap>, src: Bitmap, i: nat)
    requires before != []
    ensures Combined(OpNot, before + [src], i) == Combined(OpNot, before, i)
  {
    assert (before + [src])[..|before|] == before;
  }

  method FirstSource(op: Operation, src: Bitmap) returns (dst: Bitmap)
    ensures |dst| == |src| && forall i :: 0 <= i < |src| ==> dst[i] == if op.OpNot? then Not(src[i]) else src[i]
  {
    dst := seq(|src|, i requires 0 <= i < |src| => var o: Octet := if op.OpNot? then Not(src[i]) else src[i]; o);
  }

  /** In place on the common prefix; the longer side is kept, taken over or zero-filled by operator. */
  method FoldInto(op: Operation, dst0: Bitmap, src: Bitmap) returns (dst: Bitmap)
    requires !op.OpNot?
    ensures |dst| == if |dst0| < |src| then |src| else |dst0|
    ensures forall i :: 0 <= i < |dst| ==>
              dst[i] == if i < |dst0| && i < |src| then Apply(op, dst0[i], src[i])
                        else if i < |dst0| then dst0[i]
                        else if op.OpOr? || op.OpXor? then src[i] else ZERO
  {
    var common := if |dst0| < |src| then |dst0| else |src|;
    dst := dst0;
    var i := 0;
    while i < common
      invariant 0 <= i <= common && |dst| == |dst0|
      invariant forall k :: 0 <= k < |dst| ==> dst[k] == if k < i then Apply(op, dst0[k], src[k]) else dst0[k]
    {
      dst := dst[i := Apply(op, dst[i], src[i])];
      i := i + 1;
    }
    if |src| > |dst| {
      if op.OpOr? || op.OpXor? {
        dst := dst + src[common..];
      } else {
        dst := dst + seq(|src| - |dst|, _ => ZERO);
      }
    }
  }

  /** Each byte the fold writes within the settled part is the combination over one more source. */
  lemma FoldedByte(op: Operation, before: seq<Bitmap>, src: Bitmap, dst0: Bitmap, i: nat)
    requires before != [] && !op.OpNot? && |dst0| == Longest(before) && Shortest(before) <= Longest(before)
    requires forall k :: 0 <= k < Settled(op, before) ==> dst0[k] == Combined(op, before, k)
    requires i < Settled(op, before + [src])
    ensures Combined(op, before + [src], i)
         == if i < |dst0| && i < |src| then Apply(op, dst0[i], src[i])
            else if i < |dst0| then dst0[i]
            else if op.OpOr? || op.OpXor? then src[i] else ZERO
  {
    var srcs := before + [src];
    assert srcs[..|before|] == before;
    TailIsZero(op, before, i);
    var d := Combined(op, before, i);
    if i < |dst0| && i < Settled(op, before) { assert dst0[i] == d; }
    assert Or(d, ZERO) == d && Xor(d, ZERO) == d && And(d, Not(ZERO)) == d;
    if i < |src| {
      assert Or(ZERO, src[i]) == src[i] && Xor(ZERO, src[i]) == src[i] && And(ZERO, Not(src[i])) == ZERO;
    }
  }

  // ------------------------------------------------------------------ the command's loop over its sources

  datatype SourceRead = Hit(value: Bitmap) | Missing | WrongType | Deferred | Failed

  datatype Reply = Computed(result: Bitmap) | WrongTypeError | TakeSlowPath | GenericError

  predicate Readable(read: SourceRead) { read.Hit? || read.Missing? }

  /** The reply to a source that cannot be folded. */
  function ExitOf(read: SourceRead): Reply
    requires !Readable(read)
  {
    match read
    case WrongType => WrongTypeError
    case Deferred => TakeSlowPath
    case Failed => GenericError
  }

  /** Missing keys count as empty strings. */
  function Sources(answers: seq<SourceRead>): (srcs: seq<Bitmap>)
    ensures |srcs| == |answers|
  {
    seq(|answers|, k requires 0 <= k < |answers| => if answers[k].Hit? then answers[k].value else [])
  }

  /** The sources are folded in order and finished; the first one that cannot be read decides the reply. */
  method BitOpAll(op: Operation, answers: seq<SourceRead>) returns (r: Reply)
    ensures forall k :: 0 <= k < |answers| && !Readable(answers[k]) && (forall j :: 0 <= j < k ==> Readable(answers[j])) ==>
              r == ExitOf(answers[k])
    ensures (forall k :: 0 <= k < |answers| ==> Readable(answers[k])) ==>
              if op.OpDiff? && |answers| == 1 then r == GenericError
              else
                && r.Computed? && |r.result| == ResultLen(op, Sources(answers))
                && (answers != [] ==>
                      forall p :: 0 <= p < 8 * |r.result| ==> Bit(r.result, p) == Says(op, Sources(answers), p))
  {
    hide Says, Combined;
    var acc := new Accumulator(op);
    ghost var srcs := Sources(answers);
    var k := 0;
    assert srcs[..0] == [];
    while k < |answers|
      invariant 0 <= k <= |answers| && forall j :: 0 <= j < k ==> Readable(answers[j])
      invariant acc.Valid() && fresh(acc) && acc.op == op && acc.srcs == srcs[..k]
    {
      if !Readable(answers[k]) {
        return ExitOf(answers[k]);
      }
      assert srcs[..k] + [srcs[k]] == srcs[..k + 1];
      acc.Fold(if answers[k].Hit? then answers[k].value else []);
      k := k + 1;
    }
    assert srcs[..k] == srcs;
    var result := acc.Finish();
    r := match result case Ok(bytes) => Computed(bytes) case Err(_) => GenericError;
  }
}
