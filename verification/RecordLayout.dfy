/** The wire format of migration frames, byte by byte, and what the parser says to inputs cut short. */
module RecordLayout {
  import opened Bytes
  import opened Wrappers
  import opened Layout
  import opened Record

  /** A length-prefixed segment at an offset. */
  ghost predicate Segment(w: Buf, off: nat, s: Buf) {
    Field(w, off, |s|, 4) && off + 4 + |s| <= |w| && w[off + 4..off + 4 + |s|] == s
  }

  lemma SegmentAt(w: Buf, pre: Buf, s: Buf, post: Buf)
    requires w == pre + Seg(s) + post
    ensures Segment(w, |pre|, s)
  {
    hide LE;
    assert w == pre + LE(|s|, 4) + (s + post);
    FieldAt(w, pre, |s|, 4, s + post);
  }

  lemma SegLen(s: Buf)
    ensures |Seg(s)| == 4 + |s|
  {
  }

  /** Two's complement of a tick count. */
  function Ticks(v: I64): nat { if v < 0 then 0x1_0000_0000_0000_0000 + v else v }

  /** Kinds 1 and 2: kind, key, value, eight bytes of ticks. */
  lemma RecordLayout(r: Rec)
    ensures var w, k, v := EncodeFrame(RecordFrame(r)), |r.key|, |r.val|;
            && |w| == 17 + k + v
            && w[0] == (if r.Str? then 1 else 2)
            && Segment(w, 1, r.key) && Segment(w, 5 + k, r.val)
            && Field(w, 9 + k + v, Ticks(r.expire), 8)
  {
    hide LE, Seg;
    SegLen(r.key);
    SegLen(r.val);
    var w := EncodeFrame(RecordFrame(r));
    var kind: Buf, ticks := [RecKind(r)], LE(Bits64(r.expire), 8);
    assert ticks + [] == ticks;
    var p1, p2, p3, _ := Four(w, kind, Seg(r.key), Seg(r.val), ticks, []);
    SegmentAt(w, kind, r.key, p1);
    SegmentAt(w, kind + Seg(r.key), r.val, p2);
    FieldAt(w, kind + Seg(r.key) + Seg(r.val), Bits64(r.expire), 8, p3);
  }

  /** Kind 3: the length with the flag in its top bit, then the bytes. */
  lemma ChunkLayout(bytes: Buf, more: bool)
    requires |bytes| < 0x8000_0000
    ensures var w := EncodeFrame(Chunk(bytes, more));
            && |w| == 5 + |bytes| && w[0] == 3
            && Field(w, 1, |bytes| + (if more then 0x8000_0000 else 0), 4) && w[5..] == bytes
  {
    hide LE;
    var w, kind: Buf := EncodeFrame(Chunk(bytes, more)), [3];
    assert w == kind + LE(ChunkHead(|bytes|, more), 4) + bytes;
    FieldAt(w, kind, ChunkHead(|bytes|, more), 4, bytes);
  }

  /** Kind 4: seventeen bytes of stream metadata, then the bytes. */
  lemma StreamLayout(t: Byte, next: I64, expire: I64, bytes: Buf)
    ensures var w := EncodeFrame(TreeStream(t, next, expire, bytes));
            && |w| == 22 + |bytes| && w[0] == 4 && w[1] == t
            && Field(w, 2, Ticks(next), 8) && Field(w, 10, Ticks(expire), 8) && Segment(w, 18, bytes)
  {
    hide LE, Seg;
    SegLen(bytes);
    var w, kind: Buf, tag: Buf := EncodeFrame(TreeStream(t, next, expire, bytes)), [4], [t];
    var n, e := LE(Bits64(next), 8), LE(Bits64(expire), 8);
    var p1, p2, p3, p4 := Four(w, kind, tag, n, e, Seg(bytes));
    SliceAt(w, kind, tag, p1);
    FieldAt(w, kind + tag, Bits64(next), 8, p2);
    FieldAt(w, kind + tag + n, Bits64(expire), 8, p3);
    SegmentAt(w, kind + tag + n + e, bytes, p4);
  }

  /** Kinds 5 and 8: two segments. */
  lemma TwoSegmentLayout(k: Buf, v: Buf, meta: bool)
    ensures var w := EncodeFrame(if meta then DbMeta(k, v) else VectorIndex(k, v));
            && |w| == 9 + |k| + |v| && w[0] == (if meta then 8 else 5)
            && Segment(w, 1, k) && Segment(w, 5 + |k|, v)
  {
    hide LE, Seg;
    var w, kind: Buf := EncodeFrame(if meta then DbMeta(k, v) else VectorIndex(k, v)), [if meta then 8 else 5];
    SegLen(k);
    SegLen(v);
    assert w == kind + Seg(k) + Seg(v) && w == (kind + Seg(k)) + Seg(v) + [];
    SegmentAt(w, kind, k, Seg(v));
    SegmentAt(w, kind + Seg(k), v, []);
  }

  /** Each of four pieces with what stands before and behind it. */
  lemma Four(w: Buf, head: Buf, a: Buf, b: Buf, c: Buf, d: Buf) returns (p1: Buf, p2: Buf, p3: Buf, p4: Buf)
    requires w == head + (a + (b + (c + d)))
    ensures w == head + a + p1 && w == (head + a) + b + p2 && w == (head + a + b) + c + p3
    ensures w == (head + a + b + c) + d + p4
  {
    p1, p2, p3, p4 := b + (c + d), c + d, d, [];
    assert w == head + a + p1;
    assert w == (head + a) + b + p2;
    assert w == (head + a + b) + c + p3;
  }

  /** Kind 6: four segments. */
  lemma ElementLayout(k: Buf, e: Buf, v: Buf, a: Buf)
    ensures var w := EncodeFrame(VectorElement(k, e, v, a));
            && |w| == 17 + |k| + |e| + |v| + |a| && w[0] == 6
            && Segment(w, 1, k) && Segment(w, 5 + |k|, e) && Segment(w, 9 + |k| + |e|, v)
            && Segment(w, 13 + |k| + |e| + |v|, a)
  {
    hide LE, Seg;
    var w, kind: Buf := EncodeFrame(VectorElement(k, e, v, a)), [6];
    SegLen(k);
    SegLen(e);
    SegLen(v);
    SegLen(a);
    var p1, p2, p3, p4 := Four(w, kind, Seg(k), Seg(e), Seg(v), Seg(a));
    SegmentAt(w, kind, k, p1);
    SegmentAt(w, kind + Seg(k), e, p2);
    SegmentAt(w, kind + Seg(k) + Seg(e), v, p3);
    SegmentAt(w, kind + Seg(k) + Seg(e) + Seg(v), a, p4);
  }

  /** Kind 7: four words, virtual domain first. */
  lemma DomainLayout(vns: U64, vdb: U64, ns: U64, db: U64)
    ensures var w := EncodeFrame(DomainContext(vns, vdb, ns, db));
            && |w| == 33 && w[0] == 7
            && Field(w, 1, vns, 8) && Field(w, 9, vdb, 8) && Field(w, 17, ns, 8) && Field(w, 25, db, 8)
  {
    hide LE;
    var w, kind: Buf := EncodeFrame(DomainContext(vns, vdb, ns, db)), [7];
    var a, b, c, d := LE(vns, 8), LE(vdb, 8), LE(ns, 8), LE(db, 8);
    var p1, p2, p3, p4 := Four(w, kind, a, b, c, d);
    FieldAt(w, kind, vns, 8, p1);
    FieldAt(w, kind + a, vdb, 8, p2);
    FieldAt(w, kind + a + b, ns, 8, p3);
    FieldAt(w, kind + a + b + c, db, 8, p4);
  }

  lemma OneFrame(f: Frame)
    ensures EncodeFrames([f]) == EncodeFrame(f)
  {
    hide EncodeFrame;
    assert [f][1..] == [];
  }

  /** A payload opens with its count and holds each frame behind those before it. */
  lemma PayloadLayout(a: seq<Frame>, f: Frame, b: seq<Frame>)
    ensures var w, off := PayloadOf(a + [f] + b), 4 + |EncodeFrames(a)|;
            && Field(w, 0, |a| + 1 + |b|, 4)
            && off + |EncodeFrame(f)| <= |w| && w[off..off + |EncodeFrame(f)|] == EncodeFrame(f)
  {
    hide LE, EncodeFrame, EncodeFrames;
    OneFrame(f);
    var fs := a + [f] + b;
    FramesAppend(a + [f], b);
    FramesAppend(a, [f]);
    var w := PayloadOf(fs);
    assert w == [] + LE(|fs|, 4) + EncodeFrames(fs);
    FieldAt(w, [], |fs|, 4, EncodeFrames(fs));
    assert w == (LE(|fs|, 4) + EncodeFrames(a)) + EncodeFrame(f) + EncodeFrames(b);
    SliceAt(w, LE(|fs|, 4) + EncodeFrames(a), EncodeFrame(f), EncodeFrames(b));
  }

  // ------------------------------------------------------------------ refusals

  /** A segment is cut short in its length or in its bytes, and otherwise taken whole. */
  lemma SegmentTaken(s: Buf)
    ensures |s| < 4 ==> TakeLenPrefixed(s) == Err(TruncatedLen)
    ensures |s| >= 4 ==>
              var n := FourBytes(s[0], s[1], s[2], s[3]);
              TakeLenPrefixed(s) == if |s| - 4 < n then Err(TruncatedSegment) else Ok((s[4..4 + n], s[4 + n..]))
  {
    hide FromLE;
    if |s| >= 4 {
      FourBytesLE(s[..4]);
      assert forall n :: 0 <= n <= |s| - 4 ==> s[4..][..n] == s[4..4 + n] && s[4..][n..] == s[4 + n..];
    }
  }

  /** What the parser says to a frame it cannot begin, or whose fixed part is missing. */
  lemma FrameRefused(s: Buf)
    ensures s == [] ==> ParseFrame(s) == Err(TruncatedKind)
    ensures s != [] && !(1 <= s[0] <= 8) ==> ParseFrame(s) == Err(UnsupportedKind(s[0]))
    ensures s != [] && s[0] == 3 && |s| < 5 ==> ParseFrame(s) == Err(TruncatedChunkLen)
    ensures s != [] && s[0] == 4 && |s| < 18 ==> ParseFrame(s) == Err(TruncatedStreamMeta)
    ensures s != [] && s[0] == 7 && |s| < 33 ==> ParseFrame(s) == Err(TruncatedDomain)
  {
  }

  /** A record without all its eight bytes of ticks. */
  lemma RecordRefused(r: Rec, cut: nat)
    requires Short(r.key) && Short(r.val) && cut < 8
    ensures var w := EncodeFrame(RecordFrame(r)); ParseFrame(w[..|w| - 8 + cut]) == Err(TruncatedExpire)
  {
    hide LE, FromLE, Seg, TakeLenPrefixed;
    SegLen(r.key);
    SegLen(r.val);
    var w, ticks := EncodeFrame(RecordFrame(r)), LE(Bits64(r.expire), 8);
    var tail := ticks[..cut];
    assert w[..|w| - 8 + cut] == [RecKind(r)] + (Seg(r.key) + (Seg(r.val) + tail));
    SegRoundTrip(r.key, Seg(r.val) + tail);
    SegRoundTrip(r.val, tail);
  }

  /** A chunk without all its bytes. */
  lemma ChunkRefused(bytes: Buf, more: bool, cut: nat)
    requires |bytes| < 0x8000_0000 && cut < |bytes|
    ensures ParseFrame(EncodeFrame(Chunk(bytes, more))[..5 + cut]) == Err(TruncatedChunk)
  {
    hide LE, FromLE;
    Widths();
    LERoundTrip(ChunkHead(|bytes|, more), 4);
    HeadSplits(ChunkHead(|bytes|, more), |bytes|, more);
    var c, head := EncodeFrame(Chunk(bytes, more))[..5 + cut], LE(ChunkHead(|bytes|, more), 4);
    assert c == [3] + (head + bytes[..cut]);
    assert c[1..] == head + bytes[..cut];
    assert c[1..][..4] == head && c[1..][4..] == bytes[..cut];
  }

  /** No payload can be cut short unnoticed. */
  lemma TruncationIsRefused(fs: seq<Frame>, n: nat)
    requires AllEncodable(fs) && |fs| < U32_LIMIT && n < |PayloadOf(fs)|
    ensures ParsePayload(PayloadOf(fs)[..n]).Err?
  {
    hide LE, FromLE, ParseFrames, EncodeFrames;
    var w := PayloadOf(fs);
    if ParsePayload(w[..n]).Ok? {
      PayloadCanonical(w[..n]);
      var gs := ParsePayload(w[..n]).value.1;
      var rest := w[|PayloadOf(gs)|..];
      assert w == PayloadOf(gs) + rest;
      PayloadRoundTrip(gs, rest);
      PayloadRoundTrip(fs, []);
      assert w + [] == w;
      SameCount(gs, fs, rest);
    }
  }

  lemma SameCount(gs: seq<Frame>, fs: seq<Frame>, rest: Buf)
    requires |fs| < U32_LIMIT && PayloadOf(gs) + rest == PayloadOf(fs)
    ensures |gs| % U32_LIMIT == |fs|
  {
    hide LE, FromLE, EncodeFrames;
    assert LE(|gs|, 4) == (PayloadOf(gs) + rest)[..4] == LE(|fs|, 4);
    Narrowed(|gs|, 4);
    Narrowed(|fs|, 4);
    Widths();
  }
}
