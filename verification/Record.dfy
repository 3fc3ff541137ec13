/** Migration frames: eight kinds, length-prefixed segments, the payload parser and the chunker that
    cuts a record into chunk frames without building it. */
module Record {
  import opened Bytes
  import opened Wrappers
  import Align

  type Buf = seq<Byte>

  const I64_HALF: nat := 0x8000_0000_0000_0000
  const CONTINUATION_FLAG: nat := 0x8000_0000

  datatype Rec =
    | Str(key: Buf, val: Buf, expire: I64)
    | Env(key: Buf, val: Buf, expire: I64)

  datatype Frame =
    | RecordFrame(rec: Rec)
    | Chunk(bytes: Buf, more: bool)
    | TreeStream(objType: Byte, nextExpiry: I64, expire: I64, bytes: Buf)
    | VectorIndex(key: Buf, value: Buf)
    | VectorElement(key: Buf, element: Buf, values: Buf, attributes: Buf)
    | DomainContext(vns: U64, vdb: U64, ns: U64, db: U64)
    | DbMeta(key: Buf, value: Buf)

  datatype Error =
    | TruncatedLen | TruncatedSegment | TruncatedExpire | UnsupportedKind(kind: Byte) | EmptyRecord
    | PayloadTooShort | RecordCountExceedsPayload(count: nat, len: nat)
    | TruncatedKind | TruncatedChunkLen | TruncatedChunk | TruncatedStreamMeta | TruncatedDomain

  // ------------------------------------------------------------------ encoding

  /** Two's-complement bits of a signed tick count. */
  function Bits64(v: I64): U64 { if v < 0 then v + U64_LIMIT else v }

  function FromBits64(n: U64): I64 { if n < I64_HALF then n else n - U64_LIMIT }

  function Seg(s: Buf): Buf { LE(|s|, 4) + s }

  /** Chunk length with the continuation flag in its top bit, as 32-bit arithmetic leaves it. */
  function ChunkHead(len: nat, more: bool): U32 {
    var low := len % U32_LIMIT;
    if more && low < CONTINUATION_FLAG then low + CONTINUATION_FLAG else low
  }

  function RecBody(r: Rec): Buf { Seg(r.key) + (Seg(r.val) + LE(Bits64(r.expire), 8)) }

  function RecKind(r: Rec): Byte { if r.Str? then 1 else 2 }

  function Kind(f: Frame): Byte {
    match f
    case RecordFrame(r) => RecKind(r)
    case Chunk(_, _) => 3
    case TreeStream(_, _, _, _) => 4
    case VectorIndex(_, _) => 5
    case VectorElement(_, _, _, _) => 6
    case DomainContext(_, _, _, _) => 7
    case DbMeta(_, _) => 8
  }

  function Body(f: Frame): Buf {
    match f
    case RecordFrame(r) => RecBody(r)
    case Chunk(bytes, more) => LE(ChunkHead(|bytes|, more), 4) + bytes
    case TreeStream(t, n, e, bytes) => [t] + (LE(Bits64(n), 8) + (LE(Bits64(e), 8) + Seg(bytes)))
    case VectorIndex(k, v) => Seg(k) + Seg(v)
    case VectorElement(k, e, v, a) => Seg(k) + (Seg(e) + (Seg(v) + Seg(a)))
    case DomainContext(vns, vdb, ns, db) => LE(vns, 8) + (LE(vdb, 8) + (LE(ns, 8) + LE(db, 8)))
    case DbMeta(k, v) => Seg(k) + Seg(v)
  }

  function EncodeFrame(f: Frame): Buf { [Kind(f)] + Body(f) }

  function EncodeFrames(fs: seq<Frame>): Buf {
    if fs == [] then [] else EncodeFrame(fs[0]) + EncodeFrames(fs[1..])
  }

  function PayloadOf(fs: seq<Frame>): Buf { LE(|fs|, 4) + EncodeFrames(fs) }

  // ------------------------------------------------------------------ parsing

  function TakeLE(s: Buf, n: nat, e: Error): (r: Result<(nat, Buf), Error>)
    ensures r.Ok? ==> r.value.0 < Pow256(n)
  {
    if |s| < n then Err(e) else Ok((FromLE(s[..n]), s[n..]))
  }

  function TakeLenPrefixed(s: Buf): Result<(Buf, Buf), Error> {
    var (len, rest) :- TakeLE(s, 4, TruncatedLen);
    if |rest| < len then Err(TruncatedSegment) else Ok((rest[..len], rest[len..]))
  }

  function U64At(s: Buf, i: nat): U64
    requires i + 8 <= |s|
  {
    Widths();
    FromLE(s[i..i + 8])
  }

  /** Decodes a record body; the kind is looked at only after the whole body was read. */
  function ParseTypedRecord(kind: Byte, body: Buf): Result<(Rec, Buf), Error> {
    var (key, r1) :- TakeLenPrefixed(body);
    var (val, r2) :- TakeLenPrefixed(r1);
    if |r2| < 8 then Err(TruncatedExpire)
    else if kind == 1 then Ok((Str(key, val, FromBits64(U64At(r2, 0))), r2[8..]))
    else if kind == 2 then Ok((Env(key, val, FromBits64(U64At(r2, 0))), r2[8..]))
    else Err(UnsupportedKind(kind))
  }

  function ParseRecord(raw: Buf): Result<Rec, Error> {
    if raw == [] then Err(EmptyRecord)
    else
      var (r, _) :- ParseTypedRecord(raw[0], raw[1..]);
      Ok(r)
  }

  function ParseChunk(s: Buf): Result<(Frame, Buf), Error> {
    var (head, rest) :- TakeLE(s, 4, TruncatedChunkLen);
    var len := head % CONTINUATION_FLAG;
    if |rest| < len then Err(TruncatedChunk)
    else Ok((Chunk(rest[..len], head / CONTINUATION_FLAG % 2 == 1), rest[len..]))
  }

  function ParseTreeStream(s: Buf): Result<(Frame, Buf), Error> {
    if |s| < 17 then Err(TruncatedStreamMeta)
    else
      var (bytes, rest) :- TakeLenPrefixed(s[17..]);
      Ok((TreeStream(s[0], FromBits64(U64At(s, 1)), FromBits64(U64At(s, 9)), bytes), rest))
  }

  function ParseElement(s: Buf): Result<(Frame, Buf), Error> {
    var (key, r1) :- TakeLenPrefixed(s);
    var (element, r2) :- TakeLenPrefixed(r1);
    var (values, r3) :- TakeLenPrefixed(r2);
    var (attributes, rest) :- TakeLenPrefixed(r3);
    Ok((VectorElement(key, element, values, attributes), rest))
  }

  function ParseDomain(s: Buf): Result<(Frame, Buf), Error> {
    if |s| < 32 then Err(TruncatedDomain)
    else Ok((DomainContext(U64At(s, 0), U64At(s, 8), U64At(s, 16), U64At(s, 24)), s[32..]))
  }

  function ParseTwoSegs(s: Buf): Result<(Buf, Buf, Buf), Error> {
    var (key, r1) :- TakeLenPrefixed(s);
    var (value, rest) :- TakeLenPrefixed(r1);
    Ok((key, value, rest))
  }

  function ParseBody(kind: Byte, s: Buf): Result<(Frame, Buf), Error> {
    if kind == 1 || kind == 2 then
      var (r, rest) :- ParseTypedRecord(kind, s);
      Ok((RecordFrame(r), rest))
    else if kind == 3 then ParseChunk(s)
    else if kind == 4 then ParseTreeStream(s)
    else if kind == 5 then
      var (k, v, rest) :- ParseTwoSegs(s);
      Ok((VectorIndex(k, v), rest))
    else if kind == 6 then ParseElement(s)
    else if kind == 7 then ParseDomain(s)
    else if kind == 8 then
      var (k, v, rest) :- ParseTwoSegs(s);
      Ok((DbMeta(k, v), rest))
    else Err(UnsupportedKind(kind))
  }

  /** One turn of the payload loop. */
  function ParseFrame(s: Buf): Result<(Frame, Buf), Error> {
    if s == [] then Err(TruncatedKind) else ParseBody(s[0], s[1..])
  }

  function ParseFrames(s: Buf, n: nat): Result<(seq<Frame>, Buf), Error>
    decreases n
  {
    if n == 0 then Ok(([], s))
    else
      var (f, r1) :- ParseFrame(s);
      var (fs, rest) :- ParseFrames(r1, n - 1);
      Ok(([f] + fs, rest))
  }

  function ParsePayload(payload: Buf): Result<(nat, seq<Frame>), Error> {
    var (count, s) :- TakeLE(payload, 4, PayloadTooShort);
    if count == 0 then Ok((0, []))
    else if count > |s| then Err(RecordCountExceedsPayload(count, |s|))
    else
      var (fs, _) :- ParseFrames(s, count);
      Ok((count, fs))
  }

  /** The whole result is what was collected followed by the result for the remaining input. */
  ghost predicate Resumes(whole: Result<(seq<Frame>, Buf), Error>, done: seq<Frame>,
                          rest: Result<(seq<Frame>, Buf), Error>) {
    match rest
    case Ok(p) => whole == Ok((done + p.0, p.1))
    case Err(e) => whole == Err(e)
  }

  /** The parser as it runs: a cursor slice and a growing list of frames. */
  method ParseMigrationPayload(payload: Buf) returns (r: Result<(nat, seq<Frame>), Error>)
    ensures r == ParsePayload(payload)
  {
    hide ParseFrame;
    if |payload| < 4 {
      return Err(PayloadTooShort);
    }
    var count := FromLE(payload[..4]);
    var cur := payload[4..];
    if count == 0 {
      return Ok((0, []));
    }
    if count > |cur| {
      return Err(RecordCountExceedsPayload(count, |cur|));
    }
    var frames: seq<Frame> := [];
    var i := 0;
    ghost var whole := ParseFrames(cur, count);
    assert whole.Ok? ==> [] + whole.value.0 == whole.value.0;
    while i < count
      invariant 0 <= i <= count
      invariant Resumes(whole, frames, ParseFrames(cur, count - i))
    {
      match ParseFrame(cur)
      case Err(e) =>
        return Err(e);
      case Ok(p) =>
        assert forall fs: seq<Frame> :: frames + ([p.0] + fs) == (frames + [p.0]) + fs;
        frames := frames + [p.0];
        cur := p.1;
        i := i + 1;
    }
    assert frames + [] == frames;
    return Ok((count, frames));
  }

  // ------------------------------------------------------------------ segments

  predicate Short(s: Buf) { |s| < U32_LIMIT }

  lemma SegRoundTrip(s: Buf, rest: Buf)
    requires Short(s)
    ensures TakeLenPrefixed(Seg(s) + rest) == Ok((s, rest))
  {
    hide LE, FromLE;
    Widths();
    LERoundTrip(|s|, 4);
    var w := Seg(s) + rest;
    assert w[..4] == LE(|s|, 4) && w[4..] == s + rest;
  }

  lemma SegCanonical(w: Buf)
    requires TakeLenPrefixed(w).Ok?
    ensures var (s, rest) := TakeLenPrefixed(w).value; Short(s) && w == Seg(s) + rest
  {
    hide LE, FromLE;
    Widths();
    FromLERoundTrip(w[..4]);
    var (s, rest) := TakeLenPrefixed(w).value;
    assert w == w[..4] + w[4..] && w[4..] == s + rest;
  }

  /** Eight little-endian bytes at an offset give back the value, and determine the bytes. */
  lemma U64AtRoundTrip(v: U64, i: nat, w: Buf)
    requires i + 8 <= |w|
    ensures U64At(w, i) == v <==> w[i..i + 8] == LE(v, 8)
  {
    hide LE, FromLE;
    Widths();
    LERoundTrip(v, 8);
    FromLERoundTrip(w[i..i + 8]);
  }

  lemma TicksRoundTrip(v: I64, n: U64)
    ensures FromBits64(Bits64(v)) == v && Bits64(FromBits64(n)) == n
  {
  }

  // ------------------------------------------------------------------ frames, both directions

  /** What the length fields can carry. */
  predicate Encodable(f: Frame) {
    match f
    case RecordFrame(r) => Short(r.key) && Short(r.val)
    case Chunk(bytes, _) => |bytes| < CONTINUATION_FLAG
    case TreeStream(_, _, _, bytes) => Short(bytes)
    case VectorIndex(k, v) => Short(k) && Short(v)
    case VectorElement(k, e, v, a) => Short(k) && Short(e) && Short(v) && Short(a)
    case DomainContext(_, _, _, _) => true
    case DbMeta(k, v) => Short(k) && Short(v)
  }

  lemma RecRoundTrip(r: Rec, rest: Buf)
    requires Short(r.key) && Short(r.val)
    ensures ParseTypedRecord(RecKind(r), RecBody(r) + rest) == Ok((r, rest))
  {
    hide LE, FromLE, Seg, TakeLenPrefixed, U64At;
    var tail := LE(Bits64(r.expire), 8) + rest;
    assert RecBody(r) + rest == Seg(r.key) + (Seg(r.val) + tail);
    SegRoundTrip(r.key, Seg(r.val) + tail);
    SegRoundTrip(r.val, tail);
    U64AtRoundTrip(Bits64(r.expire), 0, tail);
    assert tail[8..] == rest;
  }

  lemma RecCanonical(kind: Byte, w: Buf)
    requires ParseTypedRecord(kind, w).Ok?
    ensures var (r, rest) := ParseTypedRecord(kind, w).value;
            Short(r.key) && Short(r.val) && kind == RecKind(r) && w == RecBody(r) + rest
  {
    hide LE, FromLE, Seg, TakeLenPrefixed, U64At;
    var (r, rest) := ParseTypedRecord(kind, w).value;
    SegCanonical(w);
    var r1 := TakeLenPrefixed(w).value.1;
    SegCanonical(r1);
    var r2 := TakeLenPrefixed(r1).value.1;
    U64AtRoundTrip(Bits64(r.expire), 0, r2);
    assert r2 == LE(Bits64(r.expire), 8) + rest;
    assert w == Seg(r.key) + (Seg(r.val) + r2);
  }

  lemma HeadSplits(head: U32, len: nat, more: bool)
    requires len < CONTINUATION_FLAG
    ensures head == ChunkHead(len, more)
       <==> head % CONTINUATION_FLAG == len && (head / CONTINUATION_FLAG % 2 == 1) == more
  {
  }

  lemma ChunkRoundTrip(bytes: Buf, more: bool, rest: Buf)
    requires |bytes| < CONTINUATION_FLAG
    ensures ParseChunk(Body(Chunk(bytes, more)) + rest) == Ok((Chunk(bytes, more), rest))
  {
    hide LE, FromLE, ChunkHead;
    Widths();
    var head := ChunkHead(|bytes|, more);
    LERoundTrip(head, 4);
    HeadSplits(head, |bytes|, more);
    var w := Body(Chunk(bytes, more)) + rest;
    assert w[..4] == LE(head, 4) && w[4..] == bytes + rest;
  }

  lemma ChunkCanonical(w: Buf)
    requires ParseChunk(w).Ok?
    ensures var (f, rest) := ParseChunk(w).value; f.Chunk? && Encodable(f) && w == Body(f) + rest
  {
    hide LE, FromLE, ChunkHead;
    Widths();
    FromLERoundTrip(w[..4]);
    var (f, rest) := ParseChunk(w).value;
    HeadSplits(FromLE(w[..4]), |f.bytes|, f.more);
    assert w == w[..4] + w[4..] && w[4..] == f.bytes + rest;
  }

  lemma StreamRoundTrip(f: Frame, rest: Buf)
    requires f.TreeStream? && Encodable(f)
    ensures ParseTreeStream(Body(f) + rest) == Ok((f, rest))
  {
    hide LE, FromLE, U64At, TakeLenPrefixed, Seg, Bits64, FromBits64;
    var n, e := LE(Bits64(f.nextExpiry), 8), LE(Bits64(f.expire), 8);
    var w := Body(f) + rest;
    assert w == [f.objType] + n + e + (Seg(f.bytes) + rest);
    TicksRoundTrip(f.nextExpiry, 0);
    TicksRoundTrip(f.expire, 0);
    U64AtRoundTrip(Bits64(f.nextExpiry), 1, w);
    U64AtRoundTrip(Bits64(f.expire), 9, w);
    assert w[1..9] == n && w[9..17] == e;
    assert w[17..] == Seg(f.bytes) + rest;
    SegRoundTrip(f.bytes, rest);
  }

  lemma StreamCanonical(w: Buf)
    requires ParseTreeStream(w).Ok?
    ensures var (f, rest) := ParseTreeStream(w).value; f.TreeStream? && Encodable(f) && w == Body(f) + rest
  {
    hide LE, FromLE, U64At;
    var (f, rest) := ParseTreeStream(w).value;
    U64AtRoundTrip(Bits64(f.nextExpiry), 1, w);
    U64AtRoundTrip(Bits64(f.expire), 9, w);
    SegCanonical(w[17..]);
    assert w == [w[0]] + w[1..9] + w[9..17] + w[17..];
  }

  lemma DomainRoundTrip(f: Frame, rest: Buf)
    requires f.DomainContext?
    ensures ParseDomain(Body(f) + rest) == Ok((f, rest))
  {
    hide LE, FromLE, U64At;
    var w := Body(f) + rest;
    U64AtRoundTrip(f.vns, 0, w);
    U64AtRoundTrip(f.vdb, 8, w);
    U64AtRoundTrip(f.ns, 16, w);
    U64AtRoundTrip(f.db, 24, w);
    assert w[0..8] == LE(f.vns, 8) && w[8..16] == LE(f.vdb, 8);
    assert w[16..24] == LE(f.ns, 8) && w[24..32] == LE(f.db, 8) && w[32..] == rest;
  }

  lemma DomainCanonical(w: Buf)
    requires ParseDomain(w).Ok?
    ensures var (f, rest) := ParseDomain(w).value; f.DomainContext? && w == Body(f) + rest
  {
    hide LE, FromLE, U64At;
    var (f, rest) := ParseDomain(w).value;
    U64AtRoundTrip(f.vns, 0, w);
    U64AtRoundTrip(f.vdb, 8, w);
    U64AtRoundTrip(f.ns, 16, w);
    U64AtRoundTrip(f.db, 24, w);
    assert w == w[0..8] + w[8..16] + w[16..24] + w[24..32] + w[32..];
  }

  lemma TwoSegsRoundTrip(k: Buf, v: Buf, rest: Buf)
    requires Short(k) && Short(v)
    ensures ParseTwoSegs(Seg(k) + Seg(v) + rest) == Ok((k, v, rest))
  {
    hide TakeLenPrefixed, Seg;
    assert Seg(k) + Seg(v) + rest == Seg(k) + (Seg(v) + rest);
    SegRoundTrip(k, Seg(v) + rest);
    SegRoundTrip(v, rest);
  }

  lemma TwoSegsCanonical(w: Buf)
    requires ParseTwoSegs(w).Ok?
    ensures var (k, v, rest) := ParseTwoSegs(w).value; Short(k) && Short(v) && w == Seg(k) + Seg(v) + rest
  {
    hide TakeLenPrefixed, Seg;
    SegCanonical(w);
    SegCanonical(TakeLenPrefixed(w).value.1);
  }

  lemma ElementRoundTrip(f: Frame, rest: Buf)
    requires f.VectorElement? && Encodable(f)
    ensures ParseElement(Body(f) + rest) == Ok((f, rest))
  {
    hide TakeLenPrefixed, Seg;
    var r3 := Seg(f.attributes) + rest;
    var r2 := Seg(f.values) + r3;
    var r1 := Seg(f.element) + r2;
    assert Body(f) + rest == Seg(f.key) + r1;
    SegRoundTrip(f.key, r1);
    SegRoundTrip(f.element, r2);
    SegRoundTrip(f.values, r3);
    SegRoundTrip(f.attributes, rest);
  }

  lemma ElementCanonical(w: Buf)
    requires ParseElement(w).Ok?
    ensures var (f, rest) := ParseElement(w).value; f.VectorElement? && Encodable(f) && w == Body(f) + rest
  {
    hide TakeLenPrefixed, Seg;
    var r1 := TakeLenPrefixed(w).value.1;
    var r2 := TakeLenPrefixed(r1).value.1;
    var r3 := TakeLenPrefixed(r2).value.1;
    SegCanonical(w);
    SegCanonical(r1);
    SegCanonical(r2);
    SegCanonical(r3);
    var (f, rest) := ParseElement(w).value;
    assert w == Seg(f.key) + (Seg(f.element) + (Seg(f.values) + (Seg(f.attributes) + rest)));
  }

  /** Parsing a frame inverts encoding it, whatever follows. */
  lemma FrameRoundTrip(f: Frame, rest: Buf)
    requires Encodable(f)
    ensures ParseFrame(EncodeFrame(f) + rest) == Ok((f, rest))
  {
    hide ParseTypedRecord, ParseChunk, ParseTreeStream, ParseElement, ParseDomain, ParseTwoSegs, RecBody, Seg;
    var w := EncodeFrame(f) + rest;
    assert w[0] == Kind(f) && w[1..] == Body(f) + rest;
    match f
    case RecordFrame(r) => RecRoundTrip(r, rest);
    case Chunk(bytes, more) => ChunkRoundTrip(bytes, more, rest);
    case TreeStream(_, _, _, _) => StreamRoundTrip(f, rest);
    case VectorIndex(k, v) => TwoSegsRoundTrip(k, v, rest);
    case VectorElement(_, _, _, _) => ElementRoundTrip(f, rest);
    case DomainContext(_, _, _, _) => DomainRoundTrip(f, rest);
    case DbMeta(k, v) => TwoSegsRoundTrip(k, v, rest);
  }

  /** Every accepted frame is the encoding of what it parses to: no two byte strings mean the same frame. */
  lemma FrameCanonical(w: Buf)
    requires ParseFrame(w).Ok?
    ensures var (f, rest) := ParseFrame(w).value; Encodable(f) && w == EncodeFrame(f) + rest
  {
    hide ParseTypedRecord, ParseChunk, ParseTreeStream, ParseElement, ParseDomain, ParseTwoSegs, RecBody, Seg;
    var kind, s := w[0], w[1..];
    assert w == [kind] + s;
    if kind == 1 || kind == 2 { RecCanonical(kind, s); }
    else if kind == 3 { ChunkCanonical(s); }
    else if kind == 4 { StreamCanonical(s); }
    else if kind == 6 { ElementCanonical(s); }
    else if kind == 7 { DomainCanonical(s); }
    else { TwoSegsCanonical(s); }
    var (f, rest) := ParseFrame(w).value;
    assert s == Body(f) + rest;
    assert [kind] + (Body(f) + rest) == ([kind] + Body(f)) + rest;
  }

  // ------------------------------------------------------------------ payloads, both directions

  ghost predicate AllEncodable(fs: seq<Frame>) { forall f :: f in fs ==> Encodable(f) }

  lemma {:induction false} FramesRoundTrip(fs: seq<Frame>, rest: Buf)
    requires AllEncodable(fs)
    ensures ParseFrames(EncodeFrames(fs) + rest, |fs|) == Ok((fs, rest))
    ensures |EncodeFrames(fs)| >= |fs|
  {
    hide ParseFrame, EncodeFrame;
    if fs == [] {
      assert EncodeFrames(fs) + rest == rest;
    } else {
      var tail := EncodeFrames(fs[1..]) + rest;
      FramesRoundTrip(fs[1..], rest);
      FrameRoundTrip(fs[0], tail);
      FrameIsNonEmpty(fs[0]);
      assert EncodeFrames(fs) + rest == EncodeFrame(fs[0]) + tail;
      assert fs == [fs[0]] + fs[1..];
    }
  }

  lemma FrameIsNonEmpty(f: Frame)
    ensures |EncodeFrame(f)| >= 1
  {
  }

  lemma {:induction false} FramesCanonical(s: Buf, n: nat)
    requires ParseFrames(s, n).Ok?
    ensures var (fs, rest) := ParseFrames(s, n).value;
            |fs| == n && AllEncodable(fs) && s == EncodeFrames(fs) + rest
    decreases n
  {
    hide ParseFrame, EncodeFrame, Encodable;
    if n > 0 {
      FrameCanonical(s);
      var (f, r1) := ParseFrame(s).value;
      FramesCanonical(r1, n - 1);
      var (fs, rest) := ParseFrames(s, n).value;
      assert fs[1..] == ParseFrames(r1, n - 1).value.0;
      assert s == EncodeFrame(f) + (EncodeFrames(fs[1..]) + rest);
    }
  }

  /** A narrowing cast keeps the value modulo its width. */
  lemma {:induction false} Narrowed(v: nat, n: nat)
    ensures FromLE(LE(v, n)) == v % Pow256(n)
  {
    if n > 0 {
      var p, high := Pow256(n - 1), v / 256;
      Narrowed(high, n - 1);
      assert LE(v, n)[1..] == LE(high, n - 1);
      Recompose(v, p);
    }
  }

  lemma Recompose(v: nat, p: nat)
    requires p > 0
    ensures v % (256 * p) == v % 256 + 256 * (v / 256 % p)
  {
    var q, r := v / 256 / p, v / 256 % p;
    assert v / 256 == q * p + r;
    assert v == q * (256 * p) + (v % 256 + 256 * r);
    Align.DivModUnique(v, 256 * p, q, v % 256 + 256 * r);
  }

  lemma {:induction false} FramesAppend(a: seq<Frame>, b: seq<Frame>)
    ensures EncodeFrames(a + b) == EncodeFrames(a) + EncodeFrames(b)
  {
    hide EncodeFrame;
    if a == [] {
      assert a + b == b;
    } else {
      FramesAppend(a[1..], b);
      assert (a + b)[1..] == a[1..] + b;
    }
  }

  /** Parsing inverts encoding for any list of encodable frames, even with bytes left over; of a list too
      long for its 32-bit count the receiver reads the frames that the narrowed count announces. */
  lemma PayloadRoundTrip(fs: seq<Frame>, rest: Buf)
    requires AllEncodable(fs)
    ensures var n := |fs| % U32_LIMIT; ParsePayload(PayloadOf(fs) + rest) == Ok((n, fs[..n]))
    ensures |fs| < U32_LIMIT ==> ParsePayload(PayloadOf(fs) + rest) == Ok((|fs|, fs))
  {
    hide LE, FromLE, ParseFrames, EncodeFrames;
    Widths();
    var n := |fs| % U32_LIMIT;
    Narrowed(|fs|, 4);
    assert fs == fs[..n] + fs[n..] && (n == 0 ==> fs[..n] == []) && (n == |fs| ==> fs[..n] == fs);
    FramesAppend(fs[..n], fs[n..]);
    FramesRoundTrip(fs[..n], EncodeFrames(fs[n..]) + rest);
    var w := PayloadOf(fs) + rest;
    assert w[..4] == LE(|fs|, 4) && w[4..] == EncodeFrames(fs[..n]) + (EncodeFrames(fs[n..]) + rest);
  }

  /** Whatever payload is accepted starts with the encoding of exactly the frames it yields. */
  lemma PayloadCanonical(w: Buf)
    requires ParsePayload(w).Ok?
    ensures var (n, fs) := ParsePayload(w).value; n == |fs| && AllEncodable(fs) && PayloadOf(fs) <= w
  {
    hide LE, FromLE, ParseFrames;
    var (n, fs) := ParsePayload(w).value;
    FromLERoundTrip(w[..4]);
    assert w == LE(n, 4) + w[4..];
    if n > 0 {
      FramesCanonical(w[4..], n);
    }
  }

  /** Puts one frame in front of a payload and raises its count, which wraps at 32 bits. */
  function Prepend(frame: Buf, payload: Buf): Buf {
    var count := if |payload| < 4 then 1 else (FromLE(payload[..4]) + 1) % U32_LIMIT;
    LE(count, 4) + frame + payload[if |payload| < 4 then |payload| else 4..]
  }

  /** The prepended frame comes first and the old frames follow, unless the count was already full: then
      the receiver sees none of them. A payload too short to carry a count becomes the frame alone. */
  lemma PrependParses(f: Frame, payload: Buf)
    requires Encodable(f)
    ensures |payload| < 4 ==> ParsePayload(Prepend(EncodeFrame(f), payload)) == Ok((1, [f]))
    ensures ParsePayload(payload).Ok? ==>
              var (n, fs) := ParsePayload(payload).value;
              ParsePayload(Prepend(EncodeFrame(f), payload))
                == if n + 1 < U32_LIMIT then Ok((n + 1, [f] + fs)) else Ok((0, []))
  {
    hide LE, FromLE, EncodeFrame, EncodeFrames, ParseFrames;
    Widths();
    var tail := payload[if |payload| < 4 then |payload| else 4..];
    var w := Prepend(EncodeFrame(f), payload);
    var count := if |payload| < 4 then 1 else (FromLE(payload[..4]) + 1) % U32_LIMIT;
    LERoundTrip(count, 4);
    assert w[..4] == LE(count, 4) && w[4..] == EncodeFrame(f) + tail;
    if ParsePayload(payload).Ok? {
      var (n, fs) := ParsePayload(payload).value;
      PrependFrames(f, tail, n, fs);
    } else {
      PrependFrames(f, tail, 0, []);
      assert [f] + [] == [f];
    }
  }

  lemma PrependFrames(f: Frame, tail: Buf, n: nat, fs: seq<Frame>)
    requires Encodable(f)
    requires if n == 0 then fs == [] else n <= |tail| && ParseFrames(tail, n).Ok? && ParseFrames(tail, n).value.0 == fs
    ensures n + 1 <= |EncodeFrame(f) + tail|
    ensures var r := ParseFrames(EncodeFrame(f) + tail, n + 1); r.Ok? && r.value.0 == [f] + fs
  {
    hide EncodeFrame, ParseFrame;
    FrameRoundTrip(f, tail);
    FrameIsNonEmpty(f);
  }

  // ------------------------------------------------------------------ encoders

  datatype BatchItem = BatchItem(rec: Rec) {
    function FrameLen(): nat { 17 + |rec.key| + |rec.val| }
  }

  function ItemFrames(items: seq<BatchItem>): seq<Frame> {
    if items == [] then [] else [RecordFrame(items[0].rec)] + ItemFrames(items[1..])
  }

  method WriteRecordFrame(buf: Buf, item: BatchItem) returns (r: Buf)
    ensures r == buf + EncodeFrame(RecordFrame(item.rec))
    ensures |r| == |buf| + item.FrameLen()
    ensures r[|buf|] == if item.rec.Str? then 1 else 2
  {
    hide LE;
    r := buf + [RecKind(item.rec)];
    r := r + LE(|item.rec.key|, 4) + item.rec.key;
    r := r + LE(|item.rec.val|, 4) + item.rec.val;
    r := r + LE(Bits64(item.rec.expire), 8);
  }

  method EncodeMigrationPayload(items: seq<BatchItem>) returns (buf: Buf)
    ensures buf == PayloadOf(ItemFrames(items))
  {
    hide LE, EncodeFrame;
    ItemFramesLen(items);
    buf := LE(|items|, 4);
    var i := 0;
    while i < |items|
      invariant 0 <= i <= |items|
      invariant buf + EncodeFrames(ItemFrames(items[i..])) == PayloadOf(ItemFrames(items))
    {
      ghost var before := buf;
      buf := WriteRecordFrame(buf, items[i]);
      NextItem(items, i);
      ghost var tail := EncodeFrames(ItemFrames(items[i + 1..]));
      assert before + (EncodeFrame(RecordFrame(items[i].rec)) + tail) == buf + tail;
      i := i + 1;
    }
    assert buf + [] == buf;
  }

  lemma NextItem(items: seq<BatchItem>, i: nat)
    requires i < |items|
    ensures EncodeFrames(ItemFrames(items[i..]))
         == EncodeFrame(RecordFrame(items[i].rec)) + EncodeFrames(ItemFrames(items[i + 1..]))
  {
  }

  lemma ItemFramesLen(items: seq<BatchItem>)
    ensures |ItemFrames(items)| == |items|
  {
  }

  // ------------------------------------------------------------------ the chunker

  /** One chunk payload: a count of one, the kind byte, the head and the cut bytes. */
  function ChunkPayload(bytes: Buf, more: bool): Buf {
    LE(1, 4) + [3] + LE(ChunkHead(|bytes|, more), 4) + bytes
  }

  function ChunkPayloads(bytes: Buf, maxChunk: nat): seq<Buf>
    requires maxChunk > 0
  {
    if bytes == [] then []
    else
      var n := Min(|bytes|, maxChunk);
      [ChunkPayload(bytes[..n], n < |bytes|)] + ChunkPayloads(bytes[n..], maxChunk)
  }

  function Concat(pieces: seq<Buf>): Buf {
    if pieces == [] then [] else pieces[0] + Concat(pieces[1..])
  }

  /** The six pieces whose concatenation is the frame. */
  function Pieces(r: Rec): seq<Buf> {
    [[RecKind(r)], LE(|r.key|, 4), r.key, LE(|r.val|, 4), r.val, LE(Bits64(r.expire), 8)]
  }

  /** What the cursor (index, offset) has not yet consumed. */
  function Unread(pieces: seq<Buf>, idx: nat, off: nat): Buf
    requires idx <= |pieces| && (idx < |pieces| ==> off <= |pieces[idx]|)
  {
    if idx == |pieces| then [] else pieces[idx][off..] + Concat(pieces[idx + 1..])
  }

  lemma PiecesConcat(r: Rec)
    ensures Unread(Pieces(r), 0, 0) == EncodeFrame(RecordFrame(r))
    ensures |EncodeFrame(RecordFrame(r))| == BatchItem(r).FrameLen()
  {
    hide LE;
    var p: seq<Buf> := Pieces(r);
    assert p[0][0..] == p[0];
    var last := p[5..];
    assert Concat(last) == p[5] by { assert |last| == 1; }
    assert Concat(p[4..]) == p[4] + p[5] by { assert p[4..][1..] == p[5..]; }
    assert Concat(p[3..]) == p[3] + (p[4] + p[5]) by { assert p[3..][1..] == p[4..]; }
    assert Concat(p[2..]) == p[2] + (p[3] + (p[4] + p[5])) by { assert p[2..][1..] == p[3..]; }
    assert Concat(p[1..]) == p[1] + (p[2] + (p[3] + (p[4] + p[5]))) by { assert p[1..][1..] == p[2..]; }
  }

  /** One turn of the copy loop: `take` bytes move from the current piece to the chunk. */
  lemma CursorStep(pieces: seq<Buf>, idx: nat, off: nat, take: nat)
    requires idx < |pieces| && off + take <= |pieces[idx]|
    ensures var (idx', off') := if off + take == |pieces[idx]| then (idx + 1, 0) else (idx, off + take);
            Unread(pieces, idx, off) == pieces[idx][off..off + take] + Unread(pieces, idx', off')
  {
    hide Concat;
    var piece := pieces[idx];
    var moved, rest := piece[off..off + take], Concat(pieces[idx + 1..]);
    assert piece[off..] == moved + piece[off + take..];
    if off + take == |piece| {
      UnreadStart(pieces, idx + 1);
      assert piece[off..] + rest == moved + rest;
    } else {
      assert piece[off..] + rest == moved + (piece[off + take..] + rest);
    }
  }

  lemma UnreadStart(pieces: seq<Buf>, idx: nat)
    requires idx <= |pieces|
    ensures Unread(pieces, idx, 0) == Concat(pieces[idx..])
  {
  }

  /** Copies the next `len` bytes of the pieces, advancing the cursor. */
  method FillChunk(pieces: seq<Buf>, idx0: nat, off0: nat, len: nat) returns (bytes: Buf, idx: nat, off: nat)
    requires idx0 <= |pieces| && (idx0 < |pieces| ==> off0 <= |pieces[idx0]|)
    requires len <= |Unread(pieces, idx0, off0)|
    ensures idx <= |pieces| && (idx < |pieces| ==> off <= |pieces[idx]|)
    ensures |bytes| == len && Unread(pieces, idx0, off0) == bytes + Unread(pieces, idx, off)
  {
    hide Unread;
    bytes, idx, off := [], idx0, off0;
    var remaining := len;
    while remaining > 0 && idx < |pieces|
      invariant idx <= |pieces| && (idx < |pieces| ==> off <= |pieces[idx]|)
      invariant |bytes| + remaining == len
      invariant Unread(pieces, idx0, off0) == bytes + Unread(pieces, idx, off)
      decreases remaining, |pieces| - idx
    {
      var piece := pieces[idx];
      var take := Min(|piece| - off, remaining);
      ghost var before, unread := bytes, Unread(pieces, idx, off);
      CursorStep(pieces, idx, off, take);
      var moved := piece[off..off + take];
      bytes := bytes + moved;
      off := off + take;
      remaining := remaining - take;
      if off == |piece| {
        idx := idx + 1;
        off := 0;
      }
      assert before + unread == before + (moved + Unread(pieces, idx, off));
    }
    UnreadEnd(pieces, idx, off);
  }

  lemma UnreadEnd(pieces: seq<Buf>, idx: nat, off: nat)
    requires idx <= |pieces| && (idx < |pieces| ==> off <= |pieces[idx]|)
    ensures idx == |pieces| ==> Unread(pieces, idx, off) == []
  {
  }

  /** The sender fails at its `failAt`-th call, if it fails at all. */
  method SendChunkedRecord(item: BatchItem, maxChunk: nat, failAt: Option<nat>) returns (sent: seq<Buf>, ok: bool)
    ensures maxChunk == 0 ==> sent == [] && ok
    ensures maxChunk > 0 ==>
              var all := ChunkPayloads(EncodeFrame(RecordFrame(item.rec)), maxChunk);
              && ok == (failAt.None? || |all| <= failAt.value)
              && sent == if ok then all else all[..failAt.value]
  {
    hide Unread, EncodeFrame, ChunkPayload, ChunkPayloads, Pieces;
    sent, ok := [], true;
    if maxChunk == 0 {
      return;
    }
    ghost var frame := EncodeFrame(RecordFrame(item.rec));
    var total := item.FrameLen();
    var pieces := Pieces(item.rec);
    PiecesConcat(item.rec);
    PiecesCount(item.rec);
    var idx: nat, off: nat, sentTotal: nat := 0, 0, 0;
    while sentTotal < total
      invariant sentTotal <= total == |frame|
      invariant idx <= |pieces| && (idx < |pieces| ==> off <= |pieces[idx]|)
      invariant Unread(pieces, idx, off) == frame[sentTotal..]
      invariant sent + ChunkPayloads(frame[sentTotal..], maxChunk) == ChunkPayloads(frame, maxChunk)
      invariant failAt.Some? ==> |sent| <= failAt.value
    {
      var len := Min(total - sentTotal, maxChunk);
      var more := sentTotal + len < total;
      var bytes: Buf;
      bytes, idx, off := FillChunk(pieces, idx, off, len);
      ghost var rest := frame[sentTotal..];
      assert bytes == rest[..len] && rest[len..] == frame[sentTotal + len..];
      var payload := ChunkPayload(bytes, more);
      ghost var tail := ChunkPayloads(rest[len..], maxChunk);
      NextChunk(rest, maxChunk);
      assert sent + ([payload] + tail) == (sent + [payload]) + tail;
      if failAt.Some? && failAt.value == |sent| {
        ok := false;
        return;
      }
      sent := sent + [payload];
      sentTotal := sentTotal + len;
    }
    NoMoreChunks(frame[sentTotal..], maxChunk);
    assert sent + [] == sent;
  }

  lemma NextChunk(bytes: Buf, maxChunk: nat)
    requires maxChunk > 0 && bytes != []
    ensures var n := Min(|bytes|, maxChunk);
            ChunkPayloads(bytes, maxChunk) == [ChunkPayload(bytes[..n], n < |bytes|)] + ChunkPayloads(bytes[n..], maxChunk)
  {
  }

  lemma NoMoreChunks(bytes: Buf, maxChunk: nat)
    requires maxChunk > 0 && bytes == []
    ensures ChunkPayloads(bytes, maxChunk) == []
  {
  }

  lemma PiecesCount(r: Rec)
    ensures |Pieces(r)| == 6
  {
  }

  // ------------------------------------------------------------------ reassembly

  /** The payloads, parsed on the receiving side and their chunk bytes joined in order. */
  function Reassemble(payloads: seq<Buf>): Option<Buf> {
    if payloads == [] then Some([])
    else
      match ParsePayload(payloads[0])
      case Ok((n, fs)) =>
        if |fs| == 1 && fs[0].Chunk? && fs[0].more == (|payloads| > 1) then
          match Reassemble(payloads[1..])
          case Some(rest) => Some(fs[0].bytes + rest)
          case None => None
        else None
      case Err(_) => None
  }

  lemma ChunkPayloadParses(bytes: Buf, more: bool)
    requires |bytes| < CONTINUATION_FLAG
    ensures ParsePayload(ChunkPayload(bytes, more)) == Ok((1, [Chunk(bytes, more)]))
  {
    hide LE, ParsePayload, ChunkHead;
    var fs := [Chunk(bytes, more)];
    assert EncodeFrames(fs) == EncodeFrame(fs[0]) + EncodeFrames(fs[1..]) && fs[1..] == [];
    PayloadRoundTrip(fs, []);
    assert PayloadOf(fs) + [] == ChunkPayload(bytes, more);
  }

  /** Every cut within the flag's range reassembles to exactly the bytes that were cut. */
  lemma {:induction false} ChunksReassemble(bytes: Buf, maxChunk: nat)
    requires 0 < maxChunk && Min(|bytes|, maxChunk) < CONTINUATION_FLAG
    ensures Reassemble(ChunkPayloads(bytes, maxChunk)) == Some(bytes)
    ensures bytes != [] ==> ChunkPayloads(bytes, maxChunk) != []
    decreases |bytes|
  {
    hide ParsePayload, ChunkPayload;
    if bytes != [] {
      var n := Min(|bytes|, maxChunk);
      ChunkPayloadParses(bytes[..n], n < |bytes|);
      ChunksReassemble(bytes[n..], maxChunk);
      assert bytes == bytes[..n] + bytes[n..];
      assert ChunkPayloads(bytes, maxChunk)[1..] == ChunkPayloads(bytes[n..], maxChunk);
    }
  }

  /** End to end: what the chunker sends is reassembled and parsed back to the record it was given. */
  lemma ChunkedRecordRoundTrip(r: Rec, maxChunk: nat)
    requires Short(r.key) && Short(r.val)
    requires 0 < maxChunk && Min(BatchItem(r).FrameLen(), maxChunk) < CONTINUATION_FLAG
    ensures var whole := Reassemble(ChunkPayloads(EncodeFrame(RecordFrame(r)), maxChunk));
            whole.Some? && ParseRecord(whole.value) == Ok(r)
  {
    hide Reassemble, ChunkPayloads, ParseTypedRecord, RecBody;
    var frame := EncodeFrame(RecordFrame(r));
    PiecesConcat(r);
    ChunksReassemble(frame, maxChunk);
    RecRoundTrip(r, []);
    assert frame[0] == RecKind(r) && frame[1..] == RecBody(r) + [];
  }

  /** What the receiver reads from a chunk payload of any length: the head keeps 31 bits of it. */
  lemma ChunkPayloadReads(cut: Buf, more: bool)
    ensures var r := ParsePayload(ChunkPayload(cut, more));
            r.Ok? && |r.value.1| == 1 && r.value.1[0].Chunk? && r.value.1[0].bytes == cut[..|cut| % CONTINUATION_FLAG]
  {
    hide LE, FromLE, ChunkHead;
    Widths();
    var w := ChunkPayload(cut, more);
    var head := ChunkHead(|cut|, more);
    LERoundTrip(1, 4);
    LERoundTrip(head, 4);
    HeadKeepsLowBits(|cut|, more);
    assert w[..4] == LE(1, 4);
    var s := w[4..];
    assert s[0] == 3 && s[1..][..4] == LE(head, 4) && s[1..][4..] == cut;
  }

  lemma {:induction false} ReassembledLength(bytes: Buf, maxChunk: nat)
    requires maxChunk > 0
    ensures var r := Reassemble(ChunkPayloads(bytes, maxChunk));
            r.Some? ==> |r.value| <= |bytes| && (Min(|bytes|, maxChunk) >= CONTINUATION_FLAG ==> |r.value| < |bytes|)
    decreases |bytes|
  {
    hide ParsePayload, ChunkPayload;
    if bytes != [] {
      var n := Min(|bytes|, maxChunk);
      ChunkPayloadReads(bytes[..n], n < |bytes|);
      ReassembledLength(bytes[n..], maxChunk);
      assert ChunkPayloads(bytes, maxChunk)[1..] == ChunkPayloads(bytes[n..], maxChunk);
    }
  }

  /** Cutting is lossless exactly when every chunk length leaves the flag bit free. */
  lemma ChunkingIsLosslessIff(bytes: Buf, maxChunk: nat)
    requires maxChunk > 0
    ensures Reassemble(ChunkPayloads(bytes, maxChunk)) == Some(bytes) <==> Min(|bytes|, maxChunk) < CONTINUATION_FLAG
  {
    hide Reassemble, ChunkPayloads;
    if Min(|bytes|, maxChunk) < CONTINUATION_FLAG {
      ChunksReassemble(bytes, maxChunk);
    }
    ReassembledLength(bytes, maxChunk);
  }

  lemma HeadKeepsLowBits(len: nat, more: bool)
    ensures ChunkHead(len, more) % CONTINUATION_FLAG == len % CONTINUATION_FLAG
  {
  }
}
