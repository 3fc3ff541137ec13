/** The segmented device: one address space cut into per-segment files, and reads of any range over it. */
module Segments {
  import opened Bytes
  import opened Wrappers
  import opened Align

  const SEGMENT_IDS: nat := 0x1_0000_0000
  const MIN_SECTOR: nat := 512

  datatype Chunk = Chunk(seg: nat, off: nat, pos: nat, len: nat)

  datatype IoError =
    | SegmentExceeded(seg: nat)
    | UnalignedOffset | UnalignedLen | OutOfBounds
    | SegmentNotFound(seg: nat)
    | InvalidSectorSize | RangeOverflow
    | UnexpectedEof(expected: nat, actual: nat)
    | ReadOnly | NoBuffer | WriteZero | IoFailed

  // ------------------------------------------------------------------ the chunk iterator

  class SegmentChunks {
    var currOffset: nat
    var bufPos: nat
    const totalLen: nat
    const segmentSize: nat
    const shift: nat
    const mask: nat

    ghost predicate Valid()
      reads this
    {
      && IsPow2(segmentSize) && segmentSize > 0
      && shift == TrailingZeros(segmentSize) && mask == segmentSize - 1
      && bufPos <= totalLen && currOffset <= U64_MAX
    }

    constructor (offset: U64, totalLen: nat, segmentSize: nat)
      requires IsPow2(segmentSize)
      ensures Valid() && currOffset == offset && bufPos == 0
      ensures this.totalLen == totalLen && this.segmentSize == segmentSize
    {
      currOffset, bufPos := offset, 0;
      this.totalLen, this.segmentSize := totalLen, segmentSize;
      shift, mask := TrailingZeros(segmentSize), segmentSize - 1;
    }

    /** The next piece: non-empty, inside one segment, starting where the last one ended (the address
        saturates only for ranges that leave the address space). */
    method Next() returns (item: Option<Result<Chunk, IoError>>)
      requires Valid()
      modifies this
      ensures Valid()
      ensures item.None? <==> old(bufPos) == totalLen
      ensures item.None? ==> bufPos == old(bufPos) && currOffset == old(currOffset)
      ensures item.Some? && item.value.Err? ==>
                && old(currOffset) / segmentSize >= SEGMENT_IDS
                && bufPos == totalLen && currOffset == old(currOffset)
                && item.value.error == SegmentExceeded(old(currOffset) / segmentSize)
      ensures item.Some? && item.value.Ok? ==>
                var c := item.value.value;
                && c.seg == old(currOffset) / segmentSize < SEGMENT_IDS
                && c.off == old(currOffset) % segmentSize
                && c.pos == old(bufPos)
                && c.len == Min(segmentSize - c.off, totalLen - c.pos) && c.len > 0
                && bufPos == c.pos + c.len
                && currOffset == Min(old(currOffset) + c.len, U64_MAX)
    {
      if bufPos >= totalLen {
        return None;
      }
      ShiftDivides(currOffset, segmentSize);
      MaskLow(currOffset, segmentSize);
      var seg := Shr(currOffset, shift);
      if seg >= SEGMENT_IDS {
        bufPos := totalLen;
        return Some(Err(SegmentExceeded(seg)));
      }
      var off := And(currOffset, mask);
      var len := Min(segmentSize - off, totalLen - bufPos);
      var chunk := Chunk(seg, off, bufPos, len);
      bufPos := bufPos + len;
      currOffset := Min(currOffset + len, U64_MAX);
      return Some(Ok(chunk));
    }
  }

  // ------------------------------------------------------------------ the host

  /** What becomes of one call to the host: all of it, part of it, or an error. */
  datatype Outcome = Through | Partial(count: nat) | Refused

  /** The outcomes of the calls to come; calls past the end go through. */
  type Host = seq<Outcome>

  function Next(host: Host): Outcome { if host == [] then Through else host[0] }

  function Rest(host: Host): Host { if host == [] then [] else host[1..] }

  /** A host that makes no trouble. */
  predicate Quiet(host: Host) { forall i :: 0 <= i < |host| ==> host[i] == Through }

  lemma QuietRest(host: Host)
    ensures Quiet(host) ==> Next(host) == Through && Quiet(Rest(host))
  {
  }

  /** How many of n bytes a call transfers. */
  function Transferred(o: Outcome, n: nat): (k: nat)
    ensures k <= n && (o == Through ==> k == n) && (o == Refused ==> k == 0)
    ensures o.Partial? ==> if o.count <= n then k == o.count else k == n
  {
    match o
    case Through => n
    case Partial(k) => Min(k, n)
    case Refused => 0
  }

  // ------------------------------------------------------------------ files and the flat view

  /** Segment number to file contents. */
  type Files = map<nat, seq<Byte>>

  /** Segment numbers are 32-bit and no file outgrows its segment. */
  ghost predicate FilesOk(files: Files, size: nat) {
    forall k :: k in files ==> k < SEGMENT_IDS && |files[k]| <= size
  }

  /** A positioned write into a file; a gap behind the old end reads as zeros. */
  function WriteAt(f: seq<Byte>, off: nat, data: seq<Byte>): (r: seq<Byte>)
    ensures |r| == if off + |data| < |f| then |f| else off + |data|
    ensures forall i :: 0 <= i < |r| ==>
              r[i] == if off <= i < off + |data| then data[i - off] else if i < |f| then f[i] else 0
  {
    (if off <= |f| then f[..off] else f + Zeros(off - |f|)) + data + (if off + |data| < |f| then f[off + |data|..] else [])
  }

  /** The byte the flat address space holds at an address. */
  function At(files: Files, size: nat, a: nat): Option<Byte>
    requires size > 0
  {
    if a / size in files && a % size < |files[a / size]| then Some(files[a / size][a % size]) else None
  }

  /** `after` is `before` with `data` written at `offset`: a new byte outside the data can only be gap filler. */
  ghost predicate WrittenFlat(before: Files, after: Files, size: nat, offset: nat, data: seq<Byte>)
    requires size > 0
  {
    forall a: nat :: WrittenAt(At(before, size, a), At(after, size, a), offset, data, a)
  }

  predicate WrittenAt(before: Option<Byte>, after: Option<Byte>, offset: nat, data: seq<Byte>, a: nat) {
    if offset <= a < offset + |data| then after == Some(data[a - offset])
    else after == before || (before.None? && after == Some(0))
  }

  lemma SegmentOf(a: nat, size: nat, base: nat)
    requires size > 0
    requires base % size + (a - base) < size && base <= a
    ensures a / size == base / size && a % size == base % size + (a - base)
  {
    DivModUnique(a, size, base / size, base % size + (a - base));
  }

  /** Addresses of one segment are an interval. */
  lemma SameSegment(a: nat, size: nat, base: nat)
    requires size > 0 && a / size == base / size
    ensures a - base == a % size - base % size
  {
  }

  function FileOf(files: Files, seg: nat): seq<Byte> { if seg in files then files[seg] else [] }

  /** Writing one piece inside its segment is a flat write of that piece. */
  lemma PieceIsFlat(files: Files, size: nat, addr: nat, data: seq<Byte>)
    requires size > 0 && addr % size + |data| <= size
    ensures var seg := addr / size;
            WrittenFlat(files, files[seg := WriteAt(FileOf(files, seg), addr % size, data)], size, addr, data)
  {
    hide WriteAt, At, WrittenAt;
    var seg := addr / size;
    var after := files[seg := WriteAt(FileOf(files, seg), addr % size, data)];
    forall a: nat ensures WrittenAt(At(files, size, a), At(after, size, a), addr, data, a) {
      PieceAt(files, size, addr, data, a);
    }
  }

  lemma PieceAt(files: Files, size: nat, addr: nat, data: seq<Byte>, a: nat)
    requires size > 0 && addr % size + |data| <= size
    ensures var seg := addr / size;
            var after := files[seg := WriteAt(FileOf(files, seg), addr % size, data)];
            WrittenAt(At(files, size, a), At(after, size, a), addr, data, a)
  {
    hide WriteAt;
    if addr <= a < addr + |data| {
      SegmentOf(a, size, addr);
    } else if a / size == addr / size {
      SameSegment(a, size, addr);
    }
  }

  lemma PieceKeepsFiles(files: Files, size: nat, seg: nat, off: nat, data: seq<Byte>)
    requires FilesOk(files, size) && seg < SEGMENT_IDS && off + |data| <= size
    ensures FilesOk(files[seg := WriteAt(FileOf(files, seg), off, data)], size)
  {
  }

  /** Flat writes of adjacent pieces join. */
  lemma FlatJoins(f0: Files, f1: Files, f2: Files, size: nat, offset: nat, d1: seq<Byte>, d2: seq<Byte>)
    requires size > 0
    requires WrittenFlat(f0, f1, size, offset, d1) && WrittenFlat(f1, f2, size, offset + |d1|, d2)
    ensures WrittenFlat(f0, f2, size, offset, d1 + d2)
  {
  }

  /** How many of `len` bytes from `offset` on lie in numbered segments. */
  function Addressable(offset: nat, len: nat, size: nat): (n: nat)
    ensures n <= len
  {
    if offset >= SEGMENT_IDS * size then 0 else Min(len, SEGMENT_IDS * size - offset)
  }

  lemma BelowLimit(a: nat, size: nat)
    requires size > 0
    ensures a / size < SEGMENT_IDS <==> a < SEGMENT_IDS * size
  {
  }

  /** The files that the fence leaves accessible. */
  function Live(files: Files, start: nat): Files { map k | k in files && k >= start :: files[k] }

  class SegmentedDevice {
    const sector: nat
    const size: nat
    const direct: bool
    const readOnly: bool
    var files: Files
    /** Segments below are fenced off; those below `purgedSegment` are gone from the disk as well. */
    var startSegment: nat
    var purgedSegment: nat

    ghost predicate Valid()
      reads this
    {
      && IsPow2(sector) && MIN_SECTOR <= sector && IsPow2(size) && sector <= size <= U64_MAX
      && FilesOk(files, size)
      && purgedSegment <= startSegment < SEGMENT_IDS
      && forall k :: k in files ==> purgedSegment <= k
    }

    /** What reads can find. */
    ghost function View(): Files
      reads this
    {
      Live(files, startSegment)
    }

    constructor (sector: nat, size: nat, direct: bool, readOnly: bool)
      requires IsPow2(sector) && MIN_SECTOR <= sector && IsPow2(size) && sector <= size <= U64_MAX
      ensures Valid() && files == map[] && startSegment == 0
      ensures this.sector == sector && this.size == size && this.direct == direct && this.readOnly == readOnly
    {
      this.sector, this.size, this.direct, this.readOnly := sector, size, direct, readOnly;
      files, startSegment, purgedSegment := map[], 0, 0;
    }

    // ---------------------------------------------------------------- writes

    /** How a write of a non-empty buffer ends: a prefix has been written, flat, and nothing else changed; only a
        full write reports success; and short of trouble with the host it falls short exactly where the
        segment numbers end, or at once below the fence. */
    ghost predicate Wrote(before: Files, offset: nat, buf: seq<Byte>, host: Host, r: Result<nat, IoError>, written: nat)
      requires size > 0
      reads this
    {
      && written <= |buf| && WrittenFlat(before, files, size, offset, buf[..written])
      && match r
         case Ok(n) => n == written == |buf| && Addressable(offset, |buf|, size) == |buf| && startSegment <= offset / size
         case Err(e) =>
           && written < |buf|
           && match e
              case SegmentExceeded(_) => written == Addressable(offset, |buf|, size)
              case SegmentNotFound(_) => written == 0 && offset / size < startSegment
              case _ => (e.IoFailed? || e.WriteZero?) && !Quiet(host)
    }

    /** Opens or creates one segment file and writes a piece of it, repeating short writes. */
    method WriteChunk(ghost addr: nat, seg: nat, off: nat, data: seq<Byte>, host: Host)
      returns (r: Result<nat, IoError>, ghost written: nat, left: Host)
      requires Valid() && data != [] && seg == addr / size < SEGMENT_IDS && off == addr % size && off + |data| <= size
      modifies `files
      ensures Valid() && Wrote(old(files), addr, data, host, r, written)
      ensures r.Err? ==> !r.error.SegmentExceeded?
      ensures Quiet(host) ==> Quiet(left)
    {
      hide IsPow2, At, WrittenFlat, WriteAt, FilesOk, Next, Rest, Quiet;
      FlatStart(files, size, addr);
      assert data[..0] == [];
      PieceEnd(addr, size, |data|);
      written, left := 0, host;
      if seg < startSegment {
        return Err(SegmentNotFound(seg)), written, left;
      }
      QuietRest(left);
      var access := Next(left);
      left := Rest(left);
      if access == Refused {
        return Err(IoFailed), written, left;
      }
      CreatedIsFlat(files, size, seg, addr);
      files := files[seg := FileOf(files, seg)];
      var done := 0;
      while done < |data|
        invariant 0 <= done <= |data| && written == done
        invariant Valid() && seg in files && (Quiet(host) ==> Quiet(left))
        invariant WrittenFlat(old(files), files, size, addr, data[..done])
      {
        QuietRest(left);
        var outcome := Next(left);
        left := Rest(left);
        if outcome == Refused {
          return Err(IoFailed), written, left;
        }
        var n := Transferred(outcome, |data| - done);
        if n == 0 {
          return Err(WriteZero), written, left;
        }
        var piece := data[done..done + n];
        SegmentOf(addr + done, size, addr);
        PieceIsFlat(files, size, addr + done, piece);
        PieceKeepsFiles(files, size, seg, off + done, piece);
        ghost var before := files;
        files := files[seg := WriteAt(FileOf(files, seg), off + done, piece)];
        FlatJoins(old(files), before, files, size, addr, data[..done], piece);
        assert data[..done] + piece == data[..done + n];
        done := done + n;
        written := done;
      }
      return Ok(done), written, left;
    }

    /** Pieces are written one after the other until the buffer or the segment numbers run out. */
    method WritePieces(offset: U64, buf: seq<Byte>, host: Host)
      returns (r: Result<nat, IoError>, ghost written: nat, left: Host)
      requires Valid() && buf != [] && offset + |buf| <= U64_MAX
      modifies `files
      ensures Valid() && Wrote(old(files), offset, buf, host, r, written)
      ensures Quiet(host) ==> Quiet(left)
    {
      hide IsPow2, At, WrittenFlat, WriteAt, FilesOk, Quiet;
      var it := new SegmentChunks(offset, |buf|, size);
      var total := 0;
      FlatStart(files, size, offset);
      assert buf[..0] == [];
      written, left := 0, host;
      while total < |buf|
        invariant it.Valid() && fresh(it) && it.totalLen == |buf| && it.segmentSize == size
        invariant it.bufPos == total == written && it.currOffset == offset + total
        invariant Valid() && (Quiet(host) ==> Quiet(left))
        invariant WrittenFlat(old(files), files, size, offset, buf[..total])
        invariant total <= Addressable(offset, |buf|, size) && (total > 0 ==> startSegment <= offset / size)
        decreases |buf| - total
      {
        ghost var addr := offset + total;
        BelowLimit(addr, size);
        SegmentsGrow(offset, addr, size);
        var item := it.Next();
        match item.value
        case Err(e) =>
          return Err(e), written, left;
        case Ok(c) =>
          var data := buf[c.pos..c.pos + c.len];
          PieceEnd(addr, size, c.len);
          ghost var before, was := files, left;
          ghost var done;
          var piece;
          piece, done, left := WriteChunk(addr, c.seg, c.off, data, left);
          FlatJoins(old(files), before, files, size, offset, buf[..total], data[..done]);
          assert buf[..total] + data[..done] == buf[..total + done];
          written := total + done;
          if piece.Err? {
            return Err(piece.error), written, left;
          }
          total := total + c.len;
      }
      return Ok(total), written, left;
    }

    /** The fast path: no cutting when the range stays inside one segment. */
    method WriteOnePiece(offset: U64, buf: seq<Byte>, host: Host)
      returns (r: Result<nat, IoError>, ghost written: nat, left: Host)
      requires Valid() && buf != [] && offset + |buf| <= U64_MAX && WithinSingleSegment(offset, |buf|)
      modifies `files
      ensures Valid() && Wrote(old(files), offset, buf, host, r, written)
      ensures Quiet(host) ==> Quiet(left)
    {
      hide IsPow2, At, WrittenFlat, And, Shr, Quiet;
      MaskLow(offset, size);
      ShiftDivides(offset, size);
      BelowLimit(offset, size);
      var seg := Shr(offset, TrailingZeros(size));
      if seg >= SEGMENT_IDS {
        FlatStart(files, size, offset);
        assert buf[..0] == [];
        return Err(SegmentExceeded(seg)), 0, host;
      }
      PieceEnd(offset, size, |buf|);
      r, written, left := WriteChunk(offset, seg, And(offset, size - 1), buf, host);
    }

    /** Arguments that are refused before anything is written. */
    predicate BadWrite(offset: U64, len: nat)
      requires sector > 0
    {
      readOnly || offset % sector != 0 || (direct && len % sector != 0) || offset + len > U64_MAX
    }

    /** Bad arguments write nothing; otherwise a prefix of the buffer lands as one flat write, all of it exactly when
        success is reported; and a quiet host gives success exactly for ranges the device can hold. */
    method WriteAligned(offset: U64, buf: seq<Byte>, host: Host)
      returns (r: Result<nat, IoError>, ghost written: nat, left: Host)
      requires Valid()
      modifies `files
      ensures Valid()
      ensures written <= |buf| && WrittenFlat(old(files), files, size, offset, buf[..written])
      ensures r.Ok? ==> r.value == written == |buf|
      ensures BadWrite(offset, |buf|) || buf == [] ==> written == 0 && files == old(files)
      ensures BadWrite(offset, |buf|) ==> r.Err? && (r.error.ReadOnly? || r.error.UnalignedOffset?
                                                     || r.error.UnalignedLen? || r.error.OutOfBounds?)
      ensures !BadWrite(offset, |buf|) && buf == [] ==> r == Ok(0)
      ensures !BadWrite(offset, |buf|) && buf != [] ==> Wrote(old(files), offset, buf, host, r, written)
      ensures Quiet(host) && !BadWrite(offset, |buf|) ==>
                (buf == [] || (Addressable(offset, |buf|, size) == |buf| && startSegment <= offset / size) <==> r == Ok(|buf|))
      ensures Quiet(host) ==> Quiet(left)
    {
      hide IsPow2, WrittenFlat, Addressable, Quiet;
      written, left := 0, host;
      FlatStart(files, size, offset);
      assert buf[..0] == [];
      if readOnly {
        return Err(ReadOnly), written, left;
      }
      if offset % sector != 0 {
        return Err(UnalignedOffset), written, left;
      }
      if direct && |buf| % sector != 0 {
        return Err(UnalignedLen), written, left;
      }
      if offset + |buf| > U64_MAX {
        return Err(OutOfBounds), written, left;
      }
      if buf == [] {
        return Ok(0), written, left;
      }
      if WithinSingleSegment(offset, |buf|) {
        r, written, left := WriteOnePiece(offset, buf, host);
      } else {
        r, written, left := WritePieces(offset, buf, host);
      }
    }

    predicate WithinSingleSegment(offset: U64, len: nat)
      requires size > 0
    {
      And(offset, size - 1) + len <= size
    }

    // ---------------------------------------------------------------- truncation

    /** Fences off the segments below `seg`, then removes their files; a failure leaves the fence up and the purged
        mark where it was, so that the same call takes up the removal again. */
    method TruncateUntilSegment(seg: nat, host: Host) returns (r: Result<(), IoError>, left: Host)
      requires Valid() && seg < SEGMENT_IDS
      modifies this
      ensures Valid() && startSegment == (if old(startSegment) < seg then seg else old(startSegment))
      ensures forall k :: k in files ==> k in old(files) && files[k] == old(files)[k]
      ensures forall k :: k in old(files) && k >= seg ==> k in files
      ensures r.Ok? ==> forall k :: k in files ==> k >= seg
      ensures r.Err? ==> r.error == IoFailed && !Quiet(host) && purgedSegment == old(purgedSegment)
      ensures Quiet(host) ==> Quiet(left)
    {
      hide IsPow2, FilesOk, Next, Rest, Quiet;
      left := host;
      if purgedSegment >= seg {
        return Ok(()), left;
      }
      if startSegment < seg {
        startSegment := seg;
      }
      QuietRest(left);
      var listed := Next(left);
      left := Rest(left);
      if listed == Refused {
        return Err(IoFailed), left;
      }
      var k := 0;
      while k < seg
        invariant 0 <= k <= seg && (Quiet(host) ==> Quiet(left))
        invariant Valid() && startSegment >= seg && purgedSegment == old(purgedSegment) < seg
        invariant startSegment == if old(startSegment) < seg then seg else old(startSegment)
        invariant forall i :: i in files ==> i in old(files) && files[i] == old(files)[i] && i >= k
        invariant forall i :: i in old(files) && i >= k ==> i in files
      {
        if k in files {
          QuietRest(left);
          var removed := Next(left);
          left := Rest(left);
          if removed == Refused {
            return Err(IoFailed), left;
          }
          FewerFiles(files, size, k);
          files := files - {k};
        }
        k := k + 1;
      }
      QuietRest(left);
      var synced := Next(left);
      left := Rest(left);
      if synced == Refused {
        return Err(IoFailed), left;
      }
      purgedSegment := seg;
      return Ok(()), left;
    }

    /** Hides the whole segments below an address at once, whether or not their files can be removed, and nothing at or
        above it; an address past the last segment number is refused rather than clamped. */
    method TruncateUntilAddress(to: U64, host: Host) returns (r: Result<(), IoError>, left: Host)
      requires Valid()
      modifies this
      ensures Valid()
      ensures to >= SEGMENT_IDS * size <==> r.Err? && r.error.SegmentExceeded?
      ensures to >= SEGMENT_IDS * size ==> files == old(files) && startSegment == old(startSegment)
      ensures to < SEGMENT_IDS * size ==>
                && forall a: nat :: At(View(), size, a) == if a < Floor(to, size) then None else At(old(View()), size, a)
      ensures to < SEGMENT_IDS * size ==>
                startSegment == if old(startSegment) < to / size then to / size else old(startSegment)
      ensures r.Ok? ==> forall k :: k in files ==> k >= to / size
      ensures Quiet(host) ==> Quiet(left) && (r.Ok? <==> to < SEGMENT_IDS * size)
    {
      hide IsPow2, Shr, Quiet;
      ShiftDivides(to, size);
      BelowLimit(to, size);
      var seg := Shr(to, TrailingZeros(size));
      if seg >= SEGMENT_IDS {
        return Err(SegmentExceeded(seg)), host;
      }
      r, left := TruncateUntilSegment(seg, host);
      forall a: nat ensures At(View(), size, a) == if a < Floor(to, size) then None else At(old(View()), size, a) {
        SegmentOrder(a, to, size);
      }
    }

    // ---------------------------------------------------------------- reads

    /** Reads what the file holds of `len` bytes at `off`; a missing or fenced file is an error, never created. */
    method Pread(seg: nat, off: nat, len: nat, host: Host) returns (r: Result<seq<Byte>, IoError>, left: Host)
      requires Valid()
      ensures seg !in View() ==> r == Err(SegmentNotFound(seg))
      ensures seg in View() && r.Err? ==> r.error == IoFailed && !Quiet(host)
      ensures r.Ok? ==> seg in View() && IsPart(View()[seg], off, len, r.value)
      ensures r.Ok? && Quiet(host) && |r.value| < len ==> |View()[seg]| <= off + |r.value|
      ensures r.Ok? && |host| > 1 && host[1].Partial? ==> |r.value| <= host[1].count
      ensures Quiet(host) ==> Quiet(left)
    {
      hide Quiet;
      left := host;
      if seg < startSegment || seg !in files {
        return Err(SegmentNotFound(seg)), left;
      }
      QuietRest(left);
      var access := Next(left);
      left := Rest(left);
      if access == Refused {
        return Err(IoFailed), left;
      }
      QuietRest(left);
      var outcome := Next(left);
      left := Rest(left);
      if outcome == Refused {
        return Err(IoFailed), left;
      }
      var f := files[seg];
      var start, end := Min(off, |f|), Min(off + len, |f|);
      return Ok(f[start..start + Transferred(outcome, end - start)]), left;
    }

    /** The bytes read are those of the view; a quiet host stops short only at an absent byte. */
    ghost predicate ReadBack(offset: nat, len: nat, host: Host, r: Result<nat, IoError>, buf: seq<Byte>)
      requires size > 0
      reads this
    {
      && |buf| <= len && Holds(View(), size, offset, buf)
      && (r.Ok? ==> r.value == |buf|)
      && (r.Err? ==> |buf| < len)
      && (Quiet(host) && |buf| < len ==>
            At(View(), size, offset + |buf|).None? && (r.Err? ==> buf == [] || (offset + |buf|) % size == 0))
    }

    method ReadPieces(offset: U64, len: nat, host: Host) returns (r: Result<nat, IoError>, buf: seq<Byte>, left: Host)
      requires Valid() && offset + len <= U64_MAX
      ensures ReadBack(offset, len, host, r, buf)
      ensures Quiet(host) ==> Quiet(left)
    {
      hide IsPow2, At, Holds, Live, Quiet, IsPart;
      var it := new SegmentChunks(offset, len, size);
      buf, left := [], host;
      LiveOk(files, size, startSegment);
      HoldsNothing(View(), size, offset);
      while |buf| < len
        invariant it.Valid() && fresh(it) && it.totalLen == len && it.segmentSize == size
        invariant it.bufPos == |buf| <= len && it.currOffset == offset + |buf|
        invariant Holds(View(), size, offset, buf) && (Quiet(host) ==> Quiet(left))
        invariant buf == [] || |buf| == len || (offset + |buf|) % size == 0
        decreases len - |buf|
      {
        var addr := offset + |buf|;
        AbsentSegment(View(), size, addr);
        var item := it.Next();
        match item.value
        case Err(e) =>
          return Err(e), buf, left;
        case Ok(c) =>
          NextPieceStart(addr, size, c.len);
          var piece;
          ghost var was := left;
          piece, left := Pread(c.seg, c.off, c.len, left);
          match piece
          case Err(e) =>
            return Err(e), buf, left;
          case Ok(bytes) =>
            PieceHolds(View(), size, addr, bytes, c.len);
            HoldsJoins(View(), size, offset, buf, bytes);
            buf := buf + bytes;
            if |bytes| < c.len {
              return Ok(|buf|), buf, left;
            }
      }
      return Ok(|buf|), buf, left;
    }

    method ReadOnePiece(offset: U64, len: nat, host: Host) returns (r: Result<nat, IoError>, buf: seq<Byte>, left: Host)
      requires Valid() && 0 < len && offset + len <= U64_MAX && WithinSingleSegment(offset, len)
      ensures ReadBack(offset, len, host, r, buf)
      ensures Quiet(host) ==> Quiet(left)
    {
      hide IsPow2, At, Holds, And, Shr, Live, Quiet, IsPart;
      LiveOk(files, size, startSegment);
      HoldsNothing(View(), size, offset);
      AbsentSegment(View(), size, offset);
      MaskLow(offset, size);
      ShiftDivides(offset, size);
      var seg := Shr(offset, TrailingZeros(size));
      if seg >= SEGMENT_IDS {
        return Err(SegmentExceeded(seg)), [], host;
      }
      var piece;
      piece, left := Pread(seg, And(offset, size - 1), len, host);
      match piece
      case Err(e) => return Err(e), [], left;
      case Ok(bytes) =>
        PieceHolds(View(), size, offset, bytes, len);
        return Ok(|bytes|), bytes, left;
    }

    /** The shared read kernel; `aligned` adds the offset check of direct reads. */
    method ReadImpl(offset: U64, len: nat, aligned: bool, host: Host)
      returns (r: Result<nat, IoError>, buf: seq<Byte>, left: Host)
      requires Valid()
      ensures (aligned && offset % sector != 0) || offset + len > U64_MAX ==> r.Err? && buf == []
      ensures !(aligned && offset % sector != 0) && offset + len <= U64_MAX ==> ReadBack(offset, len, host, r, buf)
      ensures Quiet(host) ==> Quiet(left)
    {
      hide IsPow2, At, Holds, And, Live, Quiet;
      if aligned && offset % sector != 0 {
        return Err(UnalignedOffset), [], host;
      }
      if offset + len > U64_MAX {
        return Err(OutOfBounds), [], host;
      }
      if len == 0 {
        HoldsNothing(View(), size, offset);
        return Ok(0), [], host;
      }
      if WithinSingleSegment(offset, len) {
        r, buf, left := ReadOnePiece(offset, len, host);
      } else {
        r, buf, left := ReadPieces(offset, len, host);
      }
    }

    /** Ranges a read can deliver: present, and inside the address space (in direct mode with their last sector). */
    ghost predicate CanRead(offset: nat, len: nat)
      requires size > 0 && sector > 0
      reads this
    {
      && Present(View(), size, offset, len)
      && offset + len <= U64_MAX
      && (direct ==> Ceil(offset + len, sector) <= U64_MAX)
    }

    /** Any logical range, in both modes: exactly its bytes, or an error; and on a quiet host an error only if the range
        cannot be delivered. */
    method ReadRangePooled(offset: U64, len: nat, host: Host) returns (r: Result<seq<Byte>, IoError>, left: Host)
      requires Valid()
      ensures r.Ok? ==> |r.value| == len && Holds(View(), size, offset, r.value)
      ensures r.Ok? ==> len == 0 || CanRead(offset, len)
      ensures Quiet(host) && (len == 0 || CanRead(offset, len)) ==> r.Ok?
      ensures Quiet(host) ==> Quiet(left)
    {
      hide IsPow2, At, Present, Live, Quiet;
      if len == 0 {
        return Ok([]), host;
      }
      if !direct {
        r, left := ReadBuffered(offset, len, host);
      } else {
        r, left := ReadDirect(offset, len, host);
      }
    }

    method ReadBuffered(offset: U64, len: nat, host: Host) returns (r: Result<seq<Byte>, IoError>, left: Host)
      requires Valid() && len > 0 && !direct
      ensures r.Ok? ==> |r.value| == len && Holds(View(), size, offset, r.value) && CanRead(offset, len)
      ensures Quiet(host) && CanRead(offset, len) ==> r.Ok?
      ensures Quiet(host) ==> Quiet(left)
    {
      hide IsPow2, At, Live, Next, Rest, Quiet;
      QuietRest(host);
      left := Rest(host);
      if Next(host) == Refused {
        return Err(NoBuffer), left;
      }
      var res, buf;
      res, buf, left := ReadImpl(offset, len, false, left);
      match res
      case Err(e) =>
        return Err(e), left;
      case Ok(n) =>
        if n < len {
          return Err(UnexpectedEof(len, n)), left;
        }
        HoldsPresent(View(), size, offset, buf, offset, len);
        return Ok(buf), left;
    }

    /** Reads the aligned range around a range; enough of it, or an error. */
    method ReadAround(offset: U64, len: nat, range: SectorRange, host: Host)
      returns (r: Result<seq<Byte>, IoError>, left: Host)
      requires Valid() && len > 0 && offset + len <= U64_MAX && Ceil(offset + len, sector) <= U64_MAX
      requires range.alignedOffset == Floor(offset, sector) && range.alignedOffset + range.internalOffset == offset
      requires range.alignedOffset + range.alignedLen == Ceil(offset + len, sector)
      ensures r.Ok? ==> range.internalOffset + len <= |r.value| <= range.alignedLen
                        && Holds(View(), size, range.alignedOffset, r.value)
      ensures Quiet(host) && Present(View(), size, offset, len) ==> r.Ok?
      ensures Quiet(host) ==> Quiet(left)
    {
      hide IsPow2, At, Holds, Present, Live, Quiet, Floor, Ceil;
      var start, internal := range.alignedOffset, range.internalOffset;
      FloorIsGreatest(offset, sector, 0);
      CeilIsLeast(offset + len, sector, 0);
      var res, buf;
      res, buf, left := ReadImpl(start, range.alignedLen, true, host);
      if Quiet(host) && |buf| < range.alignedLen && Present(View(), size, offset, len) {
        AlignedReadCovers(View(), size, sector, offset, len, start + |buf|);
      }
      match res
      case Err(e) =>
        return Err(e), left;
      case Ok(n) =>
        if n < internal + len {
          return Err(UnexpectedEof(len, if n < internal then 0 else n - internal)), left;
        }
        return Ok(buf), left;
    }

    method ReadDirect(offset: U64, len: nat, host: Host) returns (r: Result<seq<Byte>, IoError>, left: Host)
      requires Valid() && len > 0 && direct
      ensures r.Ok? ==> |r.value| == len && Holds(View(), size, offset, r.value) && CanRead(offset, len)
      ensures Quiet(host) && CanRead(offset, len) ==> r.Ok?
      ensures Quiet(host) ==> Quiet(left)
    {
      hide IsPow2, At, Holds, Present, Calculate, Live, Next, Rest, Quiet, Floor, Ceil;
      CalculateExact(offset, len, sector);
      var range := Calculate(offset, len, sector);
      left := host;
      if range.Err? {
        return Err(range.error), left;
      }
      QuietRest(left);
      var leased := Next(left);
      left := Rest(left);
      if leased == Refused {
        return Err(NoBuffer), left;
      }
      r, left := ReadAround(offset, len, range.value, left);
      if r.Err? {
        return r, left;
      }
      var buf, internal := r.value, range.value.internalOffset;
      HoldsPresent(View(), size, range.value.alignedOffset, buf, offset, len);
      if internal == 0 && range.value.alignedLen == len {
        assert buf[0..len] == buf;
        return Ok(buf), left;
      }
      QuietRest(left);
      var copied := Next(left);
      left := Rest(left);
      if copied == Refused {
        return Err(NoBuffer), left;
      }
      return Ok(buf[internal..internal + len]), left;
    }
  }

  lemma CreatedIsFlat(files: Files, size: nat, seg: nat, addr: nat)
    requires size > 0
    ensures WrittenFlat(files, files[seg := FileOf(files, seg)], size, addr, [])
    ensures FilesOk(files, size) && seg < SEGMENT_IDS ==> FilesOk(files[seg := FileOf(files, seg)], size)
  {
  }

  lemma FewerFiles(files: Files, size: nat, k: nat)
    ensures FilesOk(files, size) ==> FilesOk(files - {k}, size)
  {
  }

  lemma LiveOk(files: Files, size: nat, start: nat)
    ensures FilesOk(files, size) ==> FilesOk(Live(files, start), size)
  {
  }

  lemma SegmentsGrow(a: nat, b: nat, size: nat)
    requires size > 0 && a <= b
    ensures a / size <= b / size
  {
    SegmentOrder(b, a, size);
    FloorIsGreatest(a, size, 0);
  }

  lemma HoldsPresent(files: Files, size: nat, start: nat, buf: seq<Byte>, offset: nat, len: nat)
    requires size > 0 && Holds(files, size, start, buf) && start <= offset && offset + len <= start + |buf|
    ensures Present(files, size, offset, len)
    ensures Holds(files, size, offset, buf[offset - start..offset - start + len])
  {
    hide At;
    forall a | offset <= a < offset + len ensures At(files, size, a) == Some(buf[a - start]) {
      assert At(files, size, start + (a - start)) == Some(buf[a - start]);
    }
  }

  /** The bytes of a file from `off` on, at most `len` of them. */
  ghost predicate IsPart(f: seq<Byte>, off: nat, len: nat, bytes: seq<Byte>) {
    |bytes| <= len && forall i :: 0 <= i < |bytes| ==> off + i < |f| && bytes[i] == f[off + i]
  }

  lemma HoldsNothing(files: Files, size: nat, offset: nat)
    requires size > 0
    ensures Holds(files, size, offset, [])
  {
  }

  lemma AbsentSegment(files: Files, size: nat, a: nat)
    requires size > 0 && FilesOk(files, size)
    ensures a / size !in files ==> At(files, size, a).None?
    ensures a / size >= SEGMENT_IDS ==> a / size !in files
  {
  }

  // ------------------------------------------------------------------ sector ranges

  datatype SectorRange = SectorRange(alignedOffset: nat, alignedLen: nat, internalOffset: nat)

  function Calculate(offset: U64, len: nat, sector: nat): Result<SectorRange, IoError> {
    if sector < MIN_SECTOR || !IsPow2(sector) || sector > U64_MAX then Err(InvalidSectorSize)
    else
      AlignDownIsFloor(offset, sector);
      var start := AlignDown(offset, sector);
      var internal := offset - start;
      if len == 0 then Ok(SectorRange(start, 0, internal))
      else if offset + len > U64_MAX then Err(RangeOverflow)
      else
        match CheckedAlignUp(offset + len, sector)
        case None => Err(RangeOverflow)
        case Some(end) => if end < start then Err(RangeOverflow) else Ok(SectorRange(start, end - start, internal))
  }

  /** The least sector-aligned range around a non-empty range, unless it leaves the address space. */
  lemma CalculateExact(offset: U64, len: nat, sector: nat)
    requires IsPow2(sector) && MIN_SECTOR <= sector <= U64_MAX && len > 0
    ensures var r := Calculate(offset, len, sector);
            if offset + len <= U64_MAX && Ceil(offset + len, sector) <= U64_MAX then
              && r.Ok?
              && r.value.alignedOffset == Floor(offset, sector)
              && r.value.alignedOffset + r.value.alignedLen == Ceil(offset + len, sector)
              && r.value.alignedOffset + r.value.internalOffset == offset
            else r == Err(RangeOverflow)
  {
    hide IsPow2, AlignDown, CheckedAlignUp;
    AlignDownIsFloor(offset, sector);
    FloorIsGreatest(offset, sector, 0);
    CeilIsLeast(offset + len, sector, 0);
    if offset + len <= U64_MAX {
      CheckedAlignUpIsCeil(offset + len, sector);
    }
  }

  ghost predicate Present(files: Files, size: nat, offset: nat, len: nat)
    requires size > 0
  {
    forall a :: offset <= a < offset + len ==> At(files, size, a).Some?
  }

  /** A file has no holes: an address is present if a later one of its segment is. */
  lemma EarlierPresent(files: Files, size: nat, a: nat, b: nat)
    requires size > 0 && Floor(b, size) <= a <= b && At(files, size, b).Some?
    ensures At(files, size, a).Some?
  {
    assert b == b / size * size + b % size;
    DivModUnique(a, size, b / size, a - Floor(b, size));
  }

  /** A read of the aligned range cannot stop, or fail, before it has covered a present range. */
  lemma AlignedReadCovers(files: Files, size: nat, sector: nat, offset: nat, len: nat, a: nat)
    requires IsPow2(sector) && IsPow2(size) && 0 < sector <= size && len > 0
    requires Present(files, size, offset, len)
    requires Floor(offset, sector) <= a < Ceil(offset + len, sector) && At(files, size, a).None?
    ensures a >= offset + len && a % size != 0
  {
    hide IsPow2, At;
    Pow2Divides(sector, size);
    FloorIsGreatest(offset, size, 0);
    assert Floor(offset, size) % sector == 0 by { MultipleOfMultiple(Floor(offset, size), size, sector); }
    FloorIsGreatest(offset, sector, Floor(offset, size));
    if a < offset {
      EarlierPresent(files, size, a, offset);
      assert false;
    }
    if a % size == 0 {
      MultipleOfMultiple(a, size, sector);
      CeilIsLeast(offset + len, sector, a);
    }
  }

  lemma MultipleOfMultiple(a: nat, size: nat, sector: nat)
    requires size > 0 && sector > 0 && a % size == 0 && size % sector == 0
    ensures a % sector == 0
  {
    var p, q := a / size, size / sector;
    assert a == p * size && size == q * sector;
    assert a == (p * q) * sector;
    DivModUnique(a, sector, p * q, 0);
  }

  ghost predicate Holds(files: Files, size: nat, offset: nat, buf: seq<Byte>)
    requires size > 0
  {
    forall i :: 0 <= i < |buf| ==> At(files, size, offset + i) == Some(buf[i])
  }

  lemma HoldsJoins(files: Files, size: nat, offset: nat, b1: seq<Byte>, b2: seq<Byte>)
    requires size > 0 && Holds(files, size, offset, b1) && Holds(files, size, offset + |b1|, b2)
    ensures Holds(files, size, offset, b1 + b2)
  {
  }

  lemma PieceHolds(files: Files, size: nat, addr: nat, bytes: seq<Byte>, len: nat)
    requires size > 0 && addr / size in files && addr % size + len <= size
    requires IsPart(files[addr / size], addr % size, len, bytes)
    ensures |bytes| <= len && Holds(files, size, addr, bytes)
    ensures |bytes| < len && |files[addr / size]| <= addr % size + |bytes| ==> At(files, size, addr + |bytes|).None?
  {
    forall i | 0 <= i < |bytes| ensures At(files, size, addr + i) == Some(bytes[i]) {
      SegmentOf(addr + i, size, addr);
    }
    if |bytes| < len {
      SegmentOf(addr + |bytes|, size, addr);
    }
  }

  lemma NextPieceStart(addr: nat, size: nat, len: nat)
    requires size > 0 && addr % size + len <= size
    ensures addr % size + len == size ==> (addr + len) % size == 0
  {
    if addr % size + len == size {
      assert addr == addr / size * size + addr % size;
      assert (addr / size + 1) * size == addr / size * size + size;
      DivModUnique(addr + len, size, addr / size + 1, 0);
    }
  }

  lemma FlatStart(files: Files, size: nat, offset: nat)
    requires size > 0
    ensures WrittenFlat(files, files, size, offset, [])
  {
  }

  lemma SegmentOrder(a: nat, b: nat, size: nat)
    requires size > 0
    ensures a < Floor(b, size) <==> a / size < b / size
  {
    assert a == a / size * size + a % size && b == b / size * size + b % size;
    if a / size < b / size {
      MulMono(a / size + 1, b / size, size);
      assert (a / size + 1) * size == a / size * size + size;
    } else {
      MulMono(b / size, a / size, size);
    }
  }

  lemma PieceEnd(addr: nat, size: nat, len: nat)
    requires size > 0 && addr / size < SEGMENT_IDS && addr % size + len <= size
    ensures addr + len <= SEGMENT_IDS * size
  {
  }
}
