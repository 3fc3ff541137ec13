/** The flush kernel on the segmented device: what a log reads back after any run of flushes and truncations. */
module LogDevice {
  import opened Bytes
  import opened Wrappers
  import opened Align
  import opened Flush
  import opened Segments

  /** The device holds the log's bytes from `begin` on. */
  ghost predicate Kept(files: Files, size: nat, begin: nat, log: seq<Byte>)
    requires size > 0
  {
    forall a :: begin <= a < |log| ==> At(files, size, a) == Some(log[a])
  }

  lemma MultiplesSubtract(a: nat, b: nat, s: nat)
    requires s > 0 && a <= b && a % s == 0 && b % s == 0
    ensures (b - a) % s == 0
  {
    var p, q := a / s, b / s;
    assert a == p * s && b == q * s;
    Difference(p, q, s);
    DivModUnique(b - a, s, q - p, 0);
  }

  lemma Difference(p: nat, q: nat, s: nat)
    requires s > 0 && p * s <= q * s
    ensures p <= q && q * s - p * s == (q - p) * s
  {
    if q < p {
      MulMono(q + 1, p, s);
    }
  }

  /** The rounded-down start of a flush never falls behind the fence. */
  lemma StartIsLive(seg: nat, size: nat, sector: nat, w: nat, start: nat)
    requires IsPow2(size) && IsPow2(sector) && 0 < sector <= size && seg * size <= w
    requires start % sector == 0 && start <= w < start + sector
    ensures seg * size <= start && seg <= start / size
  {
    hide IsPow2;
    DivModUnique(seg * size, size, seg, 0);
    Pow2Divides(sector, size);
    MultipleOfMultiple(seg * size, size, sector);
    FloorIsGreatest(w, sector, seg * size);
    FloorIsGreatest(w, sector, start);
    assert start == Floor(w, sector) by {
      MultipleGap(start, Floor(w, sector), sector);
    }
    SegmentsGrow(seg * size, start, size);
  }

  lemma MultipleGap(a: nat, b: nat, s: nat)
    requires s > 0 && a % s == 0 && b % s == 0 && a <= b < a + s
    ensures a == b
  {
    MultiplesSubtract(a, b, s);
  }

  /** What a planned write gives the device: whole sectors where it needs them, and nothing behind the fence. */
  lemma PlanIsWritable(from: U64, to: U64, sector: U64, direct: bool, seg: nat, size: nat)
    requires from <= to && MakePlan(from, to, sector, direct).Some?
    requires IsPow2(size) && IsPow2(sector) && 1 < sector <= size && seg * size <= from
    ensures var p := MakePlan(from, to, sector, direct).value;
            && p.start <= from && p.start + p.valid == to && p.valid <= p.total
            && p.start + p.total == (if direct then Ceil(to, sector) else to)
            && p.start % sector == 0 && (direct ==> p.total % sector == 0)
            && seg <= p.start / size
  {
    hide IsPow2, MakePlan, Floor, Ceil;
    var p := MakePlan(from, to, sector, direct).value;
    PlanExact(from, to, sector, direct);
    CeilIsLeast(to, sector, 0);
    StartIsLive(seg, size, sector, from, p.start);
    if direct {
      MultiplesSubtract(p.start, p.start + p.total, sector);
    }
  }

  /** Behind the fence the view is the files themselves. */
  lemma LiveAt(files: Files, start: nat, size: nat, a: nat)
    requires size > 0
    ensures At(Live(files, start), size, a) == if a < start * size then None else At(files, size, a)
  {
    DivModUnique(start * size, size, start, 0);
    if a < start * size {
      SegmentOrder(a, start * size, size);
    } else {
      SegmentsGrow(start * size, a, size);
    }
  }

  /** A prefix of the image of a flush, written over the device, leaves the flushed log in place; all of it adds the
      rest of the range. */
  lemma FlushKeeps(before: Files, after: Files, seg: nat, size: nat, log: seq<Byte>, w: nat, to: nat, start: nat,
                   image: seq<Byte>, written: nat)
    requires size > 0 && start <= w <= to <= |log| && to - start <= |image| && image[..to - start] == log[start..to]
    requires written <= |image| && WrittenFlat(before, after, size, start, image[..written])
    requires Kept(Live(before, seg), size, seg * size, log[..w])
    ensures Kept(Live(after, seg), size, seg * size, log[..w])
    ensures written == |image| ==> Kept(Live(after, seg), size, seg * size, log[..to])
  {
    hide At, Live;
    var bound := if written == |image| then to else w;
    forall a | seg * size <= a < bound ensures At(Live(after, seg), size, a) == Some(log[a]) {
      LiveAt(before, seg, size, a);
      LiveAt(after, seg, size, a);
      assert WrittenAt(At(before, size, a), At(after, size, a), start, image[..written], a);
      if start <= a < start + written {
        assert image[..to - start][a - start] == log[start..to][a - start];
      } else {
        assert a < w && log[..w][a] == log[a];
      }
    }
  }

  // ------------------------------------------------------------------ the log

  /** One step of a log's life, with what the host does to it. */
  datatype LogEvent =
    | Grow(bytes: seq<Byte>)
    | FlushTo(to: nat, filled: bool, host: Host)
    | DropUntil(to: nat, host: Host)

  /** An append-only log over a device; everything below the watermark has been flushed. */
  class FlushedLog {
    const device: SegmentedDevice
    var log: seq<Byte>
    var watermark: nat

    /** The least address that has not been truncated away. */
    ghost function Begin(): nat
      reads this, device
    {
      device.startSegment * device.size
    }

    ghost predicate Valid()
      reads this, device
    {
      && device.Valid()
      && Begin() <= watermark <= |log| <= U64_MAX
      && Kept(device.View(), device.size, Begin(), log[..watermark])
    }

    constructor (device: SegmentedDevice)
      requires device.Valid() && device.startSegment == 0
      ensures Valid() && this.device == device && log == [] && watermark == 0
    {
      this.device, log, watermark := device, [], 0;
    }

    method Append(bytes: seq<Byte>)
      requires Valid() && |log| + |bytes| <= U64_MAX
      modifies `log
      ensures Valid() && log == old(log) + bytes
    {
      assert (log + bytes)[..watermark] == log[..watermark];
      log := log + bytes;
    }

    /** Where the write of a flush up to `to` ends. */
    ghost function WriteEnd(to: nat): nat
      requires device.sector > 0
    {
      if device.direct then Ceil(to, device.sector) else to
    }

    /** Flushes up to `to` and advances the watermark on success only. Whatever the host does, the flushed part of
        the log stays on the device as it was; a quiet host lets every flush through that fits the device. */
    method FlushUpTo(to: U64, filled: bool, host: Host) returns (r: FlushResult, left: Host)
      requires Valid() && watermark <= to <= |log|
      modifies `watermark, device`files
      ensures Valid()
      ensures watermark == if r == Flushed then to else old(watermark)
      ensures Quiet(host) && filled && !device.readOnly && WriteEnd(to) <= Min(U64_MAX, SEGMENT_IDS * device.size) ==>
                r == Flushed
      ensures Quiet(host) ==> Quiet(left)
    {
      hide IsPow2, MakePlan, Kept, Live, Next, Rest, Quiet, FilesOk, Floor, Ceil;
      PlanExact(watermark, to, device.sector, device.direct);
      QuietRest(host);
      left := Rest(host);
      if Next(host) == Refused {
        return DeviceError, left;
      }
      var plan := MakePlan(watermark, to, device.sector, device.direct);
      if plan.None? {
        return Panicked, left;
      }
      if !filled {
        return FillError, left;
      }
      PlanIsWritable(watermark, to, device.sector, device.direct, device.startSegment, device.size);
      r, left := WritePlanned(plan.value, to, left);
    }

    method WritePlanned(p: Plan, to: U64, host: Host) returns (r: FlushResult, left: Host)
      requires Valid() && p.start <= watermark <= to <= |log| && p.start + p.valid == to && p.valid <= p.total
      requires p.start % device.sector == 0 && (device.direct ==> p.total % device.sector == 0)
      requires device.startSegment <= p.start / device.size
      modifies `watermark, device`files
      ensures Valid()
      ensures watermark == if r == Flushed then to else old(watermark)
      ensures Quiet(host) && !device.readOnly && p.start + p.total <= Min(U64_MAX, SEGMENT_IDS * device.size) ==>
                r == Flushed
      ensures Quiet(host) ==> Quiet(left)
    {
      hide IsPow2, Kept, Live, Quiet, FilesOk, WrittenFlat, At;
      var image := FillAndPad(log[p.start..to], p.total);
      assert image[..p.valid] == log[p.start..to];
      ghost var before, written := device.files, 0;
      var res;
      res, written, left := device.WriteAligned(p.start, image, host);
      FlushKeeps(before, device.files, device.startSegment, device.size, log, watermark, to, p.start, image, written);
      match res
      case Err(_) =>
        r := DeviceError;
      case Ok(n) =>
        if n == p.total {
          watermark := to;
          r := Flushed;
        } else {
          r := ShortWrite(p.total, n);
        }
    }

    /** Drops whole segments below an address that is already flushed. */
    method Truncate(to: U64, host: Host) returns (r: Result<(), IoError>, left: Host)
      requires Valid() && to <= watermark
      modifies device
      ensures Valid() && old(Begin()) <= Begin()
      ensures to < SEGMENT_IDS * device.size ==>
                Begin() == if old(Begin()) < Floor(to, device.size) then Floor(to, device.size) else old(Begin())
      ensures Quiet(host) ==> Quiet(left)
    {
      hide IsPow2, Kept, Live, Quiet, FilesOk, At, Floor;
      ghost var view, begin, seg := device.View(), Begin(), device.startSegment;
      r, left := device.TruncateUntilAddress(to, host);
      TruncateKeeps(view, device.View(), seg, device.startSegment, device.size, to, log[..watermark]);
    }

    /** Whatever has been flushed and not truncated reads back as the log; what has been truncated does not read. */
    method ReadLog(offset: U64, len: nat, host: Host) returns (r: Result<seq<Byte>, IoError>, left: Host)
      requires Valid() && offset + len <= watermark
      ensures r.Ok? ==> r.value == log[offset..offset + len] && (len == 0 || Begin() <= offset)
      ensures Quiet(host) && Begin() <= offset && (device.direct ==> Ceil(offset + len, device.sector) <= U64_MAX) ==> r.Ok?
      ensures Quiet(host) ==> Quiet(left)
    {
      hide IsPow2, Live, Quiet, FilesOk, At, Ceil;
      r, left := device.ReadRangePooled(offset, len, host);
      LiveAt(device.files, device.startSegment, device.size, offset);
      if r.Ok? && len > 0 {
        forall i | 0 <= i < len ensures r.value[i] == log[offset + i] {
          LiveAt(device.files, device.startSegment, device.size, offset + i);
        }
      }
    }

    /** Steps that a log takes: it grows within the address space, flushes forward and drops what is flushed. */
    predicate Allowed(e: LogEvent)
      reads this
    {
      match e
      case Grow(bytes) => |log| + |bytes| <= U64_MAX
      case FlushTo(to, _, _) => watermark <= to <= |log| && to <= U64_MAX
      case DropUntil(to, _) => to <= watermark && to <= U64_MAX
    }

    /** Any run of allowed steps, over any behaviour of the host, ends in a log whose flushed part reads back. */
    method Replay(events: seq<LogEvent>)
      requires Valid()
      modifies this, device
      ensures Valid() && old(log) <= log && old(watermark) <= watermark && old(Begin()) <= Begin()
    {
      hide Kept, Live, FilesOk, IsPow2;
      for i := 0 to |events|
        invariant Valid() && old(log) <= log && old(watermark) <= watermark && old(Begin()) <= Begin()
      {
        if Allowed(events[i]) {
          match events[i]
          case Grow(bytes) => Append(bytes);
          case FlushTo(to, filled, host) => var _, _ := FlushUpTo(to, filled, host);
          case DropUntil(to, host) => var _, _ := Truncate(to, host);
        }
      }
    }
  }

  /** Truncation keeps the log above the new start. */
  lemma TruncateKeeps(before: Files, after: Files, seg: nat, seg': nat, size: nat, to: nat, log: seq<Byte>)
    requires size > 0 && seg * size <= |log| && to <= |log| && Kept(before, size, seg * size, log)
    requires to >= SEGMENT_IDS * size ==> after == before && seg' == seg
    requires to < SEGMENT_IDS * size ==>
               && seg' == (if seg < to / size then to / size else seg)
               && forall a: nat :: At(after, size, a) == if a < Floor(to, size) then None else At(before, size, a)
    ensures seg * size <= seg' * size <= |log| && Kept(after, size, seg' * size, log)
    ensures to < SEGMENT_IDS * size ==>
              seg' * size == if seg * size < Floor(to, size) then Floor(to, size) else seg * size
  {
    hide At;
    assert Floor(to, size) == to / size * size <= to;
    if seg < to / size {
      MulMono(seg + 1, to / size, size);
      assert (seg + 1) * size == seg * size + size;
    } else {
      MulMono(to / size, seg, size);
    }
  }
}
