/** The sector-aligned flush kernel over a device whose writes may be short, torn or fail. */
module Flush {
  import opened Bytes
  import opened Wrappers
  import opened Align

  /** The medium: what a later read finds at each address. */
  type Medium = map<nat, Byte>

  datatype Transfer = Written(count: nat) | Failed

  datatype FlushResult = Flushed | FillError | ShortWrite(expected: nat, written: nat) | DeviceError | Panicked

  /** Where a flush of [from, to) starts, how much it writes and how much of that is log. */
  datatype Plan = Plan(start: nat, total: nat, valid: nat)

  function SectorBounds(from: U64, to: U64, sector: U64): (nat, nat) {
    (AlignDown(from, sector), AlignUp(to, sector))
  }

  /** None is the panic of splitting a buffer that is shorter than its valid part. */
  function MakePlan(from: U64, to: U64, sector: U64, direct: bool): Option<Plan>
    requires from <= to
  {
    var (start, sectorEnd) := SectorBounds(from, to, sector);
    AlignDownIsFloor(from, sector);
    var end := if direct then sectorEnd else to;
    if end < to then None else Some(Plan(start, end - start, to - start))
  }

  /** A flush can be planned unless direct mode needs an end beyond the last sector of the address space. */
  lemma PlanExact(from: U64, to: U64, sector: U64, direct: bool)
    requires from <= to
    ensures MakePlan(from, to, sector, direct).None? <==> direct && Ceil(to, Unit(sector)) > U64_MAX
    ensures MakePlan(from, to, sector, direct).Some? ==>
              var p := MakePlan(from, to, sector, direct).value;
              && p.start % Unit(sector) == 0 && p.start <= from < p.start + Unit(sector)
              && p.start + p.valid == to
              && p.start + p.total == if direct then Ceil(to, Unit(sector)) else to
  {
    hide AlignDown, AlignUp;
    var a := Unit(sector);
    AlignDownIsFloor(from, sector);
    AlignUpIsCeilOrTop(to, sector);
    FloorIsGreatest(from, a, 0);
    CeilIsLeast(to, a, Floor(U64_MAX, a));
    FloorIsGreatest(U64_MAX, a, 0);
    if Ceil(to, a) > U64_MAX {
      assert Floor(U64_MAX, a) < to;
    }
  }

  /** The addresses in `touched` reached the medium, the others did not. */
  function Overlay(m: Medium, start: nat, image: seq<Byte>, touched: set<nat>): Medium {
    m + map a | a in touched && start <= a < start + |image| :: image[a - start]
  }

  lemma OverlayAt(m: Medium, start: nat, image: seq<Byte>, touched: set<nat>, a: nat)
    ensures var o := Overlay(m, start, image, touched);
            if a in touched && start <= a < start + |image| then a in o && o[a] == image[a - start]
            else (a in o <==> a in m) && (a in m ==> o[a] == m[a])
  {
  }

  ghost predicate Honest(result: Transfer, start: nat, len: nat, touched: set<nat>) {
    && (forall a :: a in touched ==> start <= a < start + len)
    && (result == Written(len) ==> forall a :: start <= a < start + len ==> a in touched)
  }

  class BlockDevice {
    const sector: U64
    const direct: bool
    var medium: Medium

    constructor (sector: U64, direct: bool)
      ensures this.sector == sector && this.direct == direct && medium == map[]
    {
      this.sector, this.direct, medium := sector, direct, map[];
    }

    /** `pooled` tells whether the pool lends a buffer, `fill` is what the engine copies for the valid part, or
        its refusal; `result` and `touched` are what the device does with the single write. */
    method FlushRangeAligned(from: U64, to: U64, pooled: bool, fill: Option<seq<Byte>>, result: Transfer,
                             touched: set<nat>) returns (r: FlushResult)
      requires from <= to
      requires var plan := MakePlan(from, to, sector, direct);
               plan.Some? ==> && (fill.Some? ==> |fill.value| == plan.value.valid)
                              && Honest(result, plan.value.start, plan.value.total, touched)
      modifies this
      ensures !pooled ==> r == DeviceError && medium == old(medium)
      ensures pooled && MakePlan(from, to, sector, direct).None? ==> r == Panicked && medium == old(medium)
      ensures pooled && MakePlan(from, to, sector, direct).Some? ==>
                var p := MakePlan(from, to, sector, direct).value;
                if fill.None? then r == FillError && medium == old(medium)
                else
                  && medium == Overlay(old(medium), p.start, fill.value + Zeros(p.total - p.valid), touched)
                  && r == match result
                          case Failed => DeviceError
                          case Written(n) => if n == p.total then Flushed else ShortWrite(p.total, n)
    {
      hide MakePlan, Overlay;
      PlanExact(from, to, sector, direct);
      CeilIsLeast(to, Unit(sector), 0);
      if !pooled {
        return DeviceError;
      }
      var plan := MakePlan(from, to, sector, direct);
      if plan.None? {
        return Panicked;
      }
      var p := plan.value;
      if fill.None? {
        return FillError;
      }
      var image := FillAndPad(fill.value, p.total);
      medium := Overlay(medium, p.start, image, touched);
      match result
      case Failed => return DeviceError;
      case Written(n) =>
        if n == p.total { return Flushed; } else { return ShortWrite(p.total, n); }
    }
  }

  /** Fills the front of the buffer and clears the rest. */
  method FillAndPad(valid: seq<Byte>, total: nat) returns (image: seq<Byte>)
    requires |valid| <= total
    ensures image == valid + Zeros(total - |valid|)
  {
    var buf := new Byte[total];
    var i := 0;
    while i < |valid|
      invariant 0 <= i <= |valid|
      invariant buf[..i] == valid[..i]
    {
      buf[i] := valid[i];
      i := i + 1;
    }
    while i < total
      invariant |valid| <= i <= total
      invariant buf[..i] == valid + Zeros(i - |valid|)
    {
      buf[i] := 0;
      i := i + 1;
    }
    assert buf[..] == buf[..i];
    image := buf[..];
  }

  // ------------------------------------------------------------------ runs of flushes

  /** The append-only log, the medium and the position below which everything is flushed. */
  datatype LogState = LogState(log: seq<Byte>, medium: Medium, watermark: nat)

  datatype Event =
    | Append(bytes: seq<Byte>)
    | Flush(to: nat, filled: bool, result: Transfer, touched: set<nat>)

  /** What one flush writes: the log from the rounded-down start, then padding. */
  function Image(log: seq<Byte>, p: Plan): seq<Byte>
    requires p.start + p.valid <= |log| && p.valid <= p.total
  {
    log[p.start..p.start + p.valid] + Zeros(p.total - p.valid)
  }

  ghost predicate EventOk(s: LogState, e: Event, sector: U64, direct: bool) {
    match e
    case Append(bytes) => |s.log| + |bytes| <= U64_MAX
    case Flush(to, _, result, touched) =>
      && s.watermark <= to <= |s.log| <= U64_MAX
      && match MakePlan(s.watermark, to, sector, direct)
         case None => false
         case Some(p) => Honest(result, p.start, p.total, touched)
  }

  function Step(s: LogState, e: Event, sector: U64, direct: bool): LogState
    requires EventOk(s, e, sector, direct)
  {
    match e
    case Append(bytes) => s.(log := s.log + bytes)
    case Flush(to, filled, result, touched) =>
      var p := MakePlan(s.watermark, to, sector, direct).value;
      PlanExact(s.watermark, to, sector, direct);
      CeilIsLeast(to, Unit(sector), 0);
      if !filled then s
      else
        s.(medium := Overlay(s.medium, p.start, Image(s.log, p), touched),
           watermark := if result == Written(p.total) then to else s.watermark)
  }

  /** Everything below the watermark is on the medium, byte for byte. */
  ghost predicate PrefixFlushed(s: LogState) {
    && s.watermark <= |s.log|
    && forall a: nat :: a < s.watermark ==> a in s.medium && s.medium[a] == s.log[a]
  }

  lemma StepKeepsPrefix(s: LogState, e: Event, sector: U64, direct: bool)
    requires PrefixFlushed(s) && EventOk(s, e, sector, direct)
    ensures var s' := Step(s, e, sector, direct);
            PrefixFlushed(s') && s.watermark <= s'.watermark && s.log <= s'.log
  {
    hide MakePlan, Overlay;
    if e.Flush? {
      var p := MakePlan(s.watermark, e.to, sector, direct).value;
      PlanExact(s.watermark, e.to, sector, direct);
      CeilIsLeast(e.to, Unit(sector), 0);
      var s' := Step(s, e, sector, direct);
      forall a: nat | a < s'.watermark ensures a in s'.medium && s'.medium[a] == s.log[a] {
        OverlayAt(s.medium, p.start, Image(s.log, p), e.touched, a);
      }
    }
  }

  ghost predicate Run(states: seq<LogState>, events: seq<Event>, sector: U64, direct: bool) {
    && |states| == |events| + 1
    && (forall i :: 0 <= i < |events| ==>
          EventOk(states[i], events[i], sector, direct) && states[i + 1] == Step(states[i], events[i], sector, direct))
  }

  /** In every run of appends and flushes, in both modes, whatever short, torn or failed writes happen:
      the bytes below the watermark equal the log, and the watermark never moves back. */
  lemma {:induction false} FlushedPrefixSurvives(states: seq<LogState>, events: seq<Event>, sector: U64, direct: bool, i: nat)
    requires Run(states, events, sector, direct) && PrefixFlushed(states[0]) && i < |states|
    ensures PrefixFlushed(states[i])
    ensures states[0].watermark <= states[i].watermark && states[0].log <= states[i].log
  {
    hide EventOk, Step, PrefixFlushed;
    if i > 0 {
      FlushedPrefixSurvives(states, events, sector, direct, i - 1);
      StepKeepsPrefix(states[i - 1], events[i - 1], sector, direct);
    }
  }

  /** However a flush ends, what reached the medium is the log below its end and zero padding from there on. */
  lemma FlushWritesLogThenZeros(s: LogState, e: Event, sector: U64, direct: bool, a: nat)
    requires EventOk(s, e, sector, direct) && e.Flush? && e.filled && a in e.touched
    ensures var s' := Step(s, e, sector, direct);
            a in s'.medium && s'.medium[a] == if a < e.to then s.log[a] else 0
  {
    hide MakePlan, Overlay;
    var p := MakePlan(s.watermark, e.to, sector, direct).value;
    PlanExact(s.watermark, e.to, sector, direct);
    CeilIsLeast(e.to, Unit(sector), 0);
    OverlayAt(s.medium, p.start, Image(s.log, p), e.touched, a);
  }

  /** However a flush ends, it leaves every address outside its planned range alone. */
  lemma FlushTouchesItsPlan(s: LogState, e: Event, sector: U64, direct: bool, a: nat)
    requires EventOk(s, e, sector, direct) && e.Flush?
    requires var p := MakePlan(s.watermark, e.to, sector, direct).value; !(p.start <= a < p.start + p.total)
    ensures var s' := Step(s, e, sector, direct);
            (a in s'.medium <==> a in s.medium) && (a in s.medium ==> s'.medium[a] == s.medium[a])
  {
    hide MakePlan, Overlay;
    var p := MakePlan(s.watermark, e.to, sector, direct).value;
    PlanExact(s.watermark, e.to, sector, direct);
    CeilIsLeast(e.to, Unit(sector), 0);
    OverlayAt(s.medium, p.start, Image(s.log, p), e.touched, a);
  }
}
