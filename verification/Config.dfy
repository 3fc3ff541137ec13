/** The CONFIG slot table: one integer slot per option, seeded at startup and changed by CONFIG SET. */
module Config {
  import opened Bytes
  import Glob
  import opened NsPrefix
  import opened Wrappers

  const TABLE_SIZE: nat := 36
  const I32_MIN: int := -0x8000_0000
  const I32_MAX: int := 0x7FFF_FFFF

  type I32 = n: int | I32_MIN <= n <= I32_MAX
  type Text = seq<Byte>
  type CompactionMember = n: int | 0 <= n <= 3
  type Table = s: seq<I64> | |s| == TABLE_SIZE witness seq(TABLE_SIZE, _ => 0)
  type Slot = t: nat | t < TABLE_SIZE

  // ------------------------------------------------------------------ metadata

  datatype Kind = NoKind | Int32 | Int64 | Bool | Enum | Str

  datatype Unit = NoUnit | Microseconds | Milliseconds | Seconds

  datatype Action =
    | NoAction
    | ClusterTimeoutAction
    | AofSyncMaxLagAction
    | MaxSegmentsAction
    | CompactionTypeAction
    | CommitFrequencyAction
    | ObjectCollectAction
    | KeyDeletionAction

  datatype Meta = Meta(kind: Kind, min: I64, max: I64, readOnly: bool, unit: Unit, action: Action)

  const CLUSTER_NODE_TIMEOUT: Slot := 7
  const AOF_SYNC_MAX_LAG_BYTES: Slot := 10
  const REPL_ATTACH_TIMEOUT: Slot := 13
  const COMPACTION_TYPE: Slot := 16
  const AOF_COMMIT_FREQ: Slot := 21

  function SecondsMeta(action: Action): Meta { Meta(Int32, 0, I32_MAX, false, Seconds, action) }

  function MillisecondsMeta(): Meta { Meta(Int32, 0, I32_MAX, false, Milliseconds, NoAction) }

  function NumberMeta(min: I64, action: Action): Meta { Meta(Int32, min, I32_MAX, false, NoUnit, action) }

  function ReadOnlyMeta(kind: Kind, unit: Unit): Meta { Meta(kind, 0, 0, true, unit, NoAction) }

  function MetaOf(t: Slot): Meta {
    match t
    case 2 => ReadOnlyMeta(Int32, Seconds)
    case 3 => ReadOnlyMeta(Str, NoUnit)
    case 4 => ReadOnlyMeta(Bool, NoUnit)
    case 6 => ReadOnlyMeta(Int32, NoUnit)
    case 7 => SecondsMeta(ClusterTimeoutAction)
    case 8 => MillisecondsMeta()
    case 9 => NumberMeta(-1, NoAction)
    case 10 => Meta(Int64, -1, I64_MAX, false, NoUnit, AofSyncMaxLagAction)
    case 11 => MillisecondsMeta()
    case 12 => SecondsMeta(NoAction)
    case 13 => SecondsMeta(NoAction)
    case 14 => SecondsMeta(NoAction)
    case 15 => NumberMeta(0, MaxSegmentsAction)
    case 16 => Meta(Enum, 0, 0, false, NoUnit, CompactionTypeAction)
    case 17 => Meta(Int32, 0, I32_MAX, false, Microseconds, NoAction)
    case 18 => NumberMeta(0, NoAction)
    case 19 => Meta(Bool, 0, 1, false, NoUnit, NoAction)
    case 20 => NumberMeta(0, NoAction)
    case 21 => NumberMeta(-1, CommitFrequencyAction)
    case 22 => NumberMeta(0, ObjectCollectAction)
    case 23 => NumberMeta(-1, KeyDeletionAction)
    case 24 => ReadOnlyMeta(Str, NoUnit)
    case 25 => ReadOnlyMeta(Str, NoUnit)
    case 26 => ReadOnlyMeta(Str, NoUnit)
    case 27 => ReadOnlyMeta(Bool, NoUnit)
    case 28 => ReadOnlyMeta(Str, NoUnit)
    case 29 => ReadOnlyMeta(Str, NoUnit)
    case 30 => ReadOnlyMeta(Str, NoUnit)
    case 31 => ReadOnlyMeta(Int32, NoUnit)
    case 32 => ReadOnlyMeta(Int32, NoUnit)
    case 33 => ReadOnlyMeta(Bool, NoUnit)
    case 34 => ReadOnlyMeta(Str, NoUnit)
    case 35 => ReadOnlyMeta(Bool, NoUnit)
    case _ => Meta(NoKind, 0, 0, false, NoUnit, NoAction)
  }

  /** Options that CONFIG SET can change. */
  predicate Settable(t: Slot) { 7 <= t <= 23 }

  /** Values an option declares. */
  predicate Declared(t: Slot, v: int) {
    var meta := MetaOf(t);
    match meta.kind
    case Int32 => meta.min <= v <= meta.max
    case Int64 => meta.min <= v <= meta.max
    case Bool => v == 0 || v == 1
    case Enum => 0 <= v <= 3
    case _ => false
  }

  // ------------------------------------------------------------------ startup options

  datatype Options = Options(
    clusterTimeout: I32, replicaSyncDelayMs: I32, aofReplayMaxLagBytes: I32, aofSyncMaxLagBytes: I64,
    aofTailWitnessFreqMs: I32, replicaDisklessSyncDelay: I32, replicaAttachTimeoutSecs: I64,
    clusterReplicationReestablishmentTimeout: I32, compactionMaxSegments: I32, compactionType: CompactionMember,
    slowLogThreshold: I32, objectScanCountLimit: I32, enableScatterGatherGet: bool,
    aofSizeLimitEnforceFrequencySecs: I32, commitFrequencyMs: I32,
    expiredObjectCollectionFrequencySecs: I32, expiredKeyDeletionScanFrequencySecs: I32,
    echo: nat -> Text)

  function SecondsFromTimeSpan(secs: I64): I64 { if secs > 0 then secs else 0 }

  function SeedOf(o: Options, t: Slot): I64 {
    match t
    case 7 => o.clusterTimeout
    case 8 => o.replicaSyncDelayMs
    case 9 => o.aofReplayMaxLagBytes
    case 10 => o.aofSyncMaxLagBytes
    case 11 => o.aofTailWitnessFreqMs
    case 12 => o.replicaDisklessSyncDelay
    case 13 => SecondsFromTimeSpan(o.replicaAttachTimeoutSecs)
    case 14 => o.clusterReplicationReestablishmentTimeout
    case 15 => o.compactionMaxSegments
    case 16 => o.compactionType
    case 17 => o.slowLogThreshold
    case 18 => o.objectScanCountLimit
    case 19 => if o.enableScatterGatherGet then 1 else 0
    case 20 => o.aofSizeLimitEnforceFrequencySecs
    case 21 => o.commitFrequencyMs
    case 22 => o.expiredObjectCollectionFrequencySecs
    case 23 => o.expiredKeyDeletionScanFrequencySecs
    case _ => 0
  }

  function Seeds(o: Options): Table { seq(TABLE_SIZE, t requires 0 <= t < TABLE_SIZE => SeedOf(o, t)) }

  // ------------------------------------------------------------------ text

  function Ascii(s: string): Text { seq(|s|, i requires 0 <= i < |s| => s[i] as int % 256) }

  predicate EqIgnoreCase(a: Text, b: Text) {
    |a| == |b| && forall i :: 0 <= i < |a| ==> Glob.Lower(a[i]) == Glob.Lower(b[i])
  }

  predicate IsSpace(b: Byte) { b == 32 || b == 9 || b == 10 || b == 12 || b == 13 }

  function TrimStart(s: Text): Text { if s != [] && IsSpace(s[0]) then TrimStart(s[1..]) else s }

  function TrimEnd(s: Text): Text { if s != [] && IsSpace(s[|s| - 1]) then TrimEnd(s[..|s| - 1]) else s }

  function Trim(s: Text): Text { TrimEnd(TrimStart(s)) }

  predicate IsNumeral(s: Text) { s != [] && forall i :: 0 <= i < |s| ==> 48 <= s[i] <= 57 }

  /** Decimal text with an optional sign, as the standard integer parser reads it. */
  function ParseInt(s: Text, min: int, max: int): Option<int> {
    var signed := s != [] && (s[0] == 43 || s[0] == 45);
    var body := if signed then s[1..] else s;
    if !IsNumeral(body) then None
    else
      var v := if signed && s[0] == 45 then -Value(body) else Value(body);
      if min <= v <= max then Some(v) else None
  }

  function Decimal(v: int): Text { if v < 0 then [45] + Digits(-v) else Digits(v) }

  function EnumName(v: int): Option<Text> {
    match v
    case 0 => Some(Ascii("None"))
    case 1 => Some(Ascii("Shift"))
    case 2 => Some(Ascii("Lookup"))
    case 3 => Some(Ascii("Scan"))
    case _ => None
  }

  function ParseEnum(s: Text): Option<int> {
    match ParseInt(s, I64_MIN, I64_MAX)
    case Some(raw) => if EnumName(raw).Some? then Some(raw) else None
    case None =>
      if EqIgnoreCase(s, Ascii("None")) then Some(0)
      else if EqIgnoreCase(s, Ascii("Shift")) then Some(1)
      else if EqIgnoreCase(s, Ascii("Lookup")) then Some(2)
      else if EqIgnoreCase(s, Ascii("Scan")) then Some(3)
      else None
  }

  // ------------------------------------------------------------------ CONFIG SET

  datatype Error =
    | ReadOnly
    | InvalidInteger
    | OutOfRange(min: I64, max: I64)
    | InvalidBool
    | InvalidEnum(value: Text)
    | NotRuntimeAdjustable
    | CommitFreqZero
    | CommitFreqAutoCommitStart
    | EnumOutOfRange(raw: I64)

  datatype Reconcile =
    | ClusterNodeTimeout(ms: nat)
    | AofSyncMaxLag(maxLagBytes: I64)
    | CompactionMaxSegments(maxSegments: I64)
    | CompactionType(compactionType: I64)
    | CommitTask(commitFrequencyMs: I64)
    | ObjectCollect(frequencySecs: I64)
    | ExpiredKeyDeletionScan(scanFrequencySecs: I64)

  type Reply = Result<Option<Reconcile>, Error>

  function ParseRanged(meta: Meta, s: Text, min: int, max: int): Result<I64, Error>
    requires I64_MIN <= min && max <= I64_MAX
  {
    match ParseInt(Trim(s), min, max)
    case None => Err(InvalidInteger)
    case Some(v) => if v < meta.min || v > meta.max then Err(OutOfRange(meta.min, meta.max)) else Ok(v)
  }

  function ParseValue(meta: Meta, s: Text): Result<I64, Error> {
    if meta.readOnly then Err(ReadOnly)
    else match meta.kind
      case Int32 => ParseRanged(meta, s, I32_MIN, I32_MAX)
      case Int64 => ParseRanged(meta, s, I64_MIN, I64_MAX)
      case Bool =>
        if EqIgnoreCase(s, Ascii("yes")) || EqIgnoreCase(s, Ascii("true")) || s == Ascii("1") then Ok(1)
        else if EqIgnoreCase(s, Ascii("no")) || EqIgnoreCase(s, Ascii("false")) || s == Ascii("0") then Ok(0)
        else Err(InvalidBool)
      case Enum =>
        (match ParseEnum(s)
         case Some(v) => Ok(v)
         case None => Err(InvalidEnum(s)))
      case _ => Err(NotRuntimeAdjustable)
  }

  function SaturatingMul1000(v: I64): I64 {
    if v * 1000 > I64_MAX then I64_MAX else if v * 1000 < I64_MIN then I64_MIN else v * 1000
  }

  /** Side conditions of an update, and the message that makes it take effect. */
  function RunAction(o: Options, action: Action, v: I64): Reply {
    match action
    case NoAction => Ok(None)
    case ClusterTimeoutAction =>
      if v <= 0 then Ok(Some(ClusterNodeTimeout(0))) else Ok(Some(ClusterNodeTimeout(SaturatingMul1000(v))))
    case AofSyncMaxLagAction => Ok(Some(AofSyncMaxLag(v)))
    case MaxSegmentsAction => Ok(Some(CompactionMaxSegments(v)))
    case CompactionTypeAction => if EnumName(v).None? then Err(EnumOutOfRange(v)) else Ok(Some(CompactionType(v)))
    case CommitFrequencyAction =>
      if v == 0 then Err(CommitFreqZero)
      else if o.commitFrequencyMs == 0 then Err(CommitFreqAutoCommitStart)
      else Ok(Some(CommitTask(v)))
    case ObjectCollectAction => Ok(Some(ObjectCollect(v)))
    case KeyDeletionAction => Ok(Some(ExpiredKeyDeletionScan(v)))
  }

  /** The meaning of one CONFIG SET: the table after it and the reply. */
  function Set(o: Options, table: Table, t: Slot, s: Text): (Table, Reply) {
    match ParseValue(MetaOf(t), s)
    case Err(e) => (table, Err(e))
    case Ok(v) =>
      match RunAction(o, MetaOf(t).action, v)
      case Err(e) => (table, Err(e))
      case Ok(message) => (table[t := v], Ok(message))
  }

  function Wrap32(v: int): I32 {
    var w := v % 0x1_0000_0000;
    if w <= I32_MAX then w else w - 0x1_0000_0000
  }

  /** CONFIG GET. */
  function Get(o: Options, table: Table, t: Slot): Text {
    var meta := MetaOf(t);
    if meta.readOnly then o.echo(t)
    else match meta.kind
      case Int32 => Decimal(Wrap32(table[t]))
      case Bool => if table[t] != 0 then Ascii("yes") else Ascii("no")
      case Enum => (match EnumName(table[t]) case Some(name) => name case None => Decimal(table[t]))
      case _ => Decimal(table[t])
  }

  // ------------------------------------------------------------------ what a text means

  ghost predicate AllSpace(s: Text) { forall i :: 0 <= i < |s| ==> IsSpace(s[i]) }

  ghost predicate Spells(s: Text, v: int, pre: Text, sign: Text, digits: Text, post: Text) {
    && s == pre + (sign + digits) + post
    && AllSpace(pre) && AllSpace(post) && IsNumeral(digits)
    && ((sign == [45] && v == -Value(digits)) || ((sign == [] || sign == [43]) && v == Value(digits)))
  }

  /** The text is a decimal integer with an optional sign, between blanks. */
  ghost predicate Reads(s: Text, v: int) { exists pre, sign, digits, post :: Spells(s, v, pre, sign, digits, post) }

  /** As Reads, without blanks. */
  ghost predicate ReadsExactly(s: Text, v: int) { exists sign, digits :: Spells(s, v, [], sign, digits, []) }

  lemma ParseIntIff(s: Text, v: int, min: int, max: int)
    ensures ParseInt(s, min, max) == Some(v) <==> ReadsExactly(s, v) && min <= v <= max
  {
    hide Value;
    var signed := s != [] && (s[0] == 43 || s[0] == 45);
    var sign, body := if signed then s[..1] else [], if signed then s[1..] else s;
    assert s == [] + (sign + body) + [];
    if ParseInt(s, min, max) == Some(v) {
      assert Spells(s, v, [], sign, body, []);
    }
    if ReadsExactly(s, v) && min <= v <= max {
      var sg, digits :| Spells(s, v, [], sg, digits, []);
      assert s == sg + digits;
      assert sg == sign && digits == body by {
        assert signed <==> sg != [] by { assert sg == [] ==> s[0] == digits[0]; }
        assert digits == s[|sg|..];
      }
    }
  }

  lemma {:induction false} TrimStartOf(pre: Text, core: Text)
    requires AllSpace(pre) && (core == [] || !IsSpace(core[0]))
    ensures TrimStart(pre + core) == core
  {
    if pre == [] {
      assert pre + core == core;
    } else {
      TrimStartOf(pre[1..], core);
      assert (pre + core)[1..] == pre[1..] + core;
    }
  }

  lemma {:induction false} TrimEndOf(core: Text, post: Text)
    requires AllSpace(post) && (core == [] || !IsSpace(core[|core| - 1]))
    ensures TrimEnd(core + post) == core
  {
    if post == [] {
      assert core + post == core;
    } else {
      TrimEndOf(core, post[..|post| - 1]);
      assert (core + post)[..|core + post| - 1] == core + post[..|post| - 1];
    }
  }

  lemma {:induction false} TrimStartSplits(s: Text) returns (pre: Text)
    ensures AllSpace(pre) && s == pre + TrimStart(s)
  {
    if s != [] && IsSpace(s[0]) {
      var p := TrimStartSplits(s[1..]);
      pre := [s[0]] + p;
    } else {
      pre := [];
    }
  }

  lemma {:induction false} TrimEndSplits(s: Text) returns (post: Text)
    ensures AllSpace(post) && s == TrimEnd(s) + post
  {
    if s != [] && IsSpace(s[|s| - 1]) {
      var p := TrimEndSplits(s[..|s| - 1]);
      post := p + [s[|s| - 1]];
    } else {
      post := [];
    }
  }

  /** Trimming and parsing accept exactly the texts that read as the number. */
  lemma TrimmedIff(s: Text, v: int, min: int, max: int)
    ensures ParseInt(Trim(s), min, max) == Some(v) <==> Reads(s, v) && min <= v <= max
  {
    hide Value, ParseInt, TrimStart, TrimEnd;
    ParseIntIff(Trim(s), v, min, max);
    if ReadsExactly(Trim(s), v) {
      var pre := TrimStartSplits(s);
      var post := TrimEndSplits(TrimStart(s));
      var sign, digits :| Spells(Trim(s), v, [], sign, digits, []);
      assert Spells(s, v, pre, sign, digits, post);
    }
    if Reads(s, v) {
      var pre, sign, digits, post :| Spells(s, v, pre, sign, digits, post);
      var core := sign + digits;
      assert core[|core| - 1] == digits[|digits| - 1];
      assert core[0] == if sign == [] then digits[0] else sign[0];
      assert s == pre + (core + post);
      TrimStartOf(pre, core + post);
      TrimEndOf(core, post);
      assert Spells(core, v, [], sign, digits, []);
    }
  }

  /** What the text given to CONFIG SET stands for, by kind of option. */
  ghost predicate Means(kind: Kind, s: Text, v: int) {
    match kind
    case Int32 => Reads(s, v)
    case Int64 => Reads(s, v)
    case Bool =>
      || (v == 1 && (EqIgnoreCase(s, Ascii("yes")) || EqIgnoreCase(s, Ascii("true")) || s == Ascii("1")))
      || (v == 0 && (EqIgnoreCase(s, Ascii("no")) || EqIgnoreCase(s, Ascii("false")) || s == Ascii("0")))
    case Enum => ReadsExactly(s, v) || (EnumName(v).Some? && EqIgnoreCase(s, EnumName(v).value))
    case _ => false
  }

  lemma NameIsNotNumeral(s: Text, v: int, w: int)
    requires EnumName(v).Some? && EqIgnoreCase(s, EnumName(v).value)
    ensures !ReadsExactly(s, w)
    ensures forall u :: EnumName(u).Some? && EqIgnoreCase(s, EnumName(u).value) ==> u == v
  {
    hide Value;
    assert s != [] && Glob.Lower(s[0]) == Glob.Lower(EnumName(v).value[0]);
    assert s[0] > 57;
    forall sign, digits
      ensures !Spells(s, w, [], sign, digits, [])
    {
      if sign == [] && IsNumeral(digits) {
        assert ([] + (sign + digits) + [])[0] == digits[0];
      } else if sign != [] {
        assert ([] + (sign + digits) + [])[0] == sign[0];
      }
    }
  }

  lemma ParseEnumIff(s: Text, v: int)
    ensures ParseEnum(s) == Some(v) <==> Means(Enum, s, v) && 0 <= v <= 3
  {
    hide ParseInt, ReadsExactly, EqIgnoreCase;
    assert EnumName(0).value == Ascii("None") && EnumName(1).value == Ascii("Shift");
    assert EnumName(2).value == Ascii("Lookup") && EnumName(3).value == Ascii("Scan");
    var r := ParseInt(s, I64_MIN, I64_MAX);
    ParseIntIff(s, v, I64_MIN, I64_MAX);
    if r.Some? {
      ParseIntIff(s, r.value, I64_MIN, I64_MAX);
    }
    forall u | EnumName(u).Some? && EqIgnoreCase(s, EnumName(u).value)
      ensures r.None? && forall u' :: EnumName(u').Some? && EqIgnoreCase(s, EnumName(u').value) ==> u' == u
    {
      if r.Some? {
        NameIsNotNumeral(s, u, r.value);
      }
      NameIsNotNumeral(s, u, v);
    }
  }

  lemma ParseValueIff(t: Slot, s: Text, v: int)
    ensures ParseValue(MetaOf(t), s) == Ok(v) <==> Settable(t) && Means(MetaOf(t).kind, s, v) && Declared(t, v)
  {
    hide ParseInt, ParseEnum, EqIgnoreCase, Trim, Reads, ReadsExactly;
    var meta := MetaOf(t);
    match meta.kind {
      case Int32 => TrimmedIff(s, v, I32_MIN, I32_MAX);
      case Int64 => TrimmedIff(s, v, I64_MIN, I64_MAX);
      case Enum => ParseEnumIff(s, v);
      case Bool =>
        if EqIgnoreCase(s, Ascii("no")) || EqIgnoreCase(s, Ascii("false")) || s == Ascii("0") {
          BoolWordsDiffer(s);
        }
      case _ =>
    }
  }

  lemma BoolWordsDiffer(s: Text)
    requires EqIgnoreCase(s, Ascii("no")) || EqIgnoreCase(s, Ascii("false")) || s == Ascii("0")
    ensures !EqIgnoreCase(s, Ascii("yes")) && !EqIgnoreCase(s, Ascii("true")) && s != Ascii("1")
  {
    assert Ascii("0")[0] != Ascii("1")[0];
  }

  /** A text stands for one value at most. */
  lemma MeansOne(kind: Kind, s: Text, v: int, w: int)
    requires Means(kind, s, v) && Means(kind, s, w)
    ensures v == w
  {
    hide ParseInt, Trim, Reads, ReadsExactly, EqIgnoreCase;
    var min, max := if v < w then v else w, if v < w then w else v;
    match kind {
      case Int32 => TrimmedIff(s, v, min, max); TrimmedIff(s, w, min, max);
      case Int64 => TrimmedIff(s, v, min, max); TrimmedIff(s, w, min, max);
      case Enum =>
        ParseIntIff(s, v, min, max);
        ParseIntIff(s, w, min, max);
        if EnumName(v).Some? && EqIgnoreCase(s, EnumName(v).value) {
          NameIsNotNumeral(s, v, w);
        } else if EnumName(w).Some? && EqIgnoreCase(s, EnumName(w).value) {
          NameIsNotNumeral(s, w, v);
        }
      case Bool =>
        if v == 0 || w == 0 {
          BoolWordsDiffer(s);
        }
    }
  }

  /** The commit frequency may neither become zero nor leave it. */
  predicate Refused(o: Options, t: Slot, v: int) { t == AOF_COMMIT_FREQ && (v == 0 || o.commitFrequencyMs == 0) }

  /** A call is accepted exactly when its text stands for a declared value that is not refused. */
  lemma AcceptedIff(o: Options, table: Table, t: Slot, s: Text, v: int)
    ensures Set(o, table, t, s).1.Ok? && Set(o, table, t, s).0[t] == v <==>
            Settable(t) && Means(MetaOf(t).kind, s, v) && Declared(t, v) && !Refused(o, t, v)
  {
    hide ParseValue, Means;
    ParseValueIff(t, s, v);
    var r := ParseValue(MetaOf(t), s);
    if r.Ok? {
      ParseValueIff(t, s, r.value);
      ActionsAccept(o, t, r.value);
    }
  }

  lemma ActionsAccept(o: Options, t: Slot, v: I64)
    requires Settable(t) && Declared(t, v)
    ensures RunAction(o, MetaOf(t).action, v).Ok? <==> !Refused(o, t, v)
  {
  }

  /** A refused call changes nothing; an accepted one changes its own slot only, to a declared value. */
  lemma SetKeeps(o: Options, table: Table, t: Slot, s: Text)
    ensures var (after, reply) := Set(o, table, t, s);
            if reply.Err? then after == table
            else Settable(t) && after == table[t := after[t]] && Declared(t, after[t]) && !Refused(o, t, after[t])
  {
    hide ParseValue;
    var r := ParseValue(MetaOf(t), s);
    if r.Ok? {
      ParseValueIff(t, s, r.value);
      ActionsAccept(o, t, r.value);
    }
  }

  // ------------------------------------------------------------------ runs

  /** The table after a sequence of CONFIG SET calls, accepted or not. */
  function Run(o: Options, table: Table, calls: seq<(Slot, Text)>): Table {
    if calls == [] then table
    else
      var last := |calls| - 1;
      Set(o, Run(o, table, calls[..last]), calls[last].0, calls[last].1).0
  }

  /** Whatever the calls, a slot holds its first value or a declared one, and unsettable slots never move. */
  lemma {:induction false} RunKeeps(o: Options, table: Table, calls: seq<(Slot, Text)>, t: Slot)
    ensures var v := Run(o, table, calls)[t]; v == table[t] || (Settable(t) && Declared(t, v) && !Refused(o, t, v))
  {
    if calls != [] {
      hide Set, Declared;
      var last := |calls| - 1;
      RunKeeps(o, table, calls[..last], t);
      SetKeeps(o, Run(o, table, calls[..last]), calls[last].0, calls[last].1);
    }
  }

  ghost predicate AllDeclared(table: Table) { forall t: Slot :: Settable(t) ==> Declared(t, table[t]) }

  /** Seeds that start inside the declared values stay there over every run. */
  lemma {:induction false} BoundsHold(o: Options, calls: seq<(Slot, Text)>)
    requires AllDeclared(Seeds(o))
    ensures AllDeclared(Run(o, Seeds(o), calls))
  {
    hide Run, Declared, Seeds;
    forall t: Slot | Settable(t)
      ensures Declared(t, Run(o, Seeds(o), calls)[t])
    {
      RunKeeps(o, Seeds(o), calls, t);
    }
  }

  /** The startup options respect the bounds of the slots they seed. */
  predicate OptionsInRange(o: Options) {
    && o.clusterTimeout >= 0 && o.replicaSyncDelayMs >= 0 && o.aofReplayMaxLagBytes >= -1
    && o.aofSyncMaxLagBytes >= -1 && o.aofTailWitnessFreqMs >= 0 && o.replicaDisklessSyncDelay >= 0
    && o.replicaAttachTimeoutSecs <= I32_MAX && o.clusterReplicationReestablishmentTimeout >= 0
    && o.compactionMaxSegments >= 0 && o.slowLogThreshold >= 0 && o.objectScanCountLimit >= 0
    && o.aofSizeLimitEnforceFrequencySecs >= 0 && o.commitFrequencyMs >= -1
    && o.expiredObjectCollectionFrequencySecs >= 0 && o.expiredKeyDeletionScanFrequencySecs >= -1
  }

  lemma SeedsDeclaredIff(o: Options)
    ensures AllDeclared(Seeds(o)) <==> OptionsInRange(o)
  {
    if OptionsInRange(o) {
      forall t: Slot | Settable(t)
        ensures Declared(t, Seeds(o)[t])
      {
      }
    }
    if AllDeclared(Seeds(o)) {
      OptionsFollow(o);
    }
  }

  lemma SeedDeclared(o: Options, t: Slot)
    requires AllDeclared(Seeds(o)) && Settable(t)
    ensures Declared(t, SeedOf(o, t))
  {
  }

  lemma OptionsFollow(o: Options)
    requires AllDeclared(Seeds(o))
    ensures OptionsInRange(o)
  {
    hide AllDeclared, Seeds;
    SeedDeclared(o, 7);
    SeedDeclared(o, 8);
    SeedDeclared(o, 9);
    SeedDeclared(o, 10);
    SeedDeclared(o, 11);
    SeedDeclared(o, 12);
    SeedDeclared(o, 13);
    SeedDeclared(o, 14);
    SeedDeclared(o, 15);
    SeedDeclared(o, 17);
    SeedDeclared(o, 18);
    SeedDeclared(o, 20);
    SeedDeclared(o, 21);
    SeedDeclared(o, 22);
    SeedDeclared(o, 23);
  }

  /** Auto-commit on every operation is fixed at startup: no run enters it and no run leaves it. */
  lemma {:induction false} CommitModeIsFixed(o: Options, calls: seq<(Slot, Text)>)
    ensures Run(o, Seeds(o), calls)[AOF_COMMIT_FREQ] == 0 <==> o.commitFrequencyMs == 0
    ensures o.commitFrequencyMs == 0 ==> Run(o, Seeds(o), calls)[AOF_COMMIT_FREQ] == Seeds(o)[AOF_COMMIT_FREQ]
  {
    hide Run, Declared;
    RunKeeps(o, Seeds(o), calls, AOF_COMMIT_FREQ);
  }

  // ------------------------------------------------------------------ GET, then SET

  lemma DecimalReads(v: int)
    ensures ReadsExactly(Decimal(v), v) && Reads(Decimal(v), v)
  {
    hide Value, Digits;
    var sign, digits: Text := if v < 0 then [45] else [], if v < 0 then Digits(-v) else Digits(v);
    DigitsAreDigits(if v < 0 then -v else v);
    ValueOfDigits(if v < 0 then -v else v);
    assert Decimal(v) == [] + (sign + digits) + [];
    assert Spells(Decimal(v), v, [], sign, digits, []);
  }

  /** The number that GET shows for a slot. */
  function Shown(t: Slot, raw: I64): int {
    match MetaOf(t).kind
    case Int32 => Wrap32(raw)
    case Bool => if raw != 0 then 1 else 0
    case _ => raw
  }

  lemma GetMeans(o: Options, table: Table, t: Slot)
    requires Settable(t)
    ensures Means(MetaOf(t).kind, Get(o, table, t), Shown(t, table[t]))
  {
    hide Decimal, Reads, ReadsExactly;
    var raw := table[t];
    match MetaOf(t).kind {
      case Int32 => DecimalReads(Wrap32(raw));
      case Enum => DecimalReads(raw);
      case Int64 => DecimalReads(raw);
      case _ =>
    }
  }

  /** The words of the CONFIG texts, as bytes. */
  lemma Spelled()
    ensures Ascii("yes") == [121, 101, 115] && Ascii("no") == [110, 111]
    ensures Ascii("true") == [116, 114, 117, 101] && Ascii("false") == [102, 97, 108, 115, 101]
    ensures Ascii("1") == [49] && Ascii("0") == [48]
    ensures EnumName(0).value == [78, 111, 110, 101] && EnumName(1).value == [83, 104, 105, 102, 116]
    ensures EnumName(2).value == [76, 111, 111, 107, 117, 112] && EnumName(3).value == [83, 99, 97, 110]
  {
  }

  /** What GET shows: yes or no, a member's name and no numeral, or a decimal number without plus or leading zeros. */
  lemma GetShows(o: Options, table: Table, t: Slot)
    requires Settable(t)
    ensures t == 19 ==> Get(o, table, t) == if table[t] != 0 then [121, 101, 115] else [110, 111]
    ensures t == COMPACTION_TYPE && 0 <= table[t] <= 3 ==>
              && Get(o, table, t) == [[78, 111, 110, 101], [83, 104, 105, 102, 116],
                                      [76, 111, 111, 107, 117, 112], [83, 99, 97, 110]][table[t]]
              && forall w: int :: !ReadsExactly(Get(o, table, t), w)
    ensures t != 19 && t != COMPACTION_TYPE ==>
              var s := Get(o, table, t);
              && s != [] && s[0] != 43 && (s[0] == 48 ==> s == [48])
              && ReadsExactly(s, if t == AOF_SYNC_MAX_LAG_BYTES then table[t] else Wrap32(table[t]))
  {
    hide Ascii, ReadsExactly, Decimal;
    Spelled();
    if t == COMPACTION_TYPE && 0 <= table[t] <= 3 {
      forall w: int ensures !ReadsExactly(Get(o, table, t), w) {
        NameIsNotNumeral(EnumName(table[t]).value, table[t], w);
      }
    } else if t != 19 {
      var v := if t == AOF_SYNC_MAX_LAG_BYTES then table[t] else Wrap32(table[t]);
      DecimalReads(v);
      DecimalPlain(v);
    }
  }

  lemma DecimalPlain(v: int)
    ensures Decimal(v) != [] && Decimal(v)[0] != 43 && (Decimal(v)[0] == 48 ==> Decimal(v) == [48])
  {
    DigitPlaces(if v < 0 then -v else v, 0);
    DigitsAreDigits(if v < 0 then -v else v);
  }

  /** Which bytes in front of a digit an integer option takes: the five blanks, a plus and a zero. */
  lemma BytesBeforeDigit(b: Byte)
    ensures ParseInt(Trim([b, 53]), 0, 9) == Some(5) <==> b in {9, 10, 12, 13, 32, 43, 48}
  {
    var s: Text := [b, 53];
    assert s[1..] == [53] && s[..1] == [b];
    assert TrimStart([53]) == [53] && TrimEnd([53]) == [53] && TrimEnd(s) == s;
    assert Trim(s) == if IsSpace(b) then [53] else s;
    assert Value([53]) == 5 by { assert [53][..0] == []; }
    assert Value(s) == 10 * (b - 48) + 5 by { assert [b][..0] == [] && Value([b]) == b - 48; }
  }

  /** Why a call is refused. */
  lemma RefusalReasons(o: Options, table: Table, t: Slot, s: Text, v: int)
    ensures t in {2, 3, 4, 6} || t >= 24 ==> Set(o, table, t, s).1 == Err(ReadOnly)
    ensures t in {0, 1, 5} ==> Set(o, table, t, s).1 == Err(NotRuntimeAdjustable)
    ensures IntegerSlot(t) && Reads(s, v) && WidthMin(t) <= v <= WidthMax(t) && !Declared(t, v) ==>
              Set(o, table, t, s).1 == Err(OutOfRange(MetaOf(t).min, WidthMax(t)))
    ensures IntegerSlot(t) && (forall w :: Reads(s, w) ==> !(WidthMin(t) <= w <= WidthMax(t))) ==>
              Set(o, table, t, s).1 == Err(InvalidInteger)
    ensures t == 19 && !Means(Bool, s, 0) && !Means(Bool, s, 1) ==> Set(o, table, t, s).1 == Err(InvalidBool)
    ensures t == COMPACTION_TYPE && (forall w :: 0 <= w <= 3 ==> !Means(Enum, s, w)) ==>
              Set(o, table, t, s).1 == Err(InvalidEnum(s))
    ensures t == AOF_COMMIT_FREQ && Reads(s, v) && Declared(t, v) && Refused(o, t, v) ==>
              Set(o, table, t, s).1 == Err(if v == 0 then CommitFreqZero else CommitFreqAutoCommitStart)
  {
    hide ParseInt, Trim, Reads, ReadsExactly, ParseEnum, EqIgnoreCase, Ascii;
    if IntegerSlot(t) {
      TrimmedIff(s, v, WidthMin(t), WidthMax(t));
      var r := ParseInt(Trim(s), WidthMin(t), WidthMax(t));
      if r.Some? {
        TrimmedIff(s, r.value, WidthMin(t), WidthMax(t));
      }
    } else if t == COMPACTION_TYPE {
      var r := ParseEnum(s);
      if r.Some? {
        ParseEnumIff(s, r.value);
      }
    }
  }

  predicate IntegerSlot(t: Slot) { Settable(t) && t != COMPACTION_TYPE && t != 19 }

  /** The width an integer option is read in. */
  function WidthMin(t: Slot): I64 { if t == AOF_SYNC_MAX_LAG_BYTES then I64_MIN else I32_MIN }

  function WidthMax(t: Slot): I64 { if t == AOF_SYNC_MAX_LAG_BYTES then I64_MAX else I32_MAX }

  /**
    * Feeding the text of GET back to SET, on any table whatsoever: the table stays as it was exactly
    * when the slot's own value is what GET shows, or the shown value would be turned down.
    */
  lemma GetThenSet(o: Options, table: Table, t: Slot)
    ensures var (after, reply) := Set(o, table, t, Get(o, table, t));
            && (reply.Ok? <==> Settable(t) && Declared(t, Shown(t, table[t])) && !Refused(o, t, Shown(t, table[t])))
            && (reply.Ok? ==> after == table[t := Shown(t, table[t])])
            && (after == table <==> reply.Err? || Shown(t, table[t]) == table[t])
  {
    hide Get, Set, Declared, Means;
    var s, shown := Get(o, table, t), Shown(t, table[t]);
    var (after, reply) := Set(o, table, t, s);
    SetKeeps(o, table, t, s);
    AcceptedIff(o, table, t, s, shown);
    if Settable(t) {
      GetMeans(o, table, t);
      if reply.Ok? {
        AcceptedIff(o, table, t, s, after[t]);
        MeansOne(MetaOf(t).kind, s, after[t], shown);
      }
    }
    if reply.Ok? {
      assert after == table[t := shown];
      assert after == table ==> after[t] == table[t];
    }
  }

  lemma DeclaredIsShown(t: Slot, raw: I64)
    requires Settable(t) && Declared(t, raw)
    ensures Shown(t, raw) == raw
  {
  }

  lemma SeedIsShown(o: Options, t: Slot)
    requires t != REPL_ATTACH_TIMEOUT || o.replicaAttachTimeoutSecs <= I32_MAX
    ensures Shown(t, Seeds(o)[t]) == Seeds(o)[t]
  {
  }

  /** After any run, the text of GET fed back to SET leaves every slot as it is. The one seed wider than its
      option is the attach timeout; it must fit 32 bits. */
  lemma {:induction false} GetThenSetOnRuns(o: Options, calls: seq<(Slot, Text)>, t: Slot)
    requires t != REPL_ATTACH_TIMEOUT || o.replicaAttachTimeoutSecs <= I32_MAX
    ensures var table := Run(o, Seeds(o), calls);
            var (after, reply) := Set(o, table, t, Get(o, table, t));
            && after == table
            && (reply.Ok? <==> Settable(t) && Declared(t, table[t]) && !Refused(o, t, table[t]))
            && (OptionsInRange(o) ==> (reply.Ok? <==> Settable(t) && !Refused(o, t, table[t])))
  {
    hide Run, Set, Get, Declared, Seeds, OptionsInRange, Shown;
    var table := Run(o, Seeds(o), calls);
    RunKeeps(o, Seeds(o), calls, t);
    if table[t] == Seeds(o)[t] {
      SeedIsShown(o, t);
    } else {
      DeclaredIsShown(t, table[t]);
    }
    if OptionsInRange(o) {
      SeedsDeclaredIff(o);
      BoundsHold(o, calls);
    }
    GetThenSet(o, table, t);
    var (after, reply) := Set(o, table, t, Get(o, table, t));
    assert after == table;
  }

  /** That condition is needed: options handed to the table past startup validation can carry an attach timeout
      that GET shows cut to 32 bits, and SET stores the cut. */
  lemma OversizedAttachTimeout(o: Options)
    requires o.replicaAttachTimeoutSecs == 0x1_0000_0005
    ensures var table := Seeds(o);
            var after := Set(o, table, REPL_ATTACH_TIMEOUT, Get(o, table, REPL_ATTACH_TIMEOUT)).0;
            table[REPL_ATTACH_TIMEOUT] == 0x1_0000_0005 && after[REPL_ATTACH_TIMEOUT] == 5
  {
    hide Set, Get;
    GetThenSet(o, Seeds(o), REPL_ATTACH_TIMEOUT);
  }

  // ------------------------------------------------------------------ servers started from arguments

  /** The startup knobs, from the command line or a file, that reach the table. */
  datatype NodeArgs = NodeArgs(
    aofCommitMs: Option<I32>, slowLogThreshold: I32, objectScanCountLimit: I32,
    expiredObjectCollectionFrequencySecs: I32, expiredKeyDeletionScanFrequencySecs: I32,
    replicaAttachTimeoutSecs: I64, replicaSyncDelayMs: I32, clusterReplicationReestablishmentTimeout: I32,
    aofTailWitnessFreqMs: I32, aofSyncMaxLagBytes: I64, compactionType: CompactionMember, compactionMaxSegments: I32,
    enableScatterGatherGet: bool, aofReplayMaxLagBytes: I32, replicaDisklessSyncDelay: I32,
    aofSizeLimitEnforceFrequencySecs: U64)

  /** What startup validation demands of these knobs. */
  predicate Validated(args: NodeArgs) {
    && args.aofTailWitnessFreqMs >= 0
    && args.expiredObjectCollectionFrequencySecs >= 0
    && args.compactionMaxSegments >= 0
    && args.slowLogThreshold >= 0
    && args.replicaSyncDelayMs >= 0
    && args.aofReplayMaxLagBytes >= -1
    && args.objectScanCountLimit >= 0
    && args.clusterReplicationReestablishmentTimeout >= 0
    && args.replicaDisklessSyncDelay >= 0
    && (args.aofCommitMs.Some? ==> args.aofCommitMs.value >= -1)
    && (args.slowLogThreshold > 0 ==> args.slowLogThreshold >= 100)
    && args.expiredKeyDeletionScanFrequencySecs >= -1
    && args.replicaAttachTimeoutSecs <= I32_MAX
    && args.aofSizeLimitEnforceFrequencySecs <= I32_MAX
  }

  /** The options a server runs with: the knobs over the defaults. The cluster timeout is never projected. */
  function Project(args: NodeArgs, echo: nat -> Text): Options {
    Options(60, args.replicaSyncDelayMs, args.aofReplayMaxLagBytes, args.aofSyncMaxLagBytes,
            args.aofTailWitnessFreqMs, args.replicaDisklessSyncDelay, args.replicaAttachTimeoutSecs,
            args.clusterReplicationReestablishmentTimeout, args.compactionMaxSegments, args.compactionType,
            args.slowLogThreshold, args.objectScanCountLimit, args.enableScatterGatherGet,
            Min(args.aofSizeLimitEnforceFrequencySecs, I32_MAX),
            if args.aofCommitMs.Some? then args.aofCommitMs.value else 0,
            args.expiredObjectCollectionFrequencySecs, args.expiredKeyDeletionScanFrequencySecs, echo)
  }

  /** Validation covers every knob but one. */
  lemma ValidatedInRangeIff(args: NodeArgs, echo: nat -> Text)
    requires Validated(args)
    ensures OptionsInRange(Project(args, echo)) <==> args.aofSyncMaxLagBytes >= -1
  {
  }

  /** On a server started from validated arguments, after every run: every option but that one holds a declared
      value, that one holds a declared value or its startup value, and GET fed back to SET changes nothing. */
  lemma ValidatedServer(args: NodeArgs, echo: nat -> Text, calls: seq<(Slot, Text)>, t: Slot)
    requires Validated(args)
    ensures var o := Project(args, echo);
            var table := Run(o, Seeds(o), calls);
            && Set(o, table, t, Get(o, table, t)).0 == table
            && (Settable(t) ==>
                  Declared(t, table[t]) || (t == AOF_SYNC_MAX_LAG_BYTES && table[t] == args.aofSyncMaxLagBytes))
  {
    hide Run, Set, Get;
    var o := Project(args, echo);
    GetThenSetOnRuns(o, calls, t);
    RunKeeps(o, Seeds(o), calls, t);
  }

  /** The unchecked knob at work: a validated server that starts with a lag budget of -2 holds an undeclared value,
      and is refused its own text. */
  lemma UncheckedLagBudget(args: NodeArgs, echo: nat -> Text)
    requires Validated(args) && args.aofSyncMaxLagBytes == -2
    ensures var o := Project(args, echo);
            && !AllDeclared(Seeds(o))
            && Set(o, Seeds(o), AOF_SYNC_MAX_LAG_BYTES, Get(o, Seeds(o), AOF_SYNC_MAX_LAG_BYTES)).1.Err?
  {
    hide Set, Get;
    var o := Project(args, echo);
    ValidatedInRangeIff(args, echo);
    SeedsDeclaredIff(o);
    GetThenSetOnRuns(o, [], AOF_SYNC_MAX_LAG_BYTES);
  }

  /** The message of an accepted call carries the value now in the slot; the cluster timeout in milliseconds. */
  lemma MessageCarriesSlot(o: Options, table: Table, t: Slot, s: Text)
    requires Set(o, table, t, s).1.Ok?
    ensures var (after, reply) := Set(o, table, t, s);
            match reply.value
            case None => MetaOf(t).action.NoAction?
            case Some(ClusterNodeTimeout(ms)) => t == CLUSTER_NODE_TIMEOUT && ms == 1000 * after[t]
            case Some(AofSyncMaxLag(n)) => t == 10 && n == after[t]
            case Some(CompactionMaxSegments(n)) => t == 15 && n == after[t]
            case Some(CompactionType(n)) => t == COMPACTION_TYPE && n == after[t]
            case Some(CommitTask(n)) => t == AOF_COMMIT_FREQ && n == after[t] != 0
            case Some(ObjectCollect(n)) => t == 22 && n == after[t]
            case Some(ExpiredKeyDeletionScan(n)) => t == 23 && n == after[t]
  {
    SetKeeps(o, table, t, s);
    hide ParseValue;
  }

  // ------------------------------------------------------------------ durations

  function Micros(unit: Unit): nat {
    match unit
    case Microseconds => 1
    case Milliseconds => 1000
    case _ => 1_000_000
  }

  /** Division as the machine does it, toward zero. */
  function TruncDiv(a: int, b: nat): int
    requires b > 0
  {
    if a >= 0 then a / b else -(-a / b)
  }

  /** None when the product leaves 64 bits. */
  function ConvertDuration(stored: Unit, raw: I64, requested: Unit): Option<int> {
    var micros := raw * Micros(stored);
    if stored == requested then Some(raw)
    else if micros < I64_MIN || micros > I64_MAX then None
    else Some(TruncDiv(micros, Micros(requested)))
  }

  /** The conversion overflows exactly outside these bounds, and otherwise rounds toward zero. */
  lemma ConvertDurationExact(stored: Unit, raw: I64, requested: Unit)
    ensures stored == requested ==> ConvertDuration(stored, raw, requested) == Some(raw)
    ensures stored != requested ==>
              (ConvertDuration(stored, raw, requested).None? <==>
               raw > I64_MAX / Micros(stored) || raw < TruncDiv(I64_MIN, Micros(stored)))
    ensures stored != requested && ConvertDuration(stored, raw, requested).Some? ==>
              var d, unit, micros := ConvertDuration(stored, raw, requested).value, Micros(requested), raw * Micros(stored);
              && (raw >= 0 ==> d * unit <= micros < (d + 1) * unit)
              && (raw <= 0 ==> (d - 1) * unit < micros <= d * unit)
  {
    TruncDivBounds(raw * Micros(stored), Micros(requested));
  }

  lemma TruncDivBounds(a: int, b: nat)
    requires b in {1, 1000, 1_000_000}
    ensures a >= 0 ==> TruncDiv(a, b) * b <= a < (TruncDiv(a, b) + 1) * b
    ensures a <= 0 ==> (TruncDiv(a, b) - 1) * b < a <= TruncDiv(a, b) * b
  {
  }

  /** The unit of every duration option, by what its values convert to. */
  lemma SlotUnits(t: Slot, raw: I64)
    requires 0 <= raw <= I32_MAX
    ensures t in {7, 12, 13, 14} ==>
              && ConvertDuration(MetaOf(t).unit, raw, Seconds) == Some(raw)
              && ConvertDuration(MetaOf(t).unit, raw, Milliseconds) == Some(1000 * raw)
    ensures t in {8, 11} ==>
              && ConvertDuration(MetaOf(t).unit, raw, Milliseconds) == Some(raw)
              && ConvertDuration(MetaOf(t).unit, raw, Seconds) == Some(raw / 1000)
    ensures t == 17 ==>
              && ConvertDuration(MetaOf(t).unit, raw, Microseconds) == Some(raw)
              && ConvertDuration(MetaOf(t).unit, raw, Milliseconds) == Some(raw / 1000)
    ensures Settable(t) && t !in {7, 8, 11, 12, 13, 14, 17} ==> MetaOf(t).unit == NoUnit
  {
  }

  /** Over every startup and every run, the one conversion that overflows is that of an attach timeout which was
      started beyond 9223372036854 seconds, has not been set since and is read in a finer unit. */
  lemma DurationOverflowsIff(o: Options, calls: seq<(Slot, Text)>, t: Slot, requested: Unit)
    requires MetaOf(t).unit != NoUnit && requested != NoUnit
    ensures var raw := Run(o, Seeds(o), calls)[t];
            ConvertDuration(MetaOf(t).unit, raw, requested).None? <==>
              && t == REPL_ATTACH_TIMEOUT && requested != Seconds
              && raw == o.replicaAttachTimeoutSecs > 9_223_372_036_854
  {
    hide Run;
    RunKeeps(o, Seeds(o), calls, t);
  }

  /** For every value a duration option declares, the conversion cannot overflow and rounds down. */
  lemma ConvertDurationFloors(t: Slot, raw: I64, requested: Unit)
    requires MetaOf(t).unit != NoUnit && Settable(t) && Declared(t, raw) && requested != NoUnit
    ensures var d := ConvertDuration(MetaOf(t).unit, raw, requested);
            d.Some? && d.value * Micros(requested) <= raw * Micros(MetaOf(t).unit) < (d.value + 1) * Micros(requested)
  {
  }

  // ------------------------------------------------------------------ the table object

  function SeedList(o: Options): seq<(Slot, I64)> {
    [(7, o.clusterTimeout), (8, o.replicaSyncDelayMs), (9, o.aofReplayMaxLagBytes), (11, o.aofTailWitnessFreqMs),
     (10, o.aofSyncMaxLagBytes), (12, o.replicaDisklessSyncDelay),
     (13, SecondsFromTimeSpan(o.replicaAttachTimeoutSecs)), (14, o.clusterReplicationReestablishmentTimeout),
     (15, o.compactionMaxSegments), (16, o.compactionType), (17, o.slowLogThreshold), (18, o.objectScanCountLimit),
     (19, if o.enableScatterGatherGet then 1 else 0), (20, o.aofSizeLimitEnforceFrequencySecs),
     (21, o.commitFrequencyMs), (22, o.expiredObjectCollectionFrequencySecs),
     (23, o.expiredKeyDeletionScanFrequencySecs)]
  }

  class RuntimeServerConfig {
    const values: array<I64>
    const options: Options

    constructor (o: Options)
      ensures fresh(values) && values.Length == TABLE_SIZE && options == o
      ensures values[..] == Seeds(o)
    {
      values := new I64[TABLE_SIZE](_ => 0);
      options := o;
      new;
      var seeds := SeedList(o);
      SeedListIsSeeds(o);
      for i := 0 to |seeds|
        invariant forall t: Slot :: values[t] == 0 || values[t] == SeedOf(o, t)
        invariant forall j :: 0 <= j < i ==> values[seeds[j].0] == SeedOf(o, seeds[j].0)
      {
        hide SeedList, SeedOf;
        values[seeds[i].0] := seeds[i].1;
      }
    }

    /** Stores first, so that the action sees the new value, and rolls back when the action refuses. */
    method TrySet(t: Slot, value: Text) returns (r: Reply)
      requires values.Length == TABLE_SIZE
      modifies values
      ensures (values[..], r) == Set(options, old(values[..]), t, value)
      ensures r.Err? ==> values[..] == old(values[..])
    {
      hide ParseValue, RunAction, MetaOf;
      var meta := MetaOf(t);
      var parsed := ParseValue(meta, value);
      if parsed.Err? {
        return Err(parsed.error);
      }
      var oldValue := values[t];
      values[t] := parsed.value;
      r := RunAction(options, meta.action, parsed.value);
      if r.Err? {
        values[t] := oldValue;
      }
      assert values[..] == if r.Err? then old(values[..]) else old(values[..])[t := parsed.value];
    }
  }

  lemma SeedListIsSeeds(o: Options)
    ensures forall j :: 0 <= j < |SeedList(o)| ==> SeedList(o)[j].1 == SeedOf(o, SeedList(o)[j].0)
    ensures forall t: Slot :: SeedOf(o, t) == 0 || exists j :: 0 <= j < |SeedList(o)| && SeedList(o)[j].0 == t
  {
    forall t: Slot
      ensures SeedOf(o, t) == 0 || exists j :: 0 <= j < |SeedList(o)| && SeedList(o)[j].0 == t
    {
      if Settable(t) {
        var j := if t == 10 then 4 else if t == 11 then 3 else t - 7;
        assert SeedList(o)[j].0 == t;
      }
    }
  }
}
