/** The group-commit pipeline: one leader flushes, concurrent committers wait as followers.

    `Pipeline` is the mutex-protected state with its critical sections as they run in place.
    The rest of the file is the protocol: every critical section, watermark read, await point and
    interruption is one atomic `Action`, and the theorems quantify over all finite executions.
    The durable watermark and the write tail belong to the environment.
 */
module GroupCommit {

  /** What a committer is told: a durable position, or the broken-pipeline sentinel. */
  datatype Outcome = Committed(position: nat) | Broken

  /** One registered committer. `tx` is false exactly for the leader's own entry. */
  datatype Waiter = Waiter(id: nat, target: nat, tx: bool)

  /** Answers sent so far on each registered follower's one-shot channel. */
  type Channels = map<nat, seq<Outcome>>

  /** Control state of the task that runs the cascade under an armed guard. */
  datatype Pc =
    | Collect
    | Batched(batchTarget: nat)
    | Stepping(stepTarget: nat, watermark: nat)
    | Settling(committed: nat, before: nat)
    | Yielding
    | Failing
    | Unwinding

  datatype Task =
    | Following(target: nat)
    | Abandoned(target: nat)
    | Leading(target: nat, pc: Pc, last: nat)
    | Returning(target: nat, result: Outcome)
    | Finished(target: nat, result: Outcome)
    | Dropped(target: nat)

  /** `leader` names the task that last took the flag and `lost` the followers whose sender vanished
      unsent; both are history that no branch reads. */
  datatype State = State(
    durable: nat,
    leading: bool,
    leader: set<nat>,
    waiters: seq<Waiter>,
    tasks: map<nat, Task>,
    channels: Channels,
    lost: set<nat>)

  datatype Action =
    | Enter(t: nat, target: nat)
    | Environment(durable: nat)
    | CollectBatch(t: nat, tail: nat)
    | ReadWatermark(t: nat)
    | StepOk(t: nat, committed: nat, durable: nat)
    | StepErr(t: nat, durable: nat)
    | Settle(t: nat, tail: nat)
    | SettlePanic(t: nat)
    | Resume(t: nat)
    | Fail(t: nat)
    | Disarm(t: nat)
    | GuardDrop(t: nat)
    | Wake(t: nat)
    | Abandon(t: nat)
    | LoseSender(t: nat)

  // ------------------------------------------------------------------ list and channel functions

  function Max(a: nat, b: nat): nat { if a < b then b else a }

  function MaxTarget(ws: seq<Waiter>): nat {
    if ws == [] then 0 else Max(ws[0].target, MaxTarget(ws[1..]))
  }

  function Reached(ws: seq<Waiter>, c: nat): seq<Waiter> {
    if ws == [] then [] else (if ws[0].target <= c then [ws[0]] else []) + Reached(ws[1..], c)
  }

  function Lagging(ws: seq<Waiter>, c: nat): seq<Waiter> {
    if ws == [] then [] else (if ws[0].target <= c then [] else [ws[0]]) + Lagging(ws[1..], c)
  }

  function Send(ch: Channels, w: Waiter, r: Outcome): Channels {
    if w.tx && w.id in ch then ch[w.id := ch[w.id] + [r]] else ch
  }

  function Deliver(ch: Channels, ws: seq<Waiter>, r: Outcome): Channels {
    if ws == [] then ch else Deliver(Send(ch, ws[0], r), ws[1..], r)
  }

  lemma RetainNone(ch: Channels, c: nat)
    ensures Lagging([], c) == [] && Deliver(ch, Reached([], c), Committed(c)) == ch
  {
  }

  /** One turn of the retain loop: the head is answered or kept, the rest is left. */
  lemma RetainOne(ch: Channels, ws: seq<Waiter>, i: nat, c: nat)
    requires i < |ws|
    ensures Lagging(ws[i..], c) == (if ws[i].target <= c then [] else [ws[i]]) + Lagging(ws[i + 1..], c)
    ensures Deliver(ch, Reached(ws[i..], c), Committed(c))
         == Deliver(if ws[i].target <= c then Send(ch, ws[i], Committed(c)) else ch,
                    Reached(ws[i + 1..], c), Committed(c))
  {
    assert ws[i..][1..] == ws[i + 1..];
    if ws[i].target <= c {
      assert Reached(ws[i..], c)[1..] == Reached(ws[i + 1..], c);
    } else {
      assert Reached(ws[i..], c) == Reached(ws[i + 1..], c);
    }
  }

  predicate HasTx(ws: seq<Waiter>, id: nat) {
    exists w :: w in ws && w.id == id && w.tx
  }

  predicate HasOwn(ws: seq<Waiter>, id: nat) {
    exists w :: w in ws && w.id == id && !w.tx
  }

  predicate Distinct(ws: seq<Waiter>) {
    forall i, j :: 0 <= i < j < |ws| ==> ws[i].id != ws[j].id
  }

  function Without(ws: seq<Waiter>, id: nat): seq<Waiter> {
    if ws == [] then [] else (if ws[0].id == id then [] else [ws[0]]) + Without(ws[1..], id)
  }

  // ------------------------------------------------------------------ the locked state, in place

  datatype Entered = Done(position: nat) | Follow | Lead

  /** The task that goes on with an answer of `Enter`. */
  function EnteredTask(r: Entered, target: nat): Task {
    match r
    case Done(c) => Finished(target, Committed(c))
    case Follow => Following(target)
    case Lead => Leading(target, Collect, 0)
  }

  class Pipeline {
    var leading: bool
    var waiters: seq<Waiter>
    var channels: Channels

    /** The object is the locked part of a protocol state. */
    ghost predicate IsLockedPartOf(s: State)
      reads this
    {
      leading == s.leading && waiters == s.waiters && channels == s.channels
    }

    constructor ()
      ensures !leading && waiters == [] && channels == map[]
      ensures forall d: nat :: IsLockedPartOf(Init(d))
    {
      leading, waiters, channels := false, [], map[];
    }

    /** `watermark` is the durable watermark read while the lock is held. */
    method Enter(id: nat, target: nat, watermark: nat) returns (r: Entered)
      requires id !in channels
      modifies this
      ensures r == if target <= watermark then Done(watermark) else if old(leading) then Follow else Lead
      ensures leading == (old(leading) || r.Lead?)
      ensures waiters == old(waiters) + (if r.Done? then [] else [Waiter(id, target, r.Follow?)])
      ensures channels == if r.Follow? then old(channels)[id := []] else old(channels)
      ensures forall s: State :: old(IsLockedPartOf(s)) && s.durable == watermark && id !in s.tasks ==>
                var s' := EnterStep(s, id, target);
                IsLockedPartOf(s') && s'.tasks[id] == EnteredTask(r, target)
    {
      if target <= watermark {
        return Done(watermark);
      }
      if leading {
        channels := channels[id := []];
        waiters := waiters + [Waiter(id, target, true)];
        return Follow;
      }
      leading := true;
      waiters := waiters + [Waiter(id, target, false)];
      return Lead;
    }

    method BatchTarget(tail: nat) returns (batchTarget: nat)
      ensures batchTarget == Max(tail, MaxTarget(waiters))
      ensures forall w :: w in waiters ==> w.target <= batchTarget
      ensures forall s: State, t: nat :: IsLockedPartOf(s) && Leads(s, t) && s.tasks[t].pc.Collect? ==>
                Apply(s, CollectBatch(t, tail)).tasks[t].pc == Batched(batchTarget)
    {
      var m := 0;
      var i := 0;
      while i < |waiters|
        invariant 0 <= i <= |waiters|
        invariant Max(m, MaxTarget(waiters[i..])) == MaxTarget(waiters)
        invariant forall k :: 0 <= k < i ==> waiters[k].target <= m
      {
        assert waiters[i..][1..] == waiters[i + 1..];
        m := Max(m, waiters[i].target);
        i := i + 1;
      }
      batchTarget := Max(tail, m);
    }

    /** The retain pass: answers and removes every waiter the position covers, keeping the others in order. */
    method RetainLagging(committed: nat)
      modifies this
      ensures waiters == Lagging(old(waiters), committed)
      ensures channels == Deliver(old(channels), Reached(old(waiters), committed), Committed(committed))
      ensures leading == old(leading)
    {
      hide Lagging, Reached, Deliver;
      var ws, sent, kept := waiters, channels, [];
      var i := 0;
      assert ws[0..] == ws;
      while i < |ws|
        invariant 0 <= i <= |ws|
        invariant channels == old(channels) && leading == old(leading)
        invariant kept + Lagging(ws[i..], committed) == Lagging(ws, committed)
        invariant Deliver(sent, Reached(ws[i..], committed), Committed(committed))
               == Deliver(channels, Reached(ws, committed), Committed(committed))
      {
        RetainOne(sent, ws, i, committed);
        ghost var kept0 := kept;
        if ws[i].target <= committed {
          sent := Send(sent, ws[i], Committed(committed));
        } else {
          kept := kept + [ws[i]];
          assert kept + Lagging(ws[i + 1..], committed) == kept0 + ([ws[i]] + Lagging(ws[i + 1..], committed));
        }
        i := i + 1;
      }
      RetainNone(sent, committed);
      assert ws[i..] == [];
      waiters, channels := kept, sent;
    }

    /** One settled round after a batch that started at `watermark`; `drained` means leadership was released, `stalled`
        that the round made no progress. */
    method SettleRound(committed: nat, watermark: nat, tail: nat) returns (drained: bool, stalled: bool)
      modifies this
      ensures waiters == Lagging(old(waiters), committed)
      ensures channels == Deliver(old(channels), Reached(old(waiters), committed), Committed(committed))
      ensures drained == (waiters == [] && tail <= committed)
      ensures leading == (old(leading) && !drained)
      ensures forall s: State, t: nat ::
                old(IsLockedPartOf(s)) && Leads(s, t) && s.tasks[t].pc == Settling(committed, watermark) ==>
                var s' := SettleStep(s, t, tail);
                && IsLockedPartOf(s')
                && s'.tasks[t] == if drained then Returning(s.tasks[t].target, Committed(committed))
                                  else Leading(s.tasks[t].target, if stalled then Yielding else Collect, committed)
    {
      RetainLagging(committed);
      var hasLagging := exists w :: w in waiters && w.target > committed;
      if waiters != [] {
        FilteredMember(old(waiters), committed, waiters[0]);
      }
      drained := !hasLagging && tail <= committed;
      if drained {
        leading := false;
      }
      stalled := committed <= watermark;
    }

    /** The error arm and the armed guard's drop share this body. */
    method Broadcast()
      modifies this
      ensures !leading && waiters == []
      ensures channels == Deliver(old(channels), old(waiters), Broken)
      ensures forall s: State :: old(IsLockedPartOf(s)) ==> IsLockedPartOf(BroadcastStep(s))
    {
      leading := false;
      var ws := waiters;
      waiters := [];
      var i := 0;
      while i < |ws|
        invariant 0 <= i <= |ws| && ws == old(waiters)
        invariant !leading && waiters == []
        invariant Deliver(channels, ws[i..], Broken) == Deliver(old(channels), ws, Broken)
      {
        assert ws[i..][1..] == ws[i + 1..];
        channels := Send(channels, ws[i], Broken);
        i := i + 1;
      }
    }
  }

  class LeaderGuard {
    const pipeline: Pipeline
    var armed: bool

    constructor (pipeline: Pipeline)
      ensures this.pipeline == pipeline && armed
    {
      this.pipeline := pipeline;
      armed := true;
    }

    method Drop()
      modifies pipeline
      ensures pipeline.leading == (!armed && old(pipeline.leading))
      ensures pipeline.waiters == if armed then [] else old(pipeline.waiters)
      ensures pipeline.channels
           == if armed then Deliver(old(pipeline.channels), old(pipeline.waiters), Broken)
              else old(pipeline.channels)
      ensures forall s: State :: old(pipeline.IsLockedPartOf(s)) ==>
                pipeline.IsLockedPartOf(if armed then BroadcastStep(s) else s)
    {
      if armed {
        pipeline.Broadcast();
      }
    }
  }

  // ------------------------------------------------------------------ the protocol

  function Init(durable: nat): State {
    State(durable, false, {}, [], map[], map[], {})
  }

  /** Await points, plus the calls into the injected step that may panic before the cascade returns. */
  predicate Interruptible(pc: Pc) {
    pc.Collect? || pc.Batched? || pc.Stepping? || pc.Yielding? || pc.Unwinding?
  }

  predicate Leads(s: State, t: nat) { t in s.tasks && s.tasks[t].Leading? }

  predicate Enabled(s: State, a: Action) {
    match a
    case Enter(t, _) => t !in s.tasks
    case Environment(d) => s.durable <= d
    case CollectBatch(t, _) => Leads(s, t) && s.tasks[t].pc.Collect?
    case ReadWatermark(t) => Leads(s, t) && s.tasks[t].pc.Batched?
    case StepOk(t, c, d) =>
      Leads(s, t) && s.tasks[t].pc.Stepping? && s.tasks[t].pc.watermark <= c <= d && s.durable <= d
    case StepErr(t, d) => Leads(s, t) && s.tasks[t].pc.Stepping? && s.durable <= d
    case Settle(t, _) => Leads(s, t) && s.tasks[t].pc.Settling?
    case SettlePanic(t) => Leads(s, t) && s.tasks[t].pc.Settling?
    case Resume(t) => Leads(s, t) && s.tasks[t].pc.Yielding?
    case Fail(t) => Leads(s, t) && s.tasks[t].pc.Failing?
    case Disarm(t) => t in s.tasks && s.tasks[t].Returning?
    case GuardDrop(t) => Leads(s, t) && Interruptible(s.tasks[t].pc)
    case Wake(t) => t in s.tasks && s.tasks[t].Following? && t in s.channels
                    && (s.channels[t] != [] || !HasTx(s.waiters, t))
    case Abandon(t) => t in s.tasks && s.tasks[t].Following?
    case LoseSender(t) => HasTx(s.waiters, t)
  }

  function EnterStep(s: State, t: nat, target: nat): State
    requires t !in s.tasks
  {
    if target <= s.durable then
      s.(tasks := s.tasks[t := Finished(target, Committed(s.durable))])
    else if s.leading then
      s.(waiters := s.waiters + [Waiter(t, target, true)],
         tasks := s.tasks[t := Following(target)],
         channels := s.channels[t := []])
    else
      s.(leading := true, leader := {t},
         waiters := s.waiters + [Waiter(t, target, false)],
         tasks := s.tasks[t := Leading(target, Collect, 0)])
  }

  function SetPc(s: State, t: nat, pc: Pc): State
    requires Leads(s, t)
  {
    s.(tasks := s.tasks[t := s.tasks[t].(pc := pc)])
  }

  /** The retain pass over the waiter list. */
  function Retain(s: State, c: nat): State {
    s.(waiters := Lagging(s.waiters, c),
       channels := Deliver(s.channels, Reached(s.waiters, c), Committed(c)))
  }

  function SettleStep(s: State, t: nat, tail: nat): State
    requires Leads(s, t) && s.tasks[t].pc.Settling?
  {
    var Settling(c, before) := s.tasks[t].pc;
    var r := Retain(s, c);
    if r.waiters == [] && tail <= c then
      r.(leading := false, leader := {}, tasks := s.tasks[t := Returning(s.tasks[t].target, Committed(c))])
    else
      r.(tasks := s.tasks[t := s.tasks[t].(pc := if c <= before then Yielding else Collect, last := c)])
  }

  /** The locked body shared by the error arm and the guard drop. */
  function BroadcastStep(s: State): State {
    s.(leading := false, leader := {}, waiters := [], channels := Deliver(s.channels, s.waiters, Broken))
  }

  function WakeStep(s: State, t: nat): State
    requires t in s.tasks && t in s.channels
  {
    var target := s.tasks[t].target;
    var r := if s.channels[t] != [] then s.channels[t][0]
             else if target <= s.durable then Committed(s.durable) else Broken;
    s.(tasks := s.tasks[t := Finished(target, r)])
  }

  function Apply(s: State, a: Action): State
    requires Enabled(s, a)
  {
    match a
    case Enter(t, target) => EnterStep(s, t, target)
    case Environment(d) => s.(durable := d)
    case CollectBatch(t, tail) => SetPc(s, t, Batched(Max(tail, MaxTarget(s.waiters))))
    case ReadWatermark(t) =>
      var bt := s.tasks[t].pc.batchTarget;
      SetPc(s, t, if bt > s.durable then Stepping(bt, s.durable) else Settling(s.durable, s.durable))
    case StepOk(t, c, d) => SetPc(s.(durable := d), t, Settling(c, s.tasks[t].pc.watermark))
    case StepErr(t, d) => SetPc(s.(durable := d), t, Failing)
    case Settle(t, tail) => SettleStep(s, t, tail)
    case SettlePanic(t) =>
      var c := s.tasks[t].pc.committed;
      Retain(s, c).(tasks := s.tasks[t := s.tasks[t].(pc := Unwinding, last := c)])
    case Resume(t) => SetPc(s, t, Collect)
    case Fail(t) => BroadcastStep(s).(tasks := s.tasks[t := Returning(s.tasks[t].target, Broken)])
    case Disarm(t) => s.(tasks := s.tasks[t := Finished(s.tasks[t].target, s.tasks[t].result)])
    case GuardDrop(t) => BroadcastStep(s).(tasks := s.tasks[t := Dropped(s.tasks[t].target)])
    case Wake(t) => WakeStep(s, t)
    case Abandon(t) => s.(tasks := s.tasks[t := Abandoned(s.tasks[t].target)])
    case LoseSender(t) => s.(waiters := Without(s.waiters, t), lost := s.lost + {t})
  }

  // ------------------------------------------------------------------ the invariant

  ghost predicate LeaderInv(s: State) {
    && (s.leading ==> exists t :: s.leader == {t} && Leads(s, t))
    && (!s.leading ==> s.leader == {} && s.waiters == [])
    && (forall t: nat :: Leads(s, t) ==> s.leader == {t})
  }

  ghost predicate WaiterInv(s: State, w: Waiter) {
    && w.id in s.tasks
    && s.tasks[w.id].target == w.target
    && (w.tx ==> w.id in s.channels && s.channels[w.id] == [] && w.id !in s.lost)
    && (!w.tx ==> s.leader == {w.id})
  }

  ghost predicate ListInv(s: State) {
    && Distinct(s.waiters)
    && (forall w :: w in s.waiters ==> WaiterInv(s, w))
  }

  /** A registered follower is in the list with its channel unused, answered once, or lost; a finished one that is not
      lost was told what its channel carries. */
  ghost predicate FollowerInv(s: State, id: nat)
    requires id in s.channels
  {
    && id in s.tasks
    && (s.tasks[id].Following? || s.tasks[id].Abandoned? || s.tasks[id].Finished?)
    && |s.channels[id]| <= 1
    && (s.channels[id] == [] <==> HasTx(s.waiters, id) || id in s.lost)
    && !(HasTx(s.waiters, id) && id in s.lost)
    && (s.channels[id] != [] && s.channels[id][0].Committed? ==>
          s.tasks[id].target <= s.channels[id][0].position <= s.durable)
    && (s.tasks[id].Finished? && id !in s.lost ==> s.channels[id] == [s.tasks[id].result])
  }

  ghost predicate ChannelInv(s: State) {
    && s.lost <= s.channels.Keys
    && (forall id :: id in s.channels ==> FollowerInv(s, id))
  }

  ghost predicate TaskInv(s: State, t: nat)
    requires t in s.tasks
  {
    match s.tasks[t]
    case Following(_) => t in s.channels
    case Abandoned(_) => t in s.channels
    case Finished(target, r) => r.Committed? ==> target <= r.position <= s.durable
    case Returning(target, r) => t !in s.channels && (r.Committed? ==> target <= r.position <= s.durable)
    case Dropped(_) => t !in s.channels
    case Leading(target, pc, last) =>
      && t !in s.channels
      && last <= s.durable
      && (HasOwn(s.waiters, t) || target <= last)
      && (pc.Stepping? ==> last <= pc.watermark <= s.durable)
      && (pc.Settling? ==> last <= pc.committed <= s.durable && pc.before <= pc.committed)
  }

  ghost predicate Inv(s: State) {
    && LeaderInv(s)
    && ListInv(s)
    && ChannelInv(s)
    && (forall t :: t in s.tasks ==> TaskInv(s, t))
  }

  // ------------------------------------------------------------------ list lemmas

  lemma {:induction false} FilteredMember(ws: seq<Waiter>, c: nat, w: Waiter)
    ensures w in Reached(ws, c) <==> w in ws && w.target <= c
    ensures w in Lagging(ws, c) <==> w in ws && w.target > c
  {
    if ws != [] {
      FilteredMember(ws[1..], c, w);
      assert w in ws <==> w == ws[0] || w in ws[1..];
    }
  }

  lemma {:induction false} FilteredDistinct(ws: seq<Waiter>, c: nat)
    requires Distinct(ws)
    ensures Distinct(Reached(ws, c)) && Distinct(Lagging(ws, c))
  {
    if ws != [] {
      var rest := ws[1..];
      FilteredDistinct(rest, c);
      forall w | w in Reached(rest, c) || w in Lagging(rest, c) ensures w.id != ws[0].id {
        FilteredMember(rest, c, w);
        var k :| 0 <= k < |rest| && rest[k] == w;
        assert ws[k + 1] == w;
      }
      DistinctCons(ws[0], Reached(rest, c));
      DistinctCons(ws[0], Lagging(rest, c));
    }
  }

  lemma DistinctCons(w: Waiter, ws: seq<Waiter>)
    requires Distinct(ws) && forall v :: v in ws ==> v.id != w.id
    ensures Distinct([w] + ws) && Distinct([] + ws)
  {
  }

  lemma {:induction false} Filtered(ws: seq<Waiter>, c: nat)
    requires Distinct(ws)
    ensures Distinct(Reached(ws, c)) && Distinct(Lagging(ws, c))
    ensures forall w :: w in Reached(ws, c) <==> w in ws && w.target <= c
    ensures forall w :: w in Lagging(ws, c) <==> w in ws && w.target > c
  {
    hide Reached, Lagging;
    FilteredDistinct(ws, c);
    forall w: Waiter
      ensures w in Reached(ws, c) <==> w in ws && w.target <= c
      ensures w in Lagging(ws, c) <==> w in ws && w.target > c
    {
      FilteredMember(ws, c, w);
    }
  }

  lemma {:induction false} RemovedMember(ws: seq<Waiter>, id: nat, w: Waiter)
    ensures w in Without(ws, id) <==> w in ws && w.id != id
  {
    if ws != [] {
      RemovedMember(ws[1..], id, w);
      assert w in ws <==> w == ws[0] || w in ws[1..];
    }
  }

  lemma {:induction false} RemovedDistinct(ws: seq<Waiter>, id: nat)
    requires Distinct(ws)
    ensures Distinct(Without(ws, id))
  {
    if ws != [] {
      var rest := ws[1..];
      RemovedDistinct(rest, id);
      forall w | w in Without(rest, id) ensures w.id != ws[0].id {
        RemovedMember(rest, id, w);
        var k :| 0 <= k < |rest| && rest[k] == w;
        assert ws[k + 1] == w;
      }
      DistinctCons(ws[0], Without(rest, id));
    }
  }

  lemma {:induction false} Removed(ws: seq<Waiter>, id: nat)
    requires Distinct(ws)
    ensures Distinct(Without(ws, id))
    ensures forall w :: w in Without(ws, id) <==> w in ws && w.id != id
  {
    hide Without;
    RemovedDistinct(ws, id);
    forall w: Waiter ensures w in Without(ws, id) <==> w in ws && w.id != id {
      RemovedMember(ws, id, w);
    }
  }

  /** Each channel gains the answer exactly when its sender is in the delivered list, and once. */
  lemma {:induction false} Delivered(ch: Channels, ws: seq<Waiter>, r: Outcome, id: nat)
    requires Distinct(ws)
    ensures Deliver(ch, ws, r).Keys == ch.Keys
    ensures id in ch ==> Deliver(ch, ws, r)[id] == ch[id] + (if HasTx(ws, id) then [r] else [])
  {
    if ws != [] {
      var w := ws[0];
      assert ws == [w] + ws[1..];
      Delivered(Send(ch, w, r), ws[1..], r, id);
      if id in ch && w.id == id {
        forall v | v in ws[1..] ensures v.id != id {
          var k :| 0 <= k < |ws[1..]| && ws[1..][k] == v;
          assert ws[k + 1] == v;
        }
      }
    }
  }

  lemma AllDelivered(ch: Channels, ws: seq<Waiter>, r: Outcome)
    requires Distinct(ws)
    ensures Deliver(ch, ws, r).Keys == ch.Keys
    ensures forall id :: id in ch ==> Deliver(ch, ws, r)[id] == ch[id] + (if HasTx(ws, id) then [r] else [])
  {
    Delivered(ch, ws, r, 0);
    forall id | id in ch
      ensures Deliver(ch, ws, r)[id] == ch[id] + (if HasTx(ws, id) then [r] else [])
    {
      Delivered(ch, ws, r, id);
    }
  }

  // ------------------------------------------------------------------ every action keeps the invariant

  /** A step that moves one task only, while the durable watermark may grow. */
  ghost predicate Moved(s: State, s': State, t: nat) {
    && t in s.tasks && t in s'.tasks
    && s' == s.(durable := s'.durable, tasks := s.tasks[t := s'.tasks[t]])
    && s.durable <= s'.durable
    && s'.tasks[t].target == s.tasks[t].target
    && (s'.tasks[t].Leading? <==> s.tasks[t].Leading?)
    && (t in s.channels ==>
          || s'.tasks[t].Following? || s'.tasks[t].Abandoned?
          || (s'.tasks[t].Finished? && (t !in s.lost ==> s.channels[t] == [s'.tasks[t].result])))
    && TaskInv(s', t)
  }

  lemma MovedList(s: State, s': State, t: nat)
    requires Inv(s) && Moved(s, s', t)
    ensures ListInv(s')
  {
  }

  lemma MovedChannels(s: State, s': State, t: nat)
    requires Inv(s) && Moved(s, s', t)
    ensures ChannelInv(s')
  {
  }

  lemma MovedTasks(s: State, s': State, t: nat, u: nat)
    requires Inv(s) && Moved(s, s', t) && u in s'.tasks
    ensures TaskInv(s', u)
  {
  }

  lemma MovedKeeps(s: State, s': State, t: nat)
    requires Inv(s) && Moved(s, s', t)
    ensures Inv(s')
  {
    MovedList(s, s', t);
    MovedChannels(s, s', t);
    forall u | u in s'.tasks ensures TaskInv(s', u) { MovedTasks(s, s', t, u); }
    forall u: nat | Leads(s', u) ensures s'.leader == {u} { assert Leads(s, u); }
    if s.leading {
      var u :| s.leader == {u} && Leads(s, u);
      assert Leads(s', u);
    }
  }

  lemma EnvironmentKeeps(s: State, d: nat)
    requires Inv(s) && s.durable <= d
    ensures Inv(s.(durable := d))
  {
  }

  lemma LeaderStepKeeps(s: State, a: Action)
    requires Inv(s) && Enabled(s, a)
    requires a.CollectBatch? || a.ReadWatermark? || a.StepOk? || a.StepErr? || a.Resume?
    ensures Inv(Apply(s, a))
  {
    assert TaskInv(s, a.t);
    MovedKeeps(s, Apply(s, a), a.t);
  }

  lemma CallerStepKeeps(s: State, a: Action)
    requires Inv(s) && Enabled(s, a)
    requires a.Disarm? || a.Wake? || a.Abandon?
    ensures Inv(Apply(s, a))
    ensures a.Disarm? ==> Apply(s, a).tasks[a.t] == Finished(s.tasks[a.t].target, s.tasks[a.t].result)
    ensures a.Wake? ==> Apply(s, a).tasks[a.t].Finished? && Tells(s, a, a.t, Apply(s, a).tasks[a.t].result)
  {
    assert TaskInv(s, a.t);
    if a.Wake? { assert FollowerInv(s, a.t); }
    MovedKeeps(s, Apply(s, a), a.t);
  }

  lemma UniqueIds(ws: seq<Waiter>)
    requires Distinct(ws)
    ensures forall v, w :: v in ws && w in ws && v.id == w.id ==> v == w
  {
  }

  /** The leader `t` answers the waiters `gone` with `r` and keeps the others, or ends its term. */
  ghost predicate Resolved(s: State, s': State, t: nat, gone: seq<Waiter>, r: Outcome) {
    && Leads(s, t) && t in s'.tasks
    && s'.tasks == s.tasks[t := s'.tasks[t]]
    && s'.tasks[t].target == s.tasks[t].target
    && TaskInv(s', t)
    && s'.durable == s.durable && s'.lost == s.lost
    && s'.channels == Deliver(s.channels, gone, r)
    && Distinct(gone) && Distinct(s'.waiters)
    && (forall w :: w in s.waiters <==> w in gone || w in s'.waiters)
    && (forall w :: w in gone ==> w !in s'.waiters)
    && (r.Committed? ==> forall w :: w in gone ==> w.target <= r.position <= s.durable)
    && (if s'.leading then s'.leader == s.leader && s'.tasks[t].Leading?
        else s'.leader == {} && s'.waiters == [] && !s'.tasks[t].Leading?)
  }

  lemma ResolvedList(s: State, s': State, t: nat, gone: seq<Waiter>, r: Outcome)
    requires Inv(s) && Resolved(s, s', t, gone, r)
    ensures ListInv(s')
  {
    AllDelivered(s.channels, gone, r);
    UniqueIds(s.waiters);
    forall w | w in s'.waiters ensures WaiterInv(s', w) {
      assert w in s.waiters && WaiterInv(s, w);
      assert !HasTx(gone, w.id);
    }
  }

  lemma ResolvedFollower(s: State, s': State, t: nat, gone: seq<Waiter>, r: Outcome, id: nat)
    requires Inv(s) && Resolved(s, s', t, gone, r) && id in s'.channels
    ensures FollowerInv(s', id)
  {
    AllDelivered(s.channels, gone, r);
    assert FollowerInv(s, id) && TaskInv(s, t);
    if HasTx(gone, id) {
      var v :| v in gone && v.id == id && v.tx;
      assert v in s.waiters && WaiterInv(s, v) && HasTx(s.waiters, id);
      UniqueIds(s.waiters);
      assert !HasTx(s'.waiters, id);
    } else {
      if HasTx(s.waiters, id) {
        var w :| w in s.waiters && w.id == id && w.tx;
        assert w in s'.waiters;
      }
      if HasTx(s'.waiters, id) {
        var w :| w in s'.waiters && w.id == id && w.tx;
        assert w in s.waiters;
      }
    }
  }

  lemma ResolvedTask(s: State, s': State, t: nat, gone: seq<Waiter>, r: Outcome, u: nat)
    requires Inv(s) && Resolved(s, s', t, gone, r) && u in s'.tasks
    ensures TaskInv(s', u)
    ensures Leads(s', u) ==> s'.leader == {u}
  {
    AllDelivered(s.channels, gone, r);
    assert Leads(s, t);
    if u != t {
      assert TaskInv(s, u);
      assert !Leads(s, u);
    }
  }

  lemma ResolvedKeeps(s: State, s': State, t: nat, gone: seq<Waiter>, r: Outcome)
    requires Inv(s) && Resolved(s, s', t, gone, r)
    ensures Inv(s')
  {
    ResolvedList(s, s', t, gone, r);
    AllDelivered(s.channels, gone, r);
    forall id | id in s'.channels ensures FollowerInv(s', id) { ResolvedFollower(s, s', t, gone, r, id); }
    forall u | u in s'.tasks ensures TaskInv(s', u) && (Leads(s', u) ==> s'.leader == {u}) {
      ResolvedTask(s, s', t, gone, r, u);
    }
    assert s'.leading ==> Leads(s', t);
  }

  lemma NothingLags(ws: seq<Waiter>, c: nat)
    ensures Lagging(ws, c) == [] <==> forall w :: w in ws ==> w.target <= c
  {
    forall w: Waiter ensures w in Lagging(ws, c) <==> w in ws && w.target > c {
      FilteredMember(ws, c, w);
    }
    if Lagging(ws, c) != [] {
      assert Lagging(ws, c)[0] in Lagging(ws, c);
    }
  }

  lemma SettleTask(s: State, a: Action)
    requires Inv(s) && Enabled(s, a) && (a.Settle? || a.SettlePanic?)
    ensures a.t in Apply(s, a).tasks && TaskInv(Apply(s, a), a.t)
    ensures var c := s.tasks[a.t].pc.committed;
            if a.Settle? && a.tail <= c && (forall w :: w in s.waiters ==> w.target <= c)
            then Apply(s, a).tasks[a.t] == Returning(s.tasks[a.t].target, Committed(c))
            else Leads(Apply(s, a), a.t) && Apply(s, a).tasks[a.t].last == c
  {
    var t, s' := a.t, Apply(s, a);
    var c := s.tasks[t].pc.committed;
    NothingLags(s.waiters, c);
    Filtered(s.waiters, c);
    AllDelivered(s.channels, Reached(s.waiters, c), Committed(c));
    assert TaskInv(s, t);
    if HasOwn(s.waiters, t) {
      var w :| w in s.waiters && w.id == t && !w.tx;
      assert WaiterInv(s, w);
      if w.target > c { assert w in s'.waiters; }
    }
  }

  lemma SettleKeeps(s: State, a: Action)
    requires Inv(s) && Enabled(s, a) && (a.Settle? || a.SettlePanic?)
    ensures Inv(Apply(s, a))
  {
    var c := s.tasks[a.t].pc.committed;
    SettleTask(s, a);
    Filtered(s.waiters, c);
    assert TaskInv(s, a.t);
    ResolvedKeeps(s, Apply(s, a), a.t, Reached(s.waiters, c), Committed(c));
  }

  lemma BroadcastKeeps(s: State, a: Action)
    requires Inv(s) && Enabled(s, a) && (a.Fail? || a.GuardDrop?)
    ensures Inv(Apply(s, a))
  {
    AllDelivered(s.channels, s.waiters, Broken);
    assert TaskInv(s, a.t);
    ResolvedKeeps(s, Apply(s, a), a.t, s.waiters, Broken);
  }

  lemma LoseKeeps(s: State, t: nat)
    requires Inv(s) && HasTx(s.waiters, t)
    ensures Inv(Apply(s, LoseSender(t)))
  {
    var s' := Apply(s, LoseSender(t));
    Removed(s.waiters, t);
    var lost :| lost in s.waiters && lost.id == t && lost.tx;
    assert WaiterInv(s, lost) && FollowerInv(s, t);
    forall w | w in s'.waiters ensures WaiterInv(s', w) { assert WaiterInv(s, w); }
    forall id | id in s'.channels ensures FollowerInv(s', id) {
      assert FollowerInv(s, id);
      if id != t && HasTx(s.waiters, id) {
        var w :| w in s.waiters && w.id == id && w.tx;
        assert w in s'.waiters;
      }
    }
    forall u | u in s'.tasks ensures TaskInv(s', u) {
      assert TaskInv(s, u);
      if s.tasks[u].Leading? && HasOwn(s.waiters, u) {
        var w :| w in s.waiters && w.id == u && !w.tx;
        assert w in s'.waiters;
      }
    }
    forall u: nat | Leads(s', u) ensures s'.leader == {u} { assert Leads(s, u); }
  }

  /** Registration as follower or as leader appends one waiter for a fresh task. */
  lemma RegisterKeeps(s: State, t: nat, target: nat)
    requires Inv(s) && t !in s.tasks && s.durable < target
    ensures Inv(EnterStep(s, t, target))
  {
    var s' := EnterStep(s, t, target);
    forall w | w in s.waiters ensures w.id != t { assert WaiterInv(s, w); }
    forall id | id in s.channels ensures id != t { assert FollowerInv(s, id); }
    var added := s'.waiters[|s.waiters|];
    assert forall w :: w in s'.waiters <==> w in s.waiters || w == added;
    forall w | w in s'.waiters ensures WaiterInv(s', w) { if w in s.waiters { assert WaiterInv(s, w); } }
    forall id | id in s'.channels ensures FollowerInv(s', id) {
      if id != t { assert FollowerInv(s, id); assert HasTx(s'.waiters, id) <==> HasTx(s.waiters, id); }
    }
    forall u | u in s'.tasks ensures TaskInv(s', u) {
      if u != t { assert TaskInv(s, u); assert HasOwn(s.waiters, u) ==> HasOwn(s'.waiters, u); }
    }
    forall u: nat | Leads(s', u) ensures s'.leader == {u} { if u != t { assert Leads(s, u); } }
    if s.leading {
      var u :| s.leader == {u} && Leads(s, u);
      assert Leads(s', u);
    } else {
      assert Leads(s', t);
    }
  }

  /** Every action of every task keeps the invariant. */
  lemma StepKeeps(s: State, a: Action)
    requires Inv(s) && Enabled(s, a)
    ensures Inv(Apply(s, a))
  {
    match a
    case Enter(t, target) =>
      if s.durable < target {
        RegisterKeeps(s, t, target);
      } else {
        DoneKeeps(s, t, target);
      }
    case Environment(d) => EnvironmentKeeps(s, d);
    case CollectBatch(_, _) => LeaderStepKeeps(s, a);
    case ReadWatermark(_) => LeaderStepKeeps(s, a);
    case StepOk(_, _, _) => LeaderStepKeeps(s, a);
    case StepErr(_, _) => LeaderStepKeeps(s, a);
    case Resume(_) => LeaderStepKeeps(s, a);
    case Settle(_, _) => SettleKeeps(s, a);
    case SettlePanic(_) => SettleKeeps(s, a);
    case Fail(_) => BroadcastKeeps(s, a);
    case GuardDrop(_) => BroadcastKeeps(s, a);
    case Disarm(_) => CallerStepKeeps(s, a);
    case Wake(_) => CallerStepKeeps(s, a);
    case Abandon(_) => CallerStepKeeps(s, a);
    case LoseSender(t) => LoseKeeps(s, t);
  }

  lemma DoneKeeps(s: State, t: nat, target: nat)
    requires Inv(s) && t !in s.tasks && target <= s.durable
    ensures Inv(EnterStep(s, t, target))
  {
    var s' := EnterStep(s, t, target);
    forall w | w in s'.waiters ensures WaiterInv(s', w) { assert WaiterInv(s, w); }
    forall id | id in s'.channels ensures FollowerInv(s', id) { assert FollowerInv(s, id); }
    forall u | u in s'.tasks ensures TaskInv(s', u) { if u != t { assert TaskInv(s, u); } }
    forall u: nat | Leads(s', u) ensures s'.leader == {u} { assert Leads(s, u); }
    if s.leading {
      var u :| s.leader == {u} && Leads(s, u);
      assert Leads(s', u);
    }
  }

  // ------------------------------------------------------------------ safety over whole executions

  /** Any finite interleaving: `states[i+1]` follows `states[i]` by `actions[i]`. */
  ghost predicate Execution(states: seq<State>, actions: seq<Action>) {
    && |states| == |actions| + 1
    && (exists w: nat :: states[0] == Init(w))
    && (forall i :: 0 <= i < |actions| ==> Enabled(states[i], actions[i]) && states[i + 1] == Apply(states[i], actions[i]))
  }

  lemma {:induction false} Reachable(states: seq<State>, actions: seq<Action>, i: nat)
    requires Execution(states, actions) && i < |states|
    ensures Inv(states[i])
  {
    if i > 0 {
      Reachable(states, actions, i - 1);
      StepKeeps(states[i - 1], actions[i - 1]);
    }
  }

  /** Whoever is told success with c, at entry, as follower or as leader, has its target <= c <= durable. */
  lemma SuccessIsDurable(states: seq<State>, actions: seq<Action>, i: nat, t: nat)
    requires Execution(states, actions) && i < |states|
    requires t in states[i].tasks && (states[i].tasks[t].Finished? || states[i].tasks[t].Returning?)
    requires states[i].tasks[t].result.Committed?
    ensures states[i].tasks[t].target <= states[i].tasks[t].result.position <= states[i].durable
  {
    Reachable(states, actions, i);
    assert TaskInv(states[i], t);
  }

  /** Each registered follower is in exactly one of three places, and holds at most one answer. */
  lemma FollowerConservation(states: seq<State>, actions: seq<Action>, i: nat, id: nat)
    requires Execution(states, actions) && i < |states| && id in states[i].channels
    ensures var s := states[i];
            var waiting, answered, lost := HasTx(s.waiters, id), |s.channels[id]| == 1, id in s.lost;
            && |s.channels[id]| <= 1
            && (waiting || answered || lost)
            && !(waiting && answered) && !(waiting && lost) && !(answered && lost)
            && (waiting ==> s.leading && exists t :: Leads(s, t))
    ensures (forall k :: 0 <= k < i ==> !actions[k].LoseSender?) ==> id !in states[i].lost
  {
    Reachable(states, actions, i);
    assert FollowerInv(states[i], id);
    if forall k :: 0 <= k < i ==> !actions[k].LoseSender? {
      NothingLost(states, actions, i);
    }
  }

  lemma {:induction false} NothingLost(states: seq<State>, actions: seq<Action>, i: nat)
    requires Execution(states, actions) && i < |states|
    requires forall k :: 0 <= k < i ==> !actions[k].LoseSender?
    ensures states[i].lost == {}
  {
    if i > 0 {
      NothingLost(states, actions, i - 1);
      assert !actions[i - 1].LoseSender?;
    }
  }

  /** When nobody leads, the list is empty and every follower whose sender was not lost has its answer. */
  lemma NobodyStranded(states: seq<State>, actions: seq<Action>, i: nat)
    requires Execution(states, actions) && i < |states|
    requires forall t: nat :: !Leads(states[i], t)
    ensures !states[i].leading && states[i].waiters == []
    ensures forall id :: id in states[i].channels && id !in states[i].lost ==> |states[i].channels[id]| == 1
  {
    Reachable(states, actions, i);
    var s := states[i];
    forall id | id in s.channels && id !in s.lost ensures |s.channels[id]| == 1 {
      assert FollowerInv(s, id);
    }
  }

  // ------------------------------------------------------------------ who told what

  ghost predicate WasTold(s: State, t: nat, r: Outcome) {
    t in s.tasks && (s.tasks[t].Finished? || s.tasks[t].Returning?) && s.tasks[t].result == r
  }

  /** Why a task is told r by action a in state s: at entry the watermark that covers it; as follower what its channel
      carries or, its sender lost, what the watermark says; as leader the position of the round that drained, or failure. */
  ghost predicate Tells(s: State, a: Action, t: nat, r: Outcome) {
    match a
    case Enter(u, target) => u == t && target <= s.durable && r == Committed(s.durable)
    case Wake(u) =>
      && u == t && t in s.channels && t in s.tasks
      && (t !in s.lost ==> s.channels[t] == [r])
      && (t in s.lost ==> r == if s.tasks[t].target <= s.durable then Committed(s.durable) else Broken)
    case Settle(u, tail) =>
      && u == t && Leads(s, t) && s.tasks[t].pc.Settling? && r == Committed(s.tasks[t].pc.committed)
      && tail <= s.tasks[t].pc.committed && forall w :: w in s.waiters ==> w.target <= s.tasks[t].pc.committed
    case Fail(u) => u == t && Leads(s, t) && s.tasks[t].pc.Failing? && r == Broken
    case _ => false
  }

  lemma ToldStep(s: State, a: Action, t: nat, r: Outcome)
    requires Inv(s) && Enabled(s, a) && WasTold(Apply(s, a), t, r)
    ensures WasTold(s, t, r) || Tells(s, a, t, r)
  {
    match a
    case Wake(u) => assert FollowerInv(s, u);
    case Settle(u, _) =>
      if u == t {
        Filtered(s.waiters, s.tasks[t].pc.committed);
        forall w | w in s.waiters ensures w.target <= s.tasks[t].pc.committed {
          FilteredMember(s.waiters, s.tasks[t].pc.committed, w);
        }
      }
    case _ =>
  }

  /** Every task that has been told anything was told so by one step of the run, for the reason of that step. */
  lemma {:induction false} ToldBy(states: seq<State>, actions: seq<Action>, i: nat, t: nat, r: Outcome) returns (k: nat)
    requires Execution(states, actions) && i < |states| && WasTold(states[i], t, r)
    ensures k < i && Tells(states[k], actions[k], t, r)
  {
    hide Inv, Apply, Tells;
    Reachable(states, actions, i - 1);
    ToldStep(states[i - 1], actions[i - 1], t, r);
    if WasTold(states[i - 1], t, r) {
      k := ToldBy(states, actions, i - 1, t, r);
    } else {
      k := i - 1;
    }
  }

  ghost predicate EndedUntold(s: State, t: nat) { t in s.tasks && (s.tasks[t].Dropped? || s.tasks[t].Abandoned?) }

  /** What one step may do to a task: it keeps its target, an answer stays, a failed step answers failure, and only a
      dropped guard or a caller giving up ends a task untold. */
  lemma TaskStep(s: State, a: Action, t: nat)
    requires Enabled(s, a) && t in s.tasks
    ensures var s' := Apply(s, a);
            && t in s'.tasks && s'.tasks[t].target == s.tasks[t].target
            && (forall r :: WasTold(s, t, r) ==> WasTold(s', t, r))
            && (a == Fail(t) ==> WasTold(s', t, Broken))
            && (EndedUntold(s', t) ==>
                  s.tasks[t] == s'.tasks[t] || a == if s'.tasks[t].Dropped? then GuardDrop(t) else Abandon(t))
  {
    hide Reached, Lagging, Deliver, MaxTarget, Without;
  }

  /** A task appears by entering, and not yet ended. */
  lemma TaskEnters(s: State, a: Action, t: nat)
    requires Enabled(s, a) && t !in s.tasks && t in Apply(s, a).tasks
    ensures a == Enter(t, Apply(s, a).tasks[t].target) && !EndedUntold(Apply(s, a), t)
  {
    hide Reached, Lagging, Deliver, MaxTarget, Without;
  }

  /** What a task was told is never taken back, and a leader whose step failed is told failure for good. */
  lemma {:induction false} ToldForever(states: seq<State>, actions: seq<Action>, i: nat, j: nat, t: nat, r: Outcome)
    requires Execution(states, actions) && i < j < |states|
    requires WasTold(states[i], t, r) || (actions[i] == Fail(t) && r == Broken)
    ensures WasTold(states[j], t, r)
  {
    assert actions[i] == Fail(t) ==> t in states[i].tasks;
    hide Apply, Enabled;
    if j > i + 1 {
      ToldForever(states, actions, i, j - 1, t, r);
    }
    TaskStep(states[j - 1], actions[j - 1], t);
  }

  /** A task that ended untold had its guard dropped by the runtime, or its caller gave up waiting. */
  lemma {:induction false} UntoldBy(states: seq<State>, actions: seq<Action>, i: nat, t: nat) returns (k: nat)
    requires Execution(states, actions) && i < |states| && EndedUntold(states[i], t)
    ensures k < i && actions[k] == if states[i].tasks[t].Dropped? then GuardDrop(t) else Abandon(t)
  {
    hide Apply, Enabled;
    if t !in states[i - 1].tasks {
      TaskEnters(states[i - 1], actions[i - 1], t);
    } else {
      TaskStep(states[i - 1], actions[i - 1], t);
      k := i - 1;
      if states[k].tasks[t] == states[i].tasks[t] {
        k := UntoldBy(states, actions, k, t);
      }
    }
  }

  /** Every task holds the target it entered with, whatever became of it. */
  lemma {:induction false} TargetEntered(states: seq<State>, actions: seq<Action>, i: nat, t: nat) returns (k: nat)
    requires Execution(states, actions) && i < |states| && t in states[i].tasks
    ensures k < i && actions[k] == Enter(t, states[i].tasks[t].target)
  {
    hide Apply, Enabled;
    if t !in states[i - 1].tasks {
      TaskEnters(states[i - 1], actions[i - 1], t);
      k := i - 1;
    } else {
      TaskStep(states[i - 1], actions[i - 1], t);
      k := TargetEntered(states, actions, i - 1, t);
    }
  }

  /** A finished follower was told exactly what its channel carries, unless its sender was lost. */
  lemma FollowerIsToldItsChannel(states: seq<State>, actions: seq<Action>, i: nat, t: nat)
    requires Execution(states, actions) && i < |states|
    requires t in states[i].channels && t in states[i].tasks && states[i].tasks[t].Finished? && t !in states[i].lost
    ensures states[i].channels[t] == [states[i].tasks[t].result]
  {
    Reachable(states, actions, i);
    assert FollowerInv(states[i], t);
  }

  lemma FollowerStep(s: State, a: Action, t: nat)
    requires Inv(s) && Enabled(s, a) && a != Wake(t)
    requires t in Apply(s, a).channels && t in Apply(s, a).tasks && Apply(s, a).tasks[t].Finished?
    ensures t in s.channels && t in s.tasks && s.tasks[t] == Apply(s, a).tasks[t]
    ensures t in s.lost <==> t in Apply(s, a).lost
  {
    hide Lagging, Reached, Distinct;
    match a
    case Settle(u, _) => SettleAnswers(s, u, t);
    case SettlePanic(u) => SettleAnswers(s, u, t);
    case Fail(_) => BroadcastAnswers(s, t);
    case GuardDrop(_) => BroadcastAnswers(s, t);
    case _ =>
    if t in s.channels {
      assert FollowerInv(s, t) && TaskInv(s, t);
    }
  }

  /** Every finished follower woke in some state of the run: with its channel's answer there or, its sender lost, with success
      exactly when that state's watermark covered its target. */
  lemma {:induction false} FollowerWoke(states: seq<State>, actions: seq<Action>, i: nat, t: nat) returns (k: nat)
    requires Execution(states, actions) && i < |states|
    requires t in states[i].channels && t in states[i].tasks && states[i].tasks[t].Finished?
    ensures k < i && actions[k] == Wake(t) && t in states[k].channels && t in states[k].tasks
    ensures var r, s := states[i].tasks[t].result, states[k];
            if t in states[i].lost then r == if s.tasks[t].target <= s.durable then Committed(s.durable) else Broken
            else s.channels[t] == [r]
  {
    hide Apply, Inv;
    Reachable(states, actions, i - 1);
    if actions[i - 1] == Wake(t) {
      k := i - 1;
      WakeTells(states[k], t);
    } else {
      FollowerStep(states[i - 1], actions[i - 1], t);
      k := FollowerWoke(states, actions, i - 1, t);
    }
  }

  lemma WakeTells(s: State, t: nat)
    requires Inv(s) && Enabled(s, Wake(t))
    ensures var s' := Apply(s, Wake(t));
            && t in s'.tasks && s'.tasks[t].Finished? && s'.lost == s.lost
            && (if t in s.lost then s'.tasks[t].result == if s.tasks[t].target <= s.durable then Committed(s.durable) else Broken
                else s.channels[t] == [s'.tasks[t].result])
  {
    assert FollowerInv(s, t);
  }

  /** A settle ends the leader's term exactly when the position covers every waiter and the tail, and then the leader is
      told that position, all through its return. */
  lemma DrainTellsLeader(states: seq<State>, actions: seq<Action>, i: nat, t: nat, tail: nat)
    requires Execution(states, actions) && i < |actions| && actions[i] == Settle(t, tail)
    ensures var c := states[i].tasks[t].pc.committed;
            if tail <= c && forall w :: w in states[i].waiters ==> w.target <= c
            then states[i + 1].tasks[t] == Returning(states[i].tasks[t].target, Committed(c))
            else Leads(states[i + 1], t)
  {
    NothingLags(states[i].waiters, states[i].tasks[t].pc.committed);
  }

  /** What an answer on a channel goes back to: a settled position that covers the follower, or a broken term. */
  ghost predicate Answers(s: State, a: Action, id: nat, r: Outcome)
    requires Enabled(s, a)
  {
    && HasTx(s.waiters, id) && id in s.tasks
    && match a
       case Settle(t, _) =>
         r == Committed(s.tasks[t].pc.committed) && s.tasks[id].target <= s.tasks[t].pc.committed
       case SettlePanic(t) =>
         r == Committed(s.tasks[t].pc.committed) && s.tasks[id].target <= s.tasks[t].pc.committed
       case Fail(_) => r == Broken
       case GuardDrop(_) => r == Broken
       case _ => false
  }

  lemma AnswerStep(s: State, a: Action, id: nat, r: Outcome)
    requires Inv(s) && Enabled(s, a) && id in Apply(s, a).channels && Apply(s, a).channels[id] == [r]
    ensures (id in s.channels && s.channels[id] == [r]) || Answers(s, a, id, r)
  {
    hide Deliver, Reached, Lagging, Distinct;
    match a
    case Settle(t, _) => SettleAnswers(s, t, id);
    case SettlePanic(t) => SettleAnswers(s, t, id);
    case Fail(_) => BroadcastAnswers(s, id);
    case GuardDrop(_) => BroadcastAnswers(s, id);
    case _ =>
  }

  lemma BroadcastAnswers(s: State, id: nat)
    requires Inv(s)
    ensures Deliver(s.channels, s.waiters, Broken).Keys == s.channels.Keys
    ensures id in s.channels ==>
              Deliver(s.channels, s.waiters, Broken)[id]
              == if HasTx(s.waiters, id) && id in s.tasks then [Broken] else s.channels[id]
  {
    Delivered(s.channels, s.waiters, Broken, id);
    if id in s.channels {
      assert FollowerInv(s, id);
    }
  }

  lemma SettleAnswers(s: State, t: nat, id: nat)
    requires Inv(s) && Leads(s, t) && s.tasks[t].pc.Settling?
    ensures var c := s.tasks[t].pc.committed;
            var after := Deliver(s.channels, Reached(s.waiters, c), Committed(c));
            var covered := HasTx(s.waiters, id) && id in s.tasks && s.tasks[id].target <= c;
            && after.Keys == s.channels.Keys
            && (id in s.channels ==> after[id] == if covered then [Committed(c)] else s.channels[id])
  {
    var c := s.tasks[t].pc.committed;
    Filtered(s.waiters, c);
    Delivered(s.channels, Reached(s.waiters, c), Committed(c), id);
    if HasTx(s.waiters, id) {
      var w :| w in s.waiters && w.id == id && w.tx;
      assert WaiterInv(s, w);
      UniqueIds(s.waiters);
    }
  }

  lemma {:induction false} AnsweredBy(states: seq<State>, actions: seq<Action>, i: nat, id: nat, r: Outcome) returns (k: nat)
    requires Execution(states, actions) && i < |states| && id in states[i].channels && states[i].channels[id] == [r]
    ensures k < i && Enabled(states[k], actions[k]) && Answers(states[k], actions[k], id, r)
  {
    hide Inv, Apply, Answers;
    Reachable(states, actions, i - 1);
    AnswerStep(states[i - 1], actions[i - 1], id, r);
    if id in states[i - 1].channels && states[i - 1].channels[id] == [r] {
      k := AnsweredBy(states, actions, i - 1, id, r);
    } else {
      k := i - 1;
    }
  }

  /** What put the cascade where it is: a batch target is the largest of tail and registered targets; a step runs only
      for a target beyond the watermark; the position to settle is what the step returned, or the watermark itself when
      no step was needed; a yield follows a round without progress. */
  ghost predicate LeadsTo(s: State, a: Action, t: nat, pc: Pc) {
    match pc
    case Collect => true
    case Batched(bt) =>
      && a.CollectBatch? && a.t == t
      && a.tail <= bt && (forall w :: w in s.waiters ==> w.target <= bt)
      && (bt == a.tail || exists w :: w in s.waiters && w.target == bt)
    case Stepping(bt, mark) =>
      a == ReadWatermark(t) && Leads(s, t) && s.tasks[t].pc == Batched(bt) && mark == s.durable < bt
    case Settling(c, before) =>
      && Leads(s, t)
      && (|| (a.StepOk? && a.t == t && a.committed == c && s.tasks[t].pc.Stepping? && s.tasks[t].pc.watermark == before)
          || (a == ReadWatermark(t) && s.tasks[t].pc.Batched? && s.tasks[t].pc.batchTarget <= c == before == s.durable))
    case Yielding =>
      a.Settle? && a.t == t && Leads(s, t) && s.tasks[t].pc.Settling? && s.tasks[t].pc.committed <= s.tasks[t].pc.before
    case Failing => a.StepErr? && a.t == t
    case Unwinding => a == SettlePanic(t)
  }

  lemma {:induction false} MaxTargetIsMax(ws: seq<Waiter>)
    ensures forall w :: w in ws ==> w.target <= MaxTarget(ws)
    ensures MaxTarget(ws) == 0 || exists w :: w in ws && w.target == MaxTarget(ws)
  {
    if ws != [] {
      MaxTargetIsMax(ws[1..]);
      assert ws[0] in ws;
    }
  }

  lemma PcStep(s: State, a: Action, t: nat)
    requires Enabled(s, a) && Leads(Apply(s, a), t) && !Apply(s, a).tasks[t].pc.Collect?
    ensures var pc := Apply(s, a).tasks[t].pc; (Leads(s, t) && s.tasks[t].pc == pc) || LeadsTo(s, a, t, pc)
  {
    hide MaxTarget, Lagging, Reached, Deliver;
    MaxTargetIsMax(s.waiters);
  }

  /** Wherever the cascade stands, one step of the run put it there, in the state and with the values it should. */
  lemma {:induction false} CascadeStep(states: seq<State>, actions: seq<Action>, i: nat, t: nat) returns (k: nat)
    requires Execution(states, actions) && i < |states| && Leads(states[i], t) && !states[i].tasks[t].pc.Collect?
    ensures k < i && LeadsTo(states[k], actions[k], t, states[i].tasks[t].pc)
  {
    hide Apply, Enabled, LeadsTo;
    PcStep(states[i - 1], actions[i - 1], t);
    if Leads(states[i - 1], t) && states[i - 1].tasks[t].pc == states[i].tasks[t].pc {
      k := CascadeStep(states, actions, i - 1, t);
    } else {
      k := i - 1;
    }
  }

  /** An answer, once sent, is final, and no channel is ever withdrawn. */
  lemma {:induction false} AnswersAreFinal(states: seq<State>, actions: seq<Action>, i: nat, j: nat, id: nat)
    requires Execution(states, actions) && i <= j < |states|
    requires id in states[i].channels
    ensures id in states[j].channels && states[i].channels[id] <= states[j].channels[id]
    ensures |states[i].channels[id]| == 1 ==> states[j].channels[id] == states[i].channels[id]
    decreases j - i
  {
    Reachable(states, actions, j);
    if i < j {
      AnswersAreFinal(states, actions, i, j - 1, id);
      Reachable(states, actions, j - 1);
      ChannelsGrow(states[j - 1], actions[j - 1], id);
    }
    assert FollowerInv(states[j], id);
  }

  lemma ChannelsGrow(s: State, a: Action, id: nat)
    requires Inv(s) && Enabled(s, a) && id in s.channels
    ensures id in Apply(s, a).channels && s.channels[id] <= Apply(s, a).channels[id]
  {
    match a
    case Enter(t, _) => assert FollowerInv(s, id);
    case Settle(t, _) =>
      var c := s.tasks[t].pc.committed;
      Filtered(s.waiters, c);
      Delivered(s.channels, Reached(s.waiters, c), Committed(c), id);
    case SettlePanic(t) =>
      var c := s.tasks[t].pc.committed;
      Filtered(s.waiters, c);
      Delivered(s.channels, Reached(s.waiters, c), Committed(c), id);
    case Fail(_) => Delivered(s.channels, s.waiters, Broken, id);
    case GuardDrop(_) => Delivered(s.channels, s.waiters, Broken, id);
    case _ =>
  }

  predicate InFlight(s: State, t: nat) { Leads(s, t) && s.tasks[t].pc.Stepping? }

  /** At most one physical step is in flight, and only while its task holds the leading flag. */
  lemma OneStepInFlight(states: seq<State>, actions: seq<Action>, i: nat, t: nat, u: nat)
    requires Execution(states, actions) && i < |states|
    requires InFlight(states[i], t) && InFlight(states[i], u)
    ensures t == u && states[i].leading
  {
    Reachable(states, actions, i);
    assert u in {t};
  }

  /** A guard drop ends its own term only: no other task leads before it, and no other task changes. */
  lemma GuardDropEndsItsOwnTerm(states: seq<State>, actions: seq<Action>, i: nat, u: nat)
    requires Execution(states, actions) && i < |actions| && actions[i].GuardDrop?
    requires u in states[i].tasks && u != actions[i].t
    ensures !Leads(states[i], u) && states[i + 1].tasks[u] == states[i].tasks[u]
    ensures states[i].leading && !states[i + 1].leading && states[i + 1].waiters == []
  {
    Reachable(states, actions, i);
    assert Leads(states[i], actions[i].t);
    assert u !in {actions[i].t};
  }

  /** Between a drained settle and the disarm a successor can take the lead, and the drop body run in
      that window would clear the successor's flag: nothing may interrupt a task there. */
  lemma DropInReturningWindowBreaksSuccessor(s: State, t: nat, tail: nat, u: nat, target: nat)
    requires Inv(s) && Enabled(s, Settle(t, tail))
    requires Lagging(s.waiters, s.tasks[t].pc.committed) == [] && tail <= s.tasks[t].pc.committed
    requires u !in s.tasks && s.durable < target
    ensures var s1 := Apply(s, Settle(t, tail));
            var s2 := Apply(s1, Enter(u, target));
            && s2.tasks[t].Returning? && Leads(s2, u) && s2.leading && Inv(s2)
            && !Enabled(s2, GuardDrop(t))
            && Leads(BroadcastStep(s2), u) && !BroadcastStep(s2).leading && !Inv(BroadcastStep(s2))
  {
    var s1 := Apply(s, Settle(t, tail));
    StepKeeps(s, Settle(t, tail));
    StepKeeps(s1, Enter(u, target));
  }
}
