/** What the state of hooks/common/hp_transport.h says about the run that led to it, and that no run gets stuck: the
    mode is that of the last start-up, shutdown or failed exec, a completed final pass is one begun after the switch to
    Sync, and every record in hand or queued can move on. */
module TransportHistory {
  import opened TransportModel
  import opened TransportShape
  import opened TransportBalance
  import opened TransportOrder
  import opened TransportRuns

  // ---- the mode ----

  /** The transport has not been started, or not again since an exec that failed. */
  predicate Fresh(run: Run) {
    match run
    case Start(_) => true
    case Then(before, a, _) => a.FailedExec? || (!a.Shutdown? && !a.StartUp? && Fresh(before))
  }

  /** The transport has been shut down, or its rings could not be started, and no exec has failed since. */
  predicate InSync(run: Run) {
    match run
    case Start(_) => false
    case Then(before, a, _) =>
      a.Shutdown? || (!a.FailedExec? && (InSync(before) || (a.StartUp? && !a.ringStarts && Fresh(before))))
  }

  /** A pass over all rings is under way that began in sync mode, and no exec has failed since. */
  predicate InFinalPass(run: Run) {
    match run
    case Start(_) => false
    case Then(before, a, _) =>
      if a.BeginAll? then InSync(before) else !a.FailedExec? && !a.Unlock? && InFinalPass(before)
  }

  /** Such a pass has been completed, and neither an exec has failed since nor rings been shut down again. */
  predicate FinallyDrained(run: Run) {
    match run
    case Start(_) => false
    case Then(before, a, _) =>
      if a.Unlock? then FinallyDrained(before) || InFinalPass(before)
      else !a.FailedExec? && (a.Shutdown? ==> InSync(before)) && FinallyDrained(before)
  }

  datatype Status = Status(mode: Mode, finalPass: bool, locked: bool, drained: bool)

  function StatusOf(s: State): Status {
    Status(s.mode, s.pass.Draining? && s.pass.who == All(true), s.pass.Draining?, s.drained)
  }

  /** What a step does to it. */
  predicate StatusStep(v: Status, a: Action, w: Status) {
    && w.mode == (if a.Shutdown? then Sync
                  else if a.FailedExec? then Uninit
                  else if a.StartUp? && v.mode == Uninit then if a.ringStarts then RingMode else Sync
                  else v.mode)
    && w.finalPass == (if a.BeginAll? then v.mode == Sync else !a.FailedExec? && !a.Unlock? && v.finalPass)
    && w.drained == (if a.Unlock? then v.drained || v.finalPass
                     else !a.FailedExec? && (a.Shutdown? ==> v.mode == Sync) && v.drained)
  }

  predicate ChangesStatus(a: Action) {
    || a.StartUp? || a.BeginOwn? || a.EndOwn? || a.BeginAll? || a.Unlock? || a.Shutdown? || a.FailedExec?
  }

  lemma StatusKept(s: State, a: Action)
    requires Enabled(s, a) && !ChangesStatus(a)
    ensures StatusOf(Apply(s, a)) == StatusOf(s)
  {
    hide Used, Bytes, Without, Fits, FreeNow, Count;
  }

  lemma StatusMoves(s: State, a: Action)
    requires Shape(s) && Enabled(s, a)
    ensures StatusStep(StatusOf(s), a, StatusOf(Apply(s, a)))
  {
    if !ChangesStatus(a) {
      StatusKept(s, a);
      hide Apply, Enabled, Shape;
    } else {
      hide Used, Bytes, Without, Fits, Shape, Count, Refuse, NewRecord, Enqueue, Register, Delivered, TakeOne, Free;
    }
  }

  /** In every run: what the mode is, whether a final pass is under way, and whether one has been completed. */
  lemma {:induction false} StatusMeans(run: Run)
    requires IsRun(run)
    ensures run.s.mode == Sync <==> InSync(run)
    ensures run.s.mode == Uninit <==> Fresh(run)
    ensures run.s.pass.Draining? && run.s.pass.who == All(true) <==> InFinalPass(run)
    ensures run.s.drained <==> FinallyDrained(run)
  {
    if run.Then? {
      StatusMeans(run.before);
      RunSound(run.before);
      StatusMoves(run.before.s, run.a);
      hide Apply, Enabled, Shape, Sound;
    }
  }

  /** A record accepted at any time before a final pass is completed and every thread has returned was handed to
      hp_tx_deliver exactly once. */
  lemma HandedOverOnce(run: Run, earlier: Run, t: nat, k: nat)
    requires IsRun(run) && Continues(run, earlier) && FinallyDrained(run) && AtRest(run.s)
    requires k < |Accepted(earlier.s, t)|
    ensures var r := Accepted(earlier.s, t)[k]; var d := Of(run.s.log, t);
      k < |d| && d[k] == r && forall j :: 0 <= j < |d| && d[j] == r ==> j == k
  {
    hide *;
    StatusMeans(run);
    DeliveredExactlyOnce(run, earlier, t, k);
  }

  // ---- nothing gets stuck ----

  /** The next step of the thread, when it does not wait for drain_mu or drains itself. */
  function OwnStep(s: State, t: nat): Action
    requires t < |s.threads|
  {
    match s.threads[t].pc
    case Busy(Pushing, _) => LoadMode(t)
    case Busy(Starting, _) => StartUp(t, true)
    case Busy(Reloading, _) => ReloadMode(t)
    case Busy(NeedRing, _) => GetRing(t, true)
    case Busy(InRing, _) => TryPush(t)
    case Busy(WaitLoop, _) => TimeOut(t)
    case Busy(GaveUp, _) => GiveUp(t)
    case Busy(SyncWait, _) => BeginOwn(t)
    case Busy(SyncDraining, _) => EndOwn(t)
    case Busy(SyncDeliver, _) => DeliverDirect(t, true)
    case Published => CheckMode(t)
    case OwnWait => BeginOwn(t)
    case OwnDraining => EndOwn(t)
    case Idle => ThreadExit(t)
    case Exited => Spawn
  }

  /** The next step of whoever holds drain_mu. */
  function PassStep(s: State): Action
    requires s.pass.Draining?
  {
    if s.pass.todo != [] then
      if QueueAt(s, s.pass.todo[0]) == [] then NextRing
      else if s.pass.batch == [] || Bytes(s.pass.batch) + QueueAt(s, s.pass.todo[0])[0].len <= BATCH then Take
      else DeliverBatch(true)
    else if s.pass.batch != [] then DeliverBatch(true)
    else match s.pass.who case All(_) => Unlock case Own(t) => EndOwn(t)
  }

  lemma PassMoves(s: State)
    requires Shape(s) && s.pass.Draining?
    ensures Enabled(s, PassStep(s))
  {
    hide Bytes, Used;
  }

  lemma ThreadMoves(s: State, t: nat)
    requires t < |s.threads| && ThreadOk(s.cap, t, s.threads[t]) && (DrainingOwn(s.threads[t].pc) ==> s.pass.Draining?)
    ensures Enabled(s, OwnStep(s, t)) || s.pass.Draining?
  {
    hide Bytes, Used, AllRecs, RecOk, Fits, TakeEnabled, DeliverEnabled, FreeNow;
  }

  lemma CanEmit(s: State, t: nat, len: nat, copied: bool)
    requires t < |s.threads| && s.threads[t].pc == Idle && len > 0
    ensures Enabled(s, Emit(t, len, copied))
  {
  }

  /** Whatever a thread is at, it can take its next step, or else a pass is under way whose holder can: no thread and
      no pass is ever stuck. An idle thread can emit anything, and the transport can always be shut down. */
  lemma NeverStuck(run: Run, t: nat)
    requires IsRun(run) && t < |run.s.threads|
    ensures Enabled(run.s, OwnStep(run.s, t)) || run.s.pass.Draining?
    ensures run.s.pass.Draining? ==> Enabled(run.s, PassStep(run.s))
    ensures run.s.threads[t].pc == Idle ==>
      forall len: nat, copied :: len > 0 ==> Enabled(run.s, Emit(t, len, copied))
    ensures Enabled(run.s, Shutdown)
  {
    hide *;
    RunSound(run);
    SoundFacts(run.s, t);
    if run.s.pass.Draining? { PassMoves(run.s); }
    ThreadMoves(run.s, t);
    forall len: nat, copied | run.s.threads[t].pc == Idle && len > 0 ensures Enabled(run.s, Emit(t, len, copied)) {
      CanEmit(run.s, t, len, copied);
    }
    CanShutDown(run.s);
  }

  lemma SoundFacts(s: State, t: nat)
    requires Sound(s) && t < |s.threads|
    ensures Shape(s) && ThreadOk(s.cap, t, s.threads[t]) && (DrainingOwn(s.threads[t].pc) ==> s.pass.Draining?)
  {
    hide ThreadOk, DrainingOwn, AllOrderly, DrainedOk, NoGap, LogCounted, OwnDone;
  }

  lemma CanShutDown(s: State)
    ensures Enabled(s, Shutdown)
  {
  }

  // ---- everything comes to an end ----

  /** How far the thread still is from returning. */
  function Distance(pc: Pc): nat {
    match pc
    case Busy(Pushing, _) => 10
    case Busy(Starting, _) => 9
    case Busy(Reloading, _) => 8
    case Busy(NeedRing, _) => 7
    case Busy(InRing, _) => 6
    case Busy(WaitLoop, _) => 5
    case Busy(GaveUp, _) => 4
    case Busy(SyncWait, _) => 3
    case Busy(SyncDraining, _) => 2
    case Busy(SyncDeliver, _) => 1
    case Published => 3
    case OwnWait => 2
    case OwnDraining => 1
    case Idle => 0
    case Exited => 0
  }

  /** The step is taken by thread t on its way from an emission back to its caller. */
  predicate ByThread(a: Action, t: nat) {
    match a
    case LoadMode(u) => u == t
    case StartUp(u, _) => u == t
    case ReloadMode(u) => u == t
    case GetRing(u, _) => u == t
    case TryPush(u) => u == t
    case LeaveWait(u) => u == t
    case RetryPush(u) => u == t
    case TimeOut(u) => u == t
    case GiveUp(u) => u == t
    case CheckMode(u) => u == t
    case BeginOwn(u) => u == t
    case EndOwn(u) => u == t
    case DeliverDirect(u, _) => u == t
    case _ => false
  }

  lemma CountPc(s: State, t: nat, e: Event)
    requires t < |s.threads|
    ensures forall u :: 0 <= u < |s.threads| ==> Count(s, t, e).threads[u].pc == s.threads[u].pc
  {
  }

  lemma DropPc(s: State, t: nat, e: Event)
    requires t < |s.threads|
    ensures forall u :: 0 <= u < |s.threads| ==>
      DropHeld(s, t, e).threads[u].pc == if u == t then Idle else s.threads[u].pc
  {
    CountPc(SetPc(s, t, Idle), t, e);
    hide Count;
  }

  /** Thread t has moved on, every other thread is where it was. */
  predicate Advances(s: State, s': State, t: nat) {
    && t < |s.threads| == |s'.threads| && Distance(s'.threads[t].pc) < Distance(s.threads[t].pc)
    && forall u :: 0 <= u < |s.threads| && u != t ==> s'.threads[u].pc == s.threads[u].pc
  }

  lemma SetPcAdvances(s: State, t: nat, pc: Pc)
    requires t < |s.threads| && Distance(pc) < Distance(s.threads[t].pc)
    ensures Advances(s, SetPc(s, t, pc), t)
  {
    hide Distance;
  }

  lemma DropAdvances(s: State, t: nat, e: Event)
    requires t < |s.threads| && s.threads[t].pc.Busy?
    ensures Advances(s, DropHeld(s, t, e), t)
  {
    DropPc(s, t, e);
    hide DropHeld;
  }

  lemma LoadAdvances(s: State, t: nat)
    requires Enabled(s, LoadMode(t))
    ensures Advances(s, Apply(s, LoadMode(t)), t)
  {
    var pc := s.threads[t].pc;
    SetPcAdvances(s, t, Busy(Starting, pc.rec));
    SetPcAdvances(s, t, Busy(NeedRing, pc.rec));
    SetPcAdvances(s, t, Busy(SyncWait, pc.rec));
    hide Advances, Distance, SetPc;
  }

  lemma StartAdvances(s: State, t: nat, ringStarts: bool)
    requires Enabled(s, StartUp(t, ringStarts))
    ensures Advances(s, Apply(s, StartUp(t, ringStarts)), t)
  {
    SetPcAdvances(s, t, Busy(Reloading, s.threads[t].pc.rec));
    hide SetPc, Distance;
  }

  lemma ReloadAdvances(s: State, t: nat)
    requires Enabled(s, ReloadMode(t))
    ensures Advances(s, Apply(s, ReloadMode(t)), t)
  {
    SetPcAdvances(s, t, Busy(NeedRing, s.threads[t].pc.rec));
    SetPcAdvances(s, t, Busy(SyncWait, s.threads[t].pc.rec));
    hide Advances, Distance, SetPc;
  }

  lemma WaitAdvances(s: State, t: nat)
    requires At(s, t, WaitLoop)
    ensures Advances(s, SetPc(s, t, Busy(GaveUp, s.threads[t].pc.rec)), t)
    ensures Enabled(s, TimeOut(t)) && Apply(s, TimeOut(t)) == SetPc(s, t, Busy(GaveUp, s.threads[t].pc.rec))
    ensures Enabled(s, LeaveWait(t)) ==> Apply(s, LeaveWait(t)) == SetPc(s, t, Busy(GaveUp, s.threads[t].pc.rec))
  {
    SetPcAdvances(s, t, Busy(GaveUp, s.threads[t].pc.rec));
    hide Advances, Distance, SetPc;
  }

  lemma GiveUpAdvances(s: State, t: nat)
    requires Enabled(s, GiveUp(t))
    ensures Advances(s, Apply(s, GiveUp(t)), t)
  {
    SetPcAdvances(s, t, Busy(SyncWait, s.threads[t].pc.rec));
    DropAdvances(s, t, DroppedFull);
    hide Advances, Distance, SetPc, DropHeld;
  }

  lemma CheckAdvances(s: State, t: nat)
    requires Enabled(s, CheckMode(t))
    ensures Advances(s, Apply(s, CheckMode(t)), t)
  {
    SetPcAdvances(s, t, OwnWait);
    SetPcAdvances(s, t, Idle);
    hide Advances, Distance, SetPc;
  }

  lemma EnqueueAdvances(s: State, t: nat)
    requires t < |s.threads| && s.threads[t].pc.Busy? && s.threads[t].pc.stage in {InRing, WaitLoop}
    requires s.threads[t].ring.Live?
    ensures Advances(s, Enqueue(s, t), t)
  {
  }

  lemma PushAdvances(s: State, t: nat)
    requires Enabled(s, TryPush(t))
    ensures Advances(s, Apply(s, TryPush(t)), t)
  {
    DropAdvances(s, t, Oversize);
    DropAdvances(s, t, DroppedFull);
    EnqueueAdvances(s, t);
    SetPcAdvances(s, t, Busy(WaitLoop, s.threads[t].pc.rec));
    hide Advances, Distance, SetPc, DropHeld, Enqueue, Fits, Used;
  }

  lemma RetryAdvances(s: State, t: nat)
    requires Enabled(s, RetryPush(t))
    ensures Advances(s, Apply(s, RetryPush(t)), t)
  {
    EnqueueAdvances(s, t);
    hide Advances, Enqueue, Fits, Used;
  }

  lemma RingAdvances(s: State, t: nat, granted: bool)
    requires Enabled(s, GetRing(t, granted))
    ensures Advances(s, Apply(s, GetRing(t, granted)), t)
  {
    SetPcAdvances(s, t, Busy(InRing, s.threads[t].pc.rec));
    SetPcAdvances(s, t, Busy(SyncWait, s.threads[t].pc.rec));
    var r := Register(s, t);
    SetPcAdvances(r, t, Busy(InRing, s.threads[t].pc.rec));
    assert forall u :: 0 <= u < |s.threads| ==> r.threads[u].pc == s.threads[u].pc;
    hide Distance, SetPc, Register;
  }

  /** The steps from having a record in hand to having it in a ring or waiting for drain_mu. */
  lemma EarlySteps(s: State, a: Action)
    requires Enabled(s, a) && (ModeAction(a) || a.GetRing? || a.TryPush? || a.RetryPush?)
    ensures Advances(s, Apply(s, a), a.t)
  {
    hide Apply, Enabled, Advances;
    match a
    case LoadMode(t) => LoadAdvances(s, t);
    case StartUp(t, b) => StartAdvances(s, t, b);
    case ReloadMode(t) => ReloadAdvances(s, t);
    case LeaveWait(t) => LeaveAt(s, t); WaitAdvances(s, t);
    case TimeOut(t) => TimeOutAt(s, t); WaitAdvances(s, t);
    case GiveUp(t) => GiveUpAdvances(s, t);
    case CheckMode(t) => CheckAdvances(s, t);
    case GetRing(t, b) => RingAdvances(s, t, b);
    case TryPush(t) => PushAdvances(s, t);
    case RetryPush(t) => RetryAdvances(s, t);
    case _ =>
  }

  lemma LeaveAt(s: State, t: nat)
    requires Enabled(s, LeaveWait(t))
    ensures At(s, t, WaitLoop)
  {
  }

  lemma TimeOutAt(s: State, t: nat)
    requires Enabled(s, TimeOut(t))
    ensures At(s, t, WaitLoop)
  {
  }

  lemma LateSteps(s: State, a: Action, t: nat)
    requires Enabled(s, a) && t < |s.threads| && (a.BeginOwn? || a.EndOwn? || a.DeliverDirect?)
    requires DrainingOwn(s.threads[t].pc) ==> s.pass.Draining? && s.pass.who == Own(t)
    requires a.EndOwn? && a.t < |s.threads| ==> DrainingOwn(s.threads[a.t].pc)
    ensures t < |Apply(s, a).threads|
    ensures ByThread(a, t) ==> Distance(Apply(s, a).threads[t].pc) < Distance(s.threads[t].pc)
    ensures !ByThread(a, t) ==> Apply(s, a).threads[t].pc == s.threads[t].pc
  {
    hide Used, Bytes, Without, TakeEnabled, DeliverEnabled, FreeNow, Fits;
  }

  lemma CountKeeps(s: State, t: nat, e: Event, u: nat)
    requires t < |s.threads| && u < |s.threads|
    ensures Count(s, t, e).threads[u].pc == s.threads[u].pc
  {
  }

  lemma RefuseKeeps(s: State, t: nat, e: Event, u: nat)
    requires t < |s.threads| && u < |s.threads|
    ensures Refuse(s, t, e).threads[u].pc == s.threads[u].pc
  {
    var s' := SetThread(s, t, s.threads[t].(next := s.threads[t].next + 1));
    CountKeeps(s', t, Emitted, u);
    CountKeeps(Count(s', t, Emitted), t, e, u);
    hide Count;
  }

  lemma NewKeeps(s: State, t: nat, len: nat, u: nat)
    requires t < |s.threads| && u < |s.threads| && u != t
    ensures NewRecord(s, t, len).threads[u].pc == s.threads[u].pc
  {
    var th := s.threads[t];
    CountKeeps(SetThread(s, t, th.(pc := Busy(Pushing, Rec(t, th.next, len)), next := th.next + 1)), t, Emitted, u);
    hide Count;
  }

  lemma EmitStep(s: State, t: nat, len: nat, copied: bool, u: nat)
    requires Enabled(s, Emit(t, len, copied)) && u < |s.threads|
    ensures |Apply(s, Emit(t, len, copied)).threads| == |s.threads|
    ensures u != t ==> Apply(s, Emit(t, len, copied)).threads[u].pc == s.threads[u].pc
  {
    RefuseKeeps(s, t, Oversize, u);
    RefuseKeeps(s, t, DroppedFull, u);
    if u != t { NewKeeps(s, t, len, u); }
    hide Refuse, NewRecord;
  }

  lemma FormatStep(s: State, t: nat, n: int, formatted: bool, u: nat)
    requires Enabled(s, EmitF(t, n, formatted)) && u < |s.threads|
    ensures |Apply(s, EmitF(t, n, formatted)).threads| == |s.threads|
    ensures u != t ==> Apply(s, EmitF(t, n, formatted)).threads[u].pc == s.threads[u].pc
  {
    RefuseKeeps(s, t, Oversize, u);
    RefuseKeeps(s, t, FormatError, u);
    CountKeeps(s, t, Emitted, u);
    if u != t && n >= 0 { NewKeeps(s, t, n, u); }
    hide Refuse, NewRecord, Count;
  }

  lemma EmitSteps(s: State, a: Action, u: nat)
    requires Enabled(s, a) && u < |s.threads| && (a.Emit? || a.EmitF?)
    ensures |Apply(s, a).threads| == |s.threads|
    ensures u != a.t ==> Apply(s, a).threads[u].pc == s.threads[u].pc
  {
    hide Apply, Enabled;
    match a
    case Emit(t, len, copied) => EmitStep(s, t, len, copied, u);
    case EmitF(t, n, formatted) => FormatStep(s, t, n, formatted, u);
    case _ =>
  }

  lemma PassSteps(s: State, a: Action, t: nat)
    requires Enabled(s, a) && t < |s.threads|
    requires a.Spawn? || a.BeginAll? || a.Take? || a.NextRing? || a.DeliverBatch? || a.FreeOrphan? || a.Unlock?
      || a.Shutdown? || a.FailedExec? || a.ThreadExit?
    ensures t < |Apply(s, a).threads|
    ensures Distance(Apply(s, a).threads[t].pc) == Distance(s.threads[t].pc)
  {
    hide Used, Bytes, Without, DeliverEnabled, Fits, Count, Refuse, NewRecord;
  }

  /** Every step a thread takes brings it closer to returning, and no other step takes it back: after an emission it
      returns within ten steps of its own. */
  lemma ThreadAdvances(s: State, a: Action, t: nat)
    requires Shape(s) && Enabled(s, a) && t < |s.threads|
    ensures t < |Apply(s, a).threads|
    ensures ByThread(a, t) ==> Distance(Apply(s, a).threads[t].pc) < Distance(s.threads[t].pc)
    ensures !ByThread(a, t) && !((a.Emit? || a.EmitF?) && a.t == t) ==>
      Distance(Apply(s, a).threads[t].pc) == Distance(s.threads[t].pc)
  {
    hide Enabled, Apply, Distance, ByThread;
    if ModeAction(a) || a.GetRing? || a.TryPush? || a.RetryPush? { EarlySteps(s, a); EarlyByThread(a, t); }
    else if a.BeginOwn? || a.EndOwn? || a.DeliverDirect? { OwnHolds(s, a); LateSteps(s, a, t); }
    else if a.Emit? || a.EmitF? { NotByThread(a, t); EmitSteps(s, a, t); }
    else { PassSteps(s, a, t); NotByThread(a, t); }
  }

  lemma EarlyByThread(a: Action, t: nat)
    requires ModeAction(a) || a.GetRing? || a.TryPush? || a.RetryPush?
    ensures ByThread(a, t) <==> a.t == t
  {
  }

  lemma NotByThread(a: Action, t: nat)
    requires !ModeAction(a) && !QueueAction(a) && !a.BeginOwn? && !a.EndOwn? && !a.DeliverDirect?
    ensures !ByThread(a, t)
  {
  }

  /** Only the thread that drains its own ring gives drain_mu back after that. */
  lemma OwnHolds(s: State, a: Action)
    requires Shape(s) && Enabled(s, a)
    ensures a.EndOwn? ==> a.t < |s.threads| && DrainingOwn(s.threads[a.t].pc)
  {
    hide Used, Bytes, Fits, ThreadsOk, RegistryOk;
  }

  /** What the pass under way has still to do. */
  function PassWork(s: State): nat {
    if s.pass.Draining? then 2 * Queued(s.threads) + |s.pass.todo| + if s.pass.batch == [] then 0 else 1 else 0
  }

  /** Every step of a pass lowers what is left to do, and a pass with nothing left gives drain_mu back: it ends unless
      records are queued for ever. */
  lemma PassAdvances(s: State, a: Action)
    requires Shape(s) && Enabled(s, a) && (a.Take? || a.NextRing? || a.DeliverBatch?)
    ensures PassWork(Apply(s, a)) < PassWork(s)
  {
    hide Bytes, Used, ThreadsOk, RegistryOk, PassOk;
    if a.Take? {
      var x := s.pass.todo[0];
      QueuedSplit(s.threads, x);
      QueuedSplit(Apply(s, a).threads, x);
    }
  }

  lemma {:induction false} QueuedSplit(ts: seq<Thread>, x: nat)
    requires x < |ts|
    ensures Queued(ts) == Queued(ts[..x]) + Queued(ts[x+1..]) + if ts[x].ring.Live? then |ts[x].ring.q| else 0
  {
    if x == |ts| - 1 {
    } else {
      var n := |ts| - 1;
      QueuedSplit(ts[..n], x);
      assert ts[..n][..x] == ts[..x] && ts[..n][x+1..] == ts[x+1..][..n - x - 1];
    }
  }
}
