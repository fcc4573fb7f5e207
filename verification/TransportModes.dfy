/** Which way a record goes in hooks/common/hp_transport.h: through its thread's ring as long as the rings work,
    straight to hp_tx_deliver where they could not be started. */
module TransportModes {
  import opened TransportModel

  /** The rings work throughout: they start, every thread gets one, and nobody shuts the transport down. */
  predicate RingsWork(run: Run) {
    run.Then? ==>
      && !run.a.Shutdown? && !run.a.FailedExec? && (run.a.StartUp? ==> run.a.ringStarts)
      && (run.a.GetRing? ==> run.a.granted) && RingsWork(run.before)
  }

  /** The rings never start. */
  predicate NoRings(run: Run) {
    run.Then? ==> (run.a.StartUp? ==> !run.a.ringStarts) && NoRings(run.before)
  }

  /** Some record of the run went straight to hp_tx_deliver, or from a ring. */
  predicate SomeDirect(run: Run) {
    run.Then? && (run.a.DeliverDirect? || SomeDirect(run.before))
  }

  predicate SomeFromRing(run: Run) {
    run.Then? && (run.a.DeliverBatch? || SomeFromRing(run.before))
  }

  // ---- counting leaves threads where they are ----

  /** Every thread is where it was, with or without a ring as before. */
  predicate SamePaths(ts: seq<Thread>, us: seq<Thread>) {
    |ts| == |us| && forall t :: 0 <= t < |ts| ==> us[t].pc == ts[t].pc && us[t].ring.NoRing? == ts[t].ring.NoRing?
  }

  lemma CountPaths(s: State, t: nat, e: Event)
    requires t < |s.threads|
    ensures SamePaths(s.threads, Count(s, t, e).threads)
  {
  }

  lemma RefusePaths(s: State, t: nat, e: Event)
    requires t < |s.threads|
    ensures SamePaths(s.threads, Refuse(s, t, e).threads)
  {
    var s1 := SetThread(s, t, s.threads[t].(next := s.threads[t].next + 1));
    assert SamePaths(s.threads, s1.threads) && Refuse(s, t, e) == Count(Count(s1, t, Emitted), t, e);
    hide *;
    CountPaths(s1, t, Emitted);
    CountPaths(Count(s1, t, Emitted), t, e);
    PathsOnwards(s.threads, s1.threads, Count(s1, t, Emitted).threads);
    PathsOnwards(s.threads, Count(s1, t, Emitted).threads, Refuse(s, t, e).threads);
  }

  lemma PathsOnwards(a: seq<Thread>, b: seq<Thread>, c: seq<Thread>)
    requires SamePaths(a, b) && SamePaths(b, c)
    ensures SamePaths(a, c)
  {
  }

  /** A record given up. */
  lemma DropPaths(s: State, t: nat, e: Event)
    requires t < |s.threads|
    ensures SamePaths(s.threads[t := s.threads[t].(pc := Idle)], DropHeld(s, t, e).threads)
  {
    CountPaths(SetPc(s, t, Idle), t, e);
    hide Count;
  }

  /** A new record is about to be pushed. */
  lemma NewRecordPaths(s: State, t: nat, len: nat)
    requires t < |s.threads|
    ensures SamePaths(s.threads[t := s.threads[t].(pc := Busy(Pushing, Rec(t, s.threads[t].next, len)))],
      NewRecord(s, t, len).threads)
  {
    var th := s.threads[t];
    CountPaths(SetThread(s, t, th.(pc := Busy(Pushing, Rec(t, th.next, len)), next := th.next + 1)), t, Emitted);
    hide Count;
  }

  /** Emitting puts a record into the thread's hands or leaves all threads where they are. */
  lemma EmitPaths(s: State, a: Action)
    requires Enabled(s, a) && (a.Emit? || a.EmitF?)
    ensures var s' := Apply(s, a);
      && s'.mode == s.mode && s'.pass == s.pass && a.t < |s.threads|
      && (SamePaths(s.threads, s'.threads)
          || exists r :: SamePaths(s.threads[a.t := s.threads[a.t].(pc := Busy(Pushing, r))], s'.threads))
  {
    hide Count, Refuse, NewRecord, SamePaths;
    match a {
      case Emit(t, len, copied) =>
        RefusePaths(s, t, Oversize);
        RefusePaths(s, t, DroppedFull);
        NewRecordPaths(s, t, len);
      case EmitF(t, n, formatted) =>
        RefusePaths(s, t, FormatError);
        RefusePaths(s, t, Oversize);
        CountPaths(s, t, Emitted);
        if n >= 0 { NewRecordPaths(s, t, n); }
    }
  }

  // ---- working rings ----

  /** A thread on its way through its ring; past its first look at the mode it relies on the rings running. */
  predicate OnRingPath(mode: Mode, th: Thread) {
    && (th.pc.Busy? ==> th.pc.stage in {Pushing, Starting, Reloading, NeedRing, InRing, WaitLoop, GaveUp})
    && th.pc != OwnWait && th.pc != OwnDraining
    && ((th.pc.Busy? && th.pc.stage !in {Pushing, Starting}) || th.pc == Published ==> mode == RingMode)
  }

  ghost predicate AllOnRings(s: State) {
    && s.mode != Sync && (s.pass.Draining? ==> s.pass.who.All?)
    && forall t :: 0 <= t < |s.threads| ==> OnRingPath(s.mode, s.threads[t])
  }

  predicate KeepsRings(a: Action) {
    && !a.Shutdown? && !a.FailedExec? && (a.StartUp? ==> a.ringStarts) && (a.GetRing? ==> a.granted)
  }

  lemma EmitRing(s: State, a: Action)
    requires AllOnRings(s) && Enabled(s, a) && (a.Emit? || a.EmitF?)
    ensures AllOnRings(Apply(s, a))
  {
    EmitPaths(s, a);
    var s' := Apply(s, a);
    assert OnRingPath(s.mode, s.threads[a.t]);
    hide Apply, Enabled;
    forall t | 0 <= t < |s'.threads| ensures OnRingPath(s'.mode, s'.threads[t]) {
      assert OnRingPath(s.mode, s.threads[t]);
    }
  }

  lemma LookRing(s: State, a: Action)
    requires AllOnRings(s) && Enabled(s, a) && KeepsRings(a)
    requires a.LoadMode? || a.StartUp? || a.ReloadMode? || a.CheckMode?
    ensures AllOnRings(Apply(s, a))
  {
    hide Bytes, Used, Without, Fits;
    assert a.t < |s.threads| && OnRingPath(s.mode, s.threads[a.t]);
  }

  lemma WaitRing(s: State, a: Action)
    requires AllOnRings(s) && Enabled(s, a) && KeepsRings(a) && (a.LeaveWait? || a.TimeOut? || a.GiveUp?)
    ensures AllOnRings(Apply(s, a))
  {
    hide Bytes, Used, Without, Fits;
    assert a.t < |s.threads| && OnRingPath(s.mode, s.threads[a.t]);
  }

  lemma QueueRing(s: State, a: Action)
    requires AllOnRings(s) && Enabled(s, a) && KeepsRings(a) && (a.GetRing? || a.TryPush? || a.RetryPush?)
    ensures AllOnRings(Apply(s, a))
  {
    hide Used, Bytes, Without;
    assert OnRingPath(s.mode, s.threads[a.t]);
    if a.TryPush? { TryRing(s, a.t); }
  }

  lemma TryRing(s: State, t: nat)
    requires AllOnRings(s) && Enabled(s, TryPush(t))
    ensures AllOnRings(Apply(s, TryPush(t)))
  {
    var th := s.threads[t];
    assert OnRingPath(s.mode, th);
    DropRing(s, t, Oversize);
    DropRing(s, t, DroppedFull);
    MoveRing(s, t, th.(pc := Published, ring := th.ring.(q := th.ring.q + [th.pc.rec])));
    MoveRing(s, t, th.(pc := Busy(WaitLoop, th.pc.rec)));
    hide Used, Bytes, DropHeld, AllOnRings, OnRingPath, Fits;
  }

  lemma DropRing(s: State, t: nat, e: Event)
    requires AllOnRings(s) && t < |s.threads|
    ensures AllOnRings(DropHeld(s, t, e))
  {
    DropPaths(s, t, e);
    var s' := DropHeld(s, t, e);
    assert s'.mode == s.mode && s'.pass == s.pass;
    hide DropHeld;
    forall u | 0 <= u < |s'.threads| ensures OnRingPath(s'.mode, s'.threads[u]) {
      assert OnRingPath(s.mode, s.threads[u]);
    }
  }

  lemma MoveRing(s: State, t: nat, th: Thread)
    requires AllOnRings(s) && t < |s.threads| && OnRingPath(s.mode, th)
    ensures AllOnRings(SetThread(s, t, th))
  {
    hide OnRingPath;
  }

  /** No thread is on its way to deliver a record itself. */
  lemma NoneDelivers(s: State, a: Action)
    requires AllOnRings(s) && Enabled(s, a)
    ensures !a.BeginOwn? && !a.EndOwn? && !a.DeliverDirect?
  {
    hide Bytes, Used, Fits;
  }

  lemma DrainRing(s: State, a: Action)
    requires AllOnRings(s) && Enabled(s, a) && KeepsRings(a)
    requires a.Spawn? || a.BeginAll? || a.Take? || a.NextRing? || a.DeliverBatch? || a.FreeOrphan? || a.Unlock?
      || a.ThreadExit?
    ensures AllOnRings(Apply(s, a))
  {
    hide Bytes, Used, Without, Fits;
  }

  /** No step takes a thread off its way. */
  lemma RingStep(s: State, a: Action)
    requires AllOnRings(s) && Enabled(s, a) && KeepsRings(a)
    ensures AllOnRings(Apply(s, a)) && !a.DeliverDirect?
  {
    NoneDelivers(s, a);
    hide Apply, Enabled, AllOnRings;
    if a.Emit? || a.EmitF? { EmitRing(s, a); }
    else if a.LoadMode? || a.StartUp? || a.ReloadMode? || a.CheckMode? { LookRing(s, a); }
    else if a.LeaveWait? || a.TimeOut? || a.GiveUp? { WaitRing(s, a); }
    else if a.GetRing? || a.TryPush? || a.RetryPush? { QueueRing(s, a); }
    else { DrainRing(s, a); }
  }

  /** While the rings work every record goes through one: none is delivered by its own thread. */
  lemma {:induction false} AllThroughRings(run: Run)
    requires IsRun(run) && RingsWork(run)
    ensures AllOnRings(run.s) && !SomeDirect(run)
  {
    if run.Then? {
      AllThroughRings(run.before);
      RingStep(run.before.s, run.a);
      hide Apply, Enabled, AllOnRings;
    }
  }

  // ---- no rings ----

  /** A thread without a ring, on its way to deliver its record itself. */
  predicate OnSyncPath(th: Thread) {
    && th.ring.NoRing?
    && (th.pc.Busy? ==> th.pc.stage in {Pushing, Starting, Reloading, SyncWait, SyncDraining, SyncDeliver})
    && th.pc != Published
  }

  ghost predicate AllSync(s: State) {
    && s.mode != RingMode && (s.pass.Draining? ==> s.pass.batch == [])
    && forall t :: 0 <= t < |s.threads| ==> OnSyncPath(s.threads[t])
  }

  lemma EmitSync(s: State, a: Action)
    requires AllSync(s) && Enabled(s, a) && (a.Emit? || a.EmitF?)
    ensures AllSync(Apply(s, a))
  {
    EmitPaths(s, a);
    var s' := Apply(s, a);
    assert OnSyncPath(s.threads[a.t]);
    hide Apply, Enabled;
    forall t | 0 <= t < |s'.threads| ensures OnSyncPath(s'.threads[t]) {
      assert OnSyncPath(s.threads[t]);
    }
  }

  /** No thread is on its way to a ring. */
  lemma NoneQueues(s: State, a: Action)
    requires AllSync(s) && Enabled(s, a)
    ensures !a.GetRing? && !a.TryPush? && !a.RetryPush? && !a.LeaveWait? && !a.TimeOut? && !a.GiveUp?
    ensures !a.DeliverBatch?
    ensures !a.Take? && !a.FreeOrphan?
  {
    hide Bytes, Used, Fits;
  }

  lemma LookSync(s: State, a: Action)
    requires AllSync(s) && Enabled(s, a) && (a.StartUp? ==> !a.ringStarts)
    requires a.LoadMode? || a.StartUp? || a.ReloadMode? || a.CheckMode?
    ensures AllSync(Apply(s, a))
  {
    hide Bytes, Used, Without, Fits;
    assert a.t < |s.threads| && OnSyncPath(s.threads[a.t]);
  }

  lemma OwnSync(s: State, a: Action)
    requires AllSync(s) && Enabled(s, a) && (a.StartUp? ==> !a.ringStarts)
    requires a.BeginOwn? || a.EndOwn? || a.DeliverDirect? || a.ThreadExit?
    ensures AllSync(Apply(s, a))
  {
    hide Bytes, Used, Without, Fits;
    assert a.t < |s.threads| && OnSyncPath(s.threads[a.t]);
  }

  lemma DrainSync(s: State, a: Action)
    requires AllSync(s) && Enabled(s, a) && (a.StartUp? ==> !a.ringStarts)
    requires a.Spawn? || a.BeginAll? || a.NextRing? || a.Unlock? || a.Shutdown? || a.FailedExec?
    ensures AllSync(Apply(s, a))
  {
    hide Bytes, Used, Without, Fits;
  }

  lemma SyncStep(s: State, a: Action)
    requires AllSync(s) && Enabled(s, a) && (a.StartUp? ==> !a.ringStarts)
    ensures AllSync(Apply(s, a)) && !a.DeliverBatch?
  {
    NoneQueues(s, a);
    hide Apply, Enabled, AllSync;
    if a.Emit? || a.EmitF? { EmitSync(s, a); }
    else if a.LoadMode? || a.StartUp? || a.ReloadMode? || a.CheckMode? { LookSync(s, a); }
    else if a.BeginOwn? || a.EndOwn? || a.DeliverDirect? || a.ThreadExit? { OwnSync(s, a); }
    else { DrainSync(s, a); }
  }

  /** Where the rings never start nobody gets one, and every record is delivered by its own thread. */
  lemma {:induction false} AllDirect(run: Run)
    requires IsRun(run) && NoRings(run)
    ensures AllSync(run.s) && !SomeFromRing(run)
  {
    if run.Then? {
      AllDirect(run.before);
      SyncStep(run.before.s, run.a);
      hide Apply, Enabled, AllSync;
    }
  }
}
