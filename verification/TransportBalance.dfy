/** Exact accounting: at every moment each record ever emitted is in exactly one place. */
module TransportBalance {
  import opened TransportModel

  function Batch(s: State): seq<Rec> {
    if s.pass.Draining? then s.pass.batch else []
  }

  // ---- what a status record would sum up ----

  function RingCounters(ts: seq<Thread>): Counters {
    if ts == [] then multiset{}
    else RingCounters(ts[..|ts|-1]) + if ts[|ts|-1].ring.Live? then ts[|ts|-1].ring.ctr else multiset{}
  }

  /** The global block and the blocks of all rings (hp_tx_send_status). */
  function Totals(s: State): Counters {
    s.ctr + RingCounters(s.threads)
  }

  function Queued(ts: seq<Thread>): nat {
    if ts == [] then 0 else Queued(ts[..|ts|-1]) + if ts[|ts|-1].ring.Live? then |ts[|ts|-1].ring.q| else 0
  }

  function Held(ts: seq<Thread>): nat {
    if ts == [] then 0 else Held(ts[..|ts|-1]) + if ts[|ts|-1].pc.Busy? then 1 else 0
  }

  /** Emitted records are sent, lost, refused for one of three reasons, queued, batched or in a producer's
      hands; the empty formatted records are counted as emitted and are nowhere. */
  predicate Balanced(s: State) {
    var c := Totals(s);
    c[Emitted] == s.sent + s.lost + c[DroppedFull] + c[Oversize] + c[FormatError]
                  + Queued(s.threads) + |Batch(s)| + Held(s.threads) + s.empties
  }

  // ---- the same as one sum per thread ----

  function Due(c: Counters): int {
    c[Emitted] as int - c[DroppedFull] - c[Oversize] - c[FormatError]
  }

  function ThreadDue(th: Thread): int {
    (if th.ring.Live? then Due(th.ring.ctr) - |th.ring.q| else 0) - if th.pc.Busy? then 1 else 0
  }

  function SumDue(ts: seq<Thread>): int {
    if ts == [] then 0 else SumDue(ts[..|ts|-1]) + ThreadDue(ts[|ts|-1])
  }

  function Gap(s: State): int {
    Due(s.ctr) + SumDue(s.threads) - s.sent - s.lost - |Batch(s)| - s.empties
  }

  lemma {:induction false} SumDueSplits(ts: seq<Thread>)
    ensures SumDue(ts) == Due(RingCounters(ts)) - Queued(ts) - Held(ts)
  {
    if ts != [] { SumDueSplits(ts[..|ts|-1]); }
  }

  predicate NoGap(s: State) {
    Gap(s) == 0
  }

  /** hp_tx_deliver counts exactly the records it is handed. */
  predicate LogCounted(s: State) {
    |s.log| == s.sent + s.lost
  }

  lemma BalancedIsNoGap(s: State)
    ensures Balanced(s) <==> NoGap(s)
  {
    SumDueSplits(s.threads);
  }

  lemma {:induction false} SumDueUpdate(ts: seq<Thread>, t: nat, th: Thread)
    requires t < |ts|
    ensures SumDue(ts[t := th]) == SumDue(ts) - ThreadDue(ts[t]) + ThreadDue(th)
  {
    var us := ts[t := th];
    if t == |ts| - 1 {
      assert us[..|us|-1] == ts[..|ts|-1];
    } else {
      SumDueUpdate(ts[..|ts|-1], t, th);
      assert us[..|us|-1] == ts[..|ts|-1][t := th];
    }
  }

  lemma SetThreadGap(s: State, t: nat, th: Thread)
    requires t < |s.threads|
    ensures Gap(SetThread(s, t, th)) == Gap(s) - ThreadDue(s.threads[t]) + ThreadDue(th)
  {
    SumDueUpdate(s.threads, t, th);
  }

  function Weight(e: Event): int {
    if e.Emitted? then 1 else -1
  }

  lemma DuePlus(c: Counters, e: Event)
    ensures Due(c + multiset{e}) == Due(c) + Weight(e)
  {
  }

  lemma CountGap(s: State, t: nat, e: Event)
    requires t < |s.threads|
    ensures Gap(Count(s, t, e)) == Gap(s) + Weight(e)
    ensures Count(s, t, e).threads[t].pc == s.threads[t].pc
  {
    var th := s.threads[t];
    DuePlus(s.ctr, e);
    if th.ring.Live? && !th.ring.orphan {
      DuePlus(th.ring.ctr, e);
      SetThreadGap(s, t, th.(ring := th.ring.(ctr := th.ring.ctr + multiset{e})));
    }
    hide Due, SumDue;
  }

  lemma SetPcGap(s: State, t: nat, pc: Pc)
    requires t < |s.threads|
    ensures Gap(SetPc(s, t, pc)) == Gap(s) + (if s.threads[t].pc.Busy? then 1 else 0) - (if pc.Busy? then 1 else 0)
  {
    SetThreadGap(s, t, s.threads[t].(pc := pc));
  }

  lemma NewRecordGap(s: State, t: nat, len: nat)
    requires t < |s.threads| && s.threads[t].pc == Idle
    ensures Gap(NewRecord(s, t, len)) == Gap(s)
  {
    var th := s.threads[t];
    var th' := th.(pc := Busy(Pushing, Rec(t, th.next, len)), next := th.next + 1);
    SetThreadGap(s, t, th');
    CountGap(SetThread(s, t, th'), t, Emitted);
  }

  lemma RefuseGap(s: State, t: nat, e: Event)
    requires t < |s.threads| && !e.Emitted?
    ensures Gap(Refuse(s, t, e)) == Gap(s)
  {
    var th' := s.threads[t].(next := s.threads[t].next + 1);
    SetThreadGap(s, t, th');
    hide Gap, Count;
    CountTwiceGap(SetThread(s, t, th'), t, e);
  }

  lemma CountTwiceGap(s: State, t: nat, e: Event)
    requires t < |s.threads| && !e.Emitted?
    ensures Gap(Count(Count(s, t, Emitted), t, e)) == Gap(s)
  {
    hide Gap, Count;
    CountGap(s, t, Emitted);
    CountGap(Count(s, t, Emitted), t, e);
  }

  lemma DropGap(s: State, t: nat, e: Event)
    requires t < |s.threads| && s.threads[t].pc.Busy? && !e.Emitted?
    ensures Gap(DropHeld(s, t, e)) == Gap(s)
  {
    SetPcGap(s, t, Idle);
    CountGap(SetPc(s, t, Idle), t, e);
  }

  lemma EnqueueGap(s: State, t: nat)
    requires t < |s.threads| && s.threads[t].pc.Busy? && s.threads[t].ring.Live?
    ensures Gap(Enqueue(s, t)) == Gap(s)
  {
    SetThreadGap(s, t, Enqueue(s, t).threads[t]);
  }

  lemma TakeGap(s: State)
    requires TakeEnabled(s)
    ensures Gap(TakeOne(s)) == Gap(s)
  {
    var x := s.pass.todo[0];
    var th := s.threads[x];
    var th' := th.(ring := th.ring.(q := th.ring.q[1..]));
    SetThreadGap(s, x, th');
    hide SumDue;
    assert TakeOne(s).threads == SetThread(s, x, th').threads;
  }

  lemma FreeGap(s: State, t: nat)
    requires FreeNow(s, t)
    ensures Gap(Free(s, t)) == Gap(s)
  {
    SetThreadGap(s, t, s.threads[t].(ring := Freed));
  }

  lemma GetRingGap(s: State, t: nat, granted: bool)
    requires Enabled(s, GetRing(t, granted))
    ensures Gap(Apply(s, GetRing(t, granted))) == Gap(s)
  {
    hide SumDue;
    var rec := s.threads[t].pc.rec;
    if s.threads[t].ring.Live? {
      SetPcGap(s, t, Busy(InRing, rec));
    } else if granted {
      assert Register(s, t).threads == SetThread(s, t, Register(s, t).threads[t]).threads;
      SetThreadGap(s, t, Register(s, t).threads[t]);
      SetPcGap(Register(s, t), t, Busy(InRing, rec));
    } else {
      SetPcGap(s, t, Busy(SyncWait, rec));
    }
  }

  lemma EmptyGap(s: State, t: nat)
    requires t < |s.threads|
    ensures Gap(Count(s, t, Emitted).(empties := s.empties + 1)) == Gap(s)
  {
    CountGap(s, t, Emitted);
    hide SumDue, Count, Due;
  }

  lemma EmitKeeps(s: State, a: Action)
    requires NoGap(s) && (a.Emit? || a.EmitF?) && Enabled(s, a)
    ensures NoGap(Apply(s, a))
  {
    hide Gap, NewRecord, Refuse, Count;
    match a {
      case Emit(t, len, copied) =>
        if len > MAX_RECORD { RefuseGap(s, t, Oversize); }
        else if len > STACK_COPY && !copied { RefuseGap(s, t, DroppedFull); }
        else { NewRecordGap(s, t, len); }
      case EmitF(t, n, formatted) =>
        if n < 0 { RefuseGap(s, t, FormatError); }
        else if n == 0 { EmptyGap(s, t); }
        else if n > MAX_RECORD { RefuseGap(s, t, Oversize); }
        else if n >= STACK_COPY && !formatted { RefuseGap(s, t, FormatError); }
        else { NewRecordGap(s, t, n); }
    }
  }

  lemma PcStepKeeps(s: State, a: Action)
    requires NoGap(s) && Enabled(s, a)
    requires a.LoadMode? || a.StartUp? || a.ReloadMode? || a.LeaveWait? || a.TimeOut? || a.CheckMode? || a.BeginOwn?
      || a.EndOwn?
    ensures NoGap(Apply(s, a))
  {
    var s' := Apply(s, a);
    SetPcGap(s, a.t, s'.threads[a.t].pc);
    assert s'.threads == SetPc(s, a.t, s'.threads[a.t].pc).threads;
    hide SumDue;
  }

  lemma GiveUpKeeps(s: State, t: nat)
    requires NoGap(s) && Enabled(s, GiveUp(t))
    ensures NoGap(Apply(s, GiveUp(t)))
  {
    hide Gap, DropHeld;
    if s.mode != RingMode { SetPcGap(s, t, Busy(SyncWait, s.threads[t].pc.rec)); } else { DropGap(s, t, DroppedFull); }
  }

  lemma QueueKeeps(s: State, a: Action)
    requires NoGap(s) && (a.GetRing? || a.TryPush? || a.RetryPush?) && Enabled(s, a)
    ensures NoGap(Apply(s, a))
  {
    hide Gap, DropHeld;
    match a {
      case GetRing(t, granted) => GetRingGap(s, t, granted);
      case TryPush(t) =>
        if s.threads[t].pc.rec.len + 4 > s.cap / 2 { DropGap(s, t, Oversize); }
        else if Fits(s, t) { EnqueueGap(s, t); }
        else if s.neverWait { DropGap(s, t, DroppedFull); }
        else { SetPcGap(s, t, Busy(WaitLoop, s.threads[t].pc.rec)); }
      case RetryPush(t) => EnqueueGap(s, t);
    }
  }

  lemma DirectKeeps(s: State, t: nat, ok: bool)
    requires NoGap(s) && Enabled(s, DeliverDirect(t, ok))
    ensures NoGap(Apply(s, DeliverDirect(t, ok)))
  {
    SetPcGap(Delivered(s, [s.threads[t].pc.rec], ok), t, Idle);
  }

  lemma SpawnKeeps(s: State)
    requires NoGap(s)
    ensures NoGap(Apply(s, Spawn))
  {
    var ts := s.threads + [Thread(Idle, NoRing, 0)];
    assert ts[..|ts|-1] == s.threads;
  }

  lemma ExitKeeps(s: State, t: nat)
    requires NoGap(s) && Enabled(s, ThreadExit(t))
    ensures NoGap(Apply(s, ThreadExit(t)))
  {
    SetThreadGap(s, t, Apply(s, ThreadExit(t)).threads[t]);
  }

  lemma DrainKeeps(s: State, a: Action)
    requires NoGap(s) && Enabled(s, a)
    requires a.BeginAll? || a.Take? || a.NextRing? || a.DeliverBatch? || a.FreeOrphan? || a.Unlock? || a.Shutdown?
      || a.FailedExec?
    ensures NoGap(Apply(s, a))
  {
    hide SumDue;
    if a.Take? { TakeGap(s); }
    if a.FreeOrphan? { FreeGap(s, a.t); }
  }

  lemma StepKeepsLogCounted(s: State, a: Action)
    requires LogCounted(s) && Enabled(s, a)
    ensures LogCounted(Apply(s, a))
  {
    hide LogCounted;
    if a.DeliverDirect? || a.DeliverBatch? {
      DeliverCounted(s, a);
    } else if a.Emit? || a.EmitF? || a.GiveUp? || a.GetRing? || a.TryPush? || a.RetryPush? {
      EmitTraffic(s, a);
      SameTrafficCounted(s, Apply(s, a));
    } else {
      OtherTraffic(s, a);
      SameTrafficCounted(s, Apply(s, a));
    }
  }

  /** Nothing is handed over and nothing counted as sent or lost. */
  predicate Quiet(s: State, s': State) {
    s'.log == s.log && s'.sent == s.sent && s'.lost == s.lost
  }

  lemma SameTrafficCounted(s: State, s': State)
    requires LogCounted(s) && Quiet(s, s')
    ensures LogCounted(s')
  {
  }

  lemma DeliverCounted(s: State, a: Action)
    requires LogCounted(s) && Enabled(s, a) && (a.DeliverDirect? || a.DeliverBatch?)
    ensures LogCounted(Apply(s, a))
  {
    hide Bytes, Used;
  }

  lemma EmitTraffic(s: State, a: Action)
    requires Enabled(s, a) && (a.Emit? || a.EmitF? || a.GiveUp? || a.GetRing? || a.TryPush? || a.RetryPush?)
    ensures Quiet(s, Apply(s, a))
  {
    hide Bytes, Used, Count, NewRecord, Refuse, DropHeld;
  }

  lemma OtherTraffic(s: State, a: Action)
    requires Enabled(s, a) && !a.DeliverDirect? && !a.DeliverBatch?
    requires !(a.Emit? || a.EmitF? || a.GiveUp? || a.GetRing? || a.TryPush? || a.RetryPush?)
    ensures Quiet(s, Apply(s, a))
  {
    hide Bytes, Used, Count, NewRecord, Refuse, DropHeld;
  }

  /** Every step keeps the account. */
  lemma StepKeepsNoGap(s: State, a: Action)
    requires NoGap(s) && Enabled(s, a)
    ensures NoGap(Apply(s, a))
  {
    hide NoGap, Enabled, Apply;
    if a.Emit? || a.EmitF? { EmitKeeps(s, a); }
    else if a.GiveUp? { GiveUpKeeps(s, a.t); }
    else if a.GetRing? || a.TryPush? || a.RetryPush? { QueueKeeps(s, a); }
    else if a.DeliverDirect? { DirectKeeps(s, a.t, a.ok); }
    else if a.Spawn? { SpawnKeeps(s); }
    else if a.ThreadExit? { ExitKeeps(s, a.t); }
    else if a.LoadMode? || a.StartUp? || a.ReloadMode? || a.LeaveWait? || a.TimeOut? || a.CheckMode? || a.BeginOwn?
      || a.EndOwn?
    {
      PcStepKeeps(s, a);
    }
    else { DrainKeeps(s, a); }
  }

  lemma InitNoGap(s: State)
    requires Init(s)
    ensures NoGap(s)
  {
  }

  lemma {:induction false} RingCountersUpdate(ts: seq<Thread>, t: nat, th: Thread)
    requires t < |ts| && ts[t].ring.Live? && !th.ring.Live?
    ensures RingCounters(ts[t := th]) + ts[t].ring.ctr == RingCounters(ts)
  {
    var us := ts[t := th];
    if t == |ts| - 1 {
      assert us[..|us|-1] == ts[..|ts|-1];
    } else {
      RingCountersUpdate(ts[..|ts|-1], t, th);
      assert us[..|us|-1] == ts[..|ts|-1][t := th];
    }
  }

  /** Freeing an orphan never drops a record and leaves every total as it was. */
  lemma FreeKeepsTotals(s: State, t: nat)
    requires Enabled(s, FreeOrphan(t))
    ensures Totals(Apply(s, FreeOrphan(t))) == Totals(s) && s.threads[t].ring.q == []
  {
    RingCountersUpdate(s.threads, t, s.threads[t].(ring := Freed));
  }
}
