/** What each counter of hooks/common/hp_transport.h stands for in any run: sent and dropped_lost the records of the
    deliveries that succeeded and failed, the producers' counters the records emitted and refused, each for its own
    cause. */
module TransportCounts {
  import opened TransportModel
  import opened TransportBalance

  // ---- sent and lost ----

  predicate Delivers(a: Action) {
    a.DeliverBatch? || a.DeliverDirect?
  }

  /** Whether a delivery reached the collector. */
  predicate Arrived(a: Action) {
    (a.DeliverBatch? && a.ok) || (a.DeliverDirect? && a.ok)
  }

  /** The records a step hands to hp_tx_deliver. */
  function HandedOver(s: State, a: Action): seq<Rec> {
    if a.DeliverBatch? then Batch(s)
    else if a.DeliverDirect? && a.t < |s.threads| && s.threads[a.t].pc.Busy? then [s.threads[a.t].pc.rec]
    else []
  }

  /** The records of the run's deliveries that arrived, or of those that did not. */
  function DeliveredIn(run: Run, arrived: bool): nat {
    match run
    case Start(_) => 0
    case Then(before, a, _) =>
      DeliveredIn(before, arrived) + if Delivers(a) && Arrived(a) == arrived then |HandedOver(before.s, a)| else 0
  }

  /** Some delivery of the run failed. */
  predicate SomeFailed(run: Run) {
    run.Then? && (SomeFailed(run.before) || (Delivers(run.a) && !Arrived(run.a)))
  }

  lemma DeliveryStep(s: State, a: Action)
    requires Enabled(s, a) && Delivers(a)
    ensures HandedOver(s, a) != []
    ensures var s', n := Apply(s, a), |HandedOver(s, a)|;
      && s'.sent == s.sent + (if Arrived(a) then n else 0)
      && s'.lost == s.lost + (if Arrived(a) then 0 else n)
      && s'.log == s.log + HandedOver(s, a)
  {
    hide Bytes, Used;
  }

  lemma OtherStep(s: State, a: Action)
    requires Enabled(s, a) && !Delivers(a)
    ensures Quiet(s, Apply(s, a))
  {
    hide Quiet, Apply, Enabled;
    if a.Emit? || a.EmitF? || a.GiveUp? || a.GetRing? || a.TryPush? || a.RetryPush? {
      EmitTraffic(s, a);
    } else {
      OtherTraffic(s, a);
    }
  }

  /** In every run `sent` counts what the deliveries that arrived held and dropped_lost what the others held, so that
      nothing is lost exactly when no delivery failed. */
  lemma {:induction false} SentAndLost(run: Run)
    requires IsRun(run)
    ensures run.s.sent == DeliveredIn(run, true) && run.s.lost == DeliveredIn(run, false)
    ensures run.s.lost == 0 <==> !SomeFailed(run)
  {
    if run.Then? {
      SentAndLost(run.before);
      if Delivers(run.a) { DeliveryStep(run.before.s, run.a); } else { OtherStep(run.before.s, run.a); }
      hide Apply, Enabled, HandedOver, Delivers, Arrived;
    }
  }

  // ---- emitted and refused ----

  /** The record in a thread's hands. */
  function InHand(s: State, t: nat): Rec {
    if t < |s.threads| && s.threads[t].pc.Busy? then s.threads[t].pc.rec else Rec(t, 0, 0)
  }

  /** The bytes queued in a thread's ring. */
  function InRingOf(s: State, t: nat): nat {
    if t < |s.threads| && s.threads[t].ring.Live? then Used(s.threads[t].ring.q) else 0
  }

  /** A step that counts one event, by cause: emitting; a record longer than a record may be, or taking with its length
      more than half the ring; a format that fails, or for which no copy can be made; a record no copy can be made of,
      one that finds no room when there is no waiting, and one for which waiting has ended in vain. */
  predicate Counts(s: State, a: Action, e: Event) {
    match e
    case Emitted => a.Emit? || a.EmitF?
    case Oversize =>
      || (a.Emit? && a.len > MAX_RECORD)
      || (a.EmitF? && a.n > MAX_RECORD)
      || (a.TryPush? && 2 * (4 + InHand(s, a.t).len) > s.cap)
    case FormatError => a.EmitF? && (a.n < 0 || (STACK_COPY <= a.n <= MAX_RECORD && !a.formatted))
    case DroppedFull =>
      || (a.Emit? && STACK_COPY < a.len <= MAX_RECORD && !a.copied)
      || (a.TryPush? && s.neverWait && 2 * (4 + InHand(s, a.t).len) <= s.cap
          && InRingOf(s, a.t) + 4 + InHand(s, a.t).len > s.cap)
      || (a.GiveUp? && s.mode == RingMode)
  }

  function CountedIn(run: Run, e: Event): nat {
    match run
    case Start(_) => 0
    case Then(before, a, _) => CountedIn(before, e) + if Counts(before.s, a, e) then 1 else 0
  }

  function Block(th: Thread): Counters {
    if th.ring.Live? then th.ring.ctr else multiset{}
  }

  lemma {:induction false} BlockUpdate(ts: seq<Thread>, t: nat, th: Thread, e: Event)
    requires t < |ts|
    ensures RingCounters(ts[t := th])[e] + Block(ts[t])[e] == RingCounters(ts)[e] + Block(th)[e]
  {
    var us := ts[t := th];
    if t == |ts| - 1 {
      assert us[..|us|-1] == ts[..|ts|-1];
    } else {
      BlockUpdate(ts[..|ts|-1], t, th, e);
      assert us[..|us|-1] == ts[..|ts|-1][t := th];
    }
  }

  predicate SameTotals(s: State, s': State) {
    forall e: Event :: Totals(s')[e] == Totals(s)[e]
  }

  predicate OneMore(s: State, s': State, e: Event) {
    forall f: Event :: Totals(s')[f] == Totals(s)[f] + if f == e then 1 else 0
  }

  /** A thread that changes without its counters changing. */
  lemma SameBlock(s: State, t: nat, th: Thread)
    requires t < |s.threads| && Block(th) == Block(s.threads[t])
    ensures SameTotals(s, SetThread(s, t, th))
  {
    forall e: Event ensures Totals(SetThread(s, t, th))[e] == Totals(s)[e] {
      BlockUpdate(s.threads, t, th, e);
    }
    hide Block, RingCounters;
  }

  lemma CountTotals(s: State, t: nat, e: Event)
    requires t < |s.threads|
    ensures OneMore(s, Count(s, t, e), e)
  {
    forall f: Event ensures Totals(Count(s, t, e))[f] == Totals(s)[f] + if f == e then 1 else 0 {
      CountsOne(s, t, e, f);
    }
    hide Count, Totals;
  }

  lemma CountsOne(s: State, t: nat, e: Event, f: Event)
    requires t < |s.threads|
    ensures Totals(Count(s, t, e))[f] == Totals(s)[f] + if f == e then 1 else 0
  {
    hide RingCounters, Totals;
    var th := s.threads[t];
    TotalAt(s, f);
    TotalAt(Count(s, t, e), f);
    if th.ring.Live? && !th.ring.orphan {
      var th' := th.(ring := th.ring.(ctr := th.ring.ctr + multiset{e}));
      BlockUpdate(s.threads, t, th', f);
      OneMoreIn(th.ring.ctr, e, f);
    } else {
      OneMoreIn(s.ctr, e, f);
    }
  }

  lemma OneMoreIn(c: Counters, e: Event, f: Event)
    ensures (c + multiset{e})[f] == c[f] + if f == e then 1 else 0
  {
  }

  lemma TotalAt(s: State, f: Event)
    ensures Totals(s)[f] == s.ctr[f] + RingCounters(s.threads)[f]
  {
  }

  /** The record is counted as emitted and refused for a cause. */
  predicate RefusedFor(s: State, s': State, e: Event) {
    forall f: Event :: Totals(s')[f] == Totals(s)[f] + (if f == Emitted then 1 else 0) + if f == e then 1 else 0
  }

  lemma RefuseTotals(s: State, t: nat, e: Event)
    requires t < |s.threads|
    ensures RefusedFor(s, Refuse(s, t, e), e)
  {
    var s1 := SetThread(s, t, s.threads[t].(next := s.threads[t].next + 1));
    SameBlock(s, t, s.threads[t].(next := s.threads[t].next + 1));
    assert Refuse(s, t, e) == Count(Count(s1, t, Emitted), t, e);
    hide Count, Totals, SetThread, Block, Refuse;
    CountTotals(s1, t, Emitted);
    CountTotals(Count(s1, t, Emitted), t, e);
  }

  lemma NewRecordTotals(s: State, t: nat, len: nat)
    requires t < |s.threads|
    ensures OneMore(s, NewRecord(s, t, len), Emitted)
  {
    var th := s.threads[t];
    var th' := th.(pc := Busy(Pushing, Rec(t, th.next, len)), next := th.next + 1);
    SameBlock(s, t, th');
    hide Count, Totals;
    CountTotals(SetThread(s, t, th'), t, Emitted);
  }

  lemma DropTotals(s: State, t: nat, e: Event)
    requires t < |s.threads|
    ensures OneMore(s, DropHeld(s, t, e), e)
  {
    SameBlock(s, t, s.threads[t].(pc := Idle));
    hide Count, Totals;
    CountTotals(SetPc(s, t, Idle), t, e);
  }

  /** One event more is counted where the step counts it, and nothing else. */
  predicate Tallies(s: State, a: Action, s': State) {
    forall e: Event :: Totals(s')[e] == Totals(s)[e] + if Counts(s, a, e) then 1 else 0
  }

  lemma EmitTallies(s: State, a: Action)
    requires (a.Emit? || a.EmitF?) && Enabled(s, a)
    ensures Tallies(s, a, Apply(s, a))
  {
    hide Totals, NewRecord, Refuse, Count;
    match a {
      case Emit(t, len, copied) =>
        if len > MAX_RECORD { RefuseTotals(s, t, Oversize); }
        else if len > STACK_COPY && !copied { RefuseTotals(s, t, DroppedFull); }
        else { NewRecordTotals(s, t, len); }
      case EmitF(t, n, formatted) =>
        if n < 0 { RefuseTotals(s, t, FormatError); }
        else if n == 0 { EmptyTotals(s, t); }
        else if n > MAX_RECORD { RefuseTotals(s, t, Oversize); }
        else if n >= STACK_COPY && !formatted { RefuseTotals(s, t, FormatError); }
        else { NewRecordTotals(s, t, n); }
    }
  }

  lemma EmptyTotals(s: State, t: nat)
    requires t < |s.threads|
    ensures OneMore(s, Count(s, t, Emitted).(empties := s.empties + 1), Emitted)
  {
    CountTotals(s, t, Emitted);
    hide Count;
  }

  lemma GiveUpTallies(s: State, t: nat)
    requires Enabled(s, GiveUp(t))
    ensures Tallies(s, GiveUp(t), Apply(s, GiveUp(t)))
  {
    hide Totals, DropHeld, Used;
    if s.mode != RingMode {
      SameBlock(s, t, s.threads[t].(pc := Busy(SyncWait, s.threads[t].pc.rec)));
    } else {
      DropTotals(s, t, DroppedFull);
    }
  }

  /** What a first push does. */
  lemma TryOutcome(s: State, t: nat)
    requires Enabled(s, TryPush(t))
    ensures var s', th := Apply(s, TryPush(t)), s.threads[t];
      if Counts(s, TryPush(t), Oversize) then s' == DropHeld(s, t, Oversize)
      else if Counts(s, TryPush(t), DroppedFull) then s' == DropHeld(s, t, DroppedFull)
      else exists th' :: Block(th') == Block(th) && s' == SetThread(s, t, th')
  {
    hide Used, DropHeld;
    var s', th := Apply(s, TryPush(t)), s.threads[t];
    if th.pc.rec.len + 4 <= s.cap / 2 && (Fits(s, t) || !s.neverWait) {
      assert Block(s'.threads[t]) == Block(th) && s' == SetThread(s, t, s'.threads[t]);
    }
  }

  lemma TryTallies(s: State, t: nat)
    requires Enabled(s, TryPush(t))
    ensures Tallies(s, TryPush(t), Apply(s, TryPush(t)))
  {
    TryOutcome(s, t);
    var s', th := Apply(s, TryPush(t)), s.threads[t];
    assert t < |s.threads|;
    assert !Counts(s, TryPush(t), Emitted) && !Counts(s, TryPush(t), FormatError);
    assert Counts(s, TryPush(t), Oversize) ==> !Counts(s, TryPush(t), DroppedFull);
    hide Totals, DropHeld, Used, Apply, Enabled, Counts, Block, SetThread;
    if Counts(s, TryPush(t), Oversize) {
      DropTotals(s, t, Oversize);
    } else if Counts(s, TryPush(t), DroppedFull) {
      DropTotals(s, t, DroppedFull);
    } else {
      var th' :| Block(th') == Block(th) && s' == SetThread(s, t, th');
      SameBlock(s, t, th');
    }
  }

  lemma GetRingTotals(s: State, t: nat, granted: bool)
    requires Enabled(s, GetRing(t, granted))
    ensures SameTotals(s, Apply(s, GetRing(t, granted)))
  {
    hide RingCounters;
    var th := s.threads[t];
    if !th.ring.Live? && granted {
      var th' := th.(pc := Busy(InRing, th.pc.rec), ring := Live([], multiset{}, false));
      SameBlock(s, t, th');
      assert Apply(s, GetRing(t, granted)).threads == SetThread(s, t, th').threads;
    } else {
      SameBlock(s, t, th.(pc := Busy(if th.ring.Live? then InRing else SyncWait, th.pc.rec)));
    }
  }

  /** The steps of one thread that count nothing. */
  lemma ThreadTotals(s: State, a: Action)
    requires Enabled(s, a)
    requires a.LoadMode? || a.StartUp? || a.ReloadMode? || a.LeaveWait? || a.TimeOut? || a.CheckMode? || a.BeginOwn?
      || a.EndOwn? || a.DeliverDirect? || a.ThreadExit? || a.RetryPush?
    ensures SameTotals(s, Apply(s, a))
  {
    var s' := Apply(s, a);
    SameBlock(s, a.t, s'.threads[a.t]);
    assert s'.threads == SetThread(s, a.t, s'.threads[a.t]).threads;
    hide RingCounters, Used;
  }

  lemma DrainTotals(s: State, a: Action)
    requires Enabled(s, a)
    requires a.BeginAll? || a.Take? || a.NextRing? || a.DeliverBatch? || a.FreeOrphan? || a.Unlock? || a.Shutdown?
      || a.FailedExec? || a.Spawn?
    ensures SameTotals(s, Apply(s, a))
  {
    if a.Take? {
      var x := s.pass.todo[0];
      SameBlock(s, x, Apply(s, a).threads[x]);
      assert Apply(s, a).threads == SetThread(s, x, Apply(s, a).threads[x]).threads;
    } else if a.FreeOrphan? {
      FreeKeepsTotals(s, a.t);
    } else if a.Spawn? {
      assert (s.threads + [Thread(Idle, NoRing, 0)])[..|s.threads|] == s.threads;
    }
    hide Bytes, Used;
  }

  lemma StepTallies(s: State, a: Action)
    requires Enabled(s, a)
    ensures Tallies(s, a, Apply(s, a))
  {
    hide Enabled, Apply, Totals, InHand, InRingOf;
    if a.Emit? || a.EmitF? { EmitTallies(s, a); }
    else if a.GiveUp? { GiveUpTallies(s, a.t); }
    else if a.TryPush? { TryTallies(s, a.t); }
    else if a.GetRing? { GetRingTotals(s, a.t, a.granted); }
    else if a.LoadMode? || a.StartUp? || a.ReloadMode? || a.LeaveWait? || a.TimeOut? || a.CheckMode? || a.BeginOwn?
      || a.EndOwn? || a.DeliverDirect? || a.ThreadExit? || a.RetryPush?
    {
      ThreadTotals(s, a);
    }
    else { DrainTotals(s, a); }
  }

  /** In every run each producer-side counter, over the global block and all rings, is the number of steps with its
      cause. */
  lemma {:induction false} CountersByCause(run: Run, e: Event)
    requires IsRun(run)
    ensures Totals(run.s)[e] == CountedIn(run, e)
  {
    if run.Then? {
      CountersByCause(run.before, e);
      StepTallies(run.before.s, run.a);
      hide Apply, Enabled, Totals, Counts;
    }
  }
}
