/** Whole runs of the transport: exact accounting, order, and nothing left behind by a shutdown. */
module TransportRuns {
  import opened TransportModel
  import opened TransportShape
  import opened TransportBalance
  import opened TransportOrder

  // ---- order ----

  function HeldRec(s: State, x: nat): Rec {
    if x < |s.threads| && s.threads[x].pc.Busy? then s.threads[x].pc.rec else Rec(x, 0, 0)
  }

  lemma PushView(s: State, a: Action, x: nat)
    requires Shape(s) && QueueAction(a) && Enabled(s, a)
    ensures ViewStep(ViewOf(s, x), ViewOf(Apply(s, a), x), HeldRec(s, x), x)
  {
    hide ViewOf, Kept, Queues, Sends, DropHeld, Enqueue, Shape, Used, Bytes, Delivered;
    match a {
      case GetRing(t, granted) => GetRingView(s, t, granted, x);
      case TryPush(t) =>
        if s.threads[t].pc.rec.len + 4 > s.cap / 2 { DropView(s, t, Oversize, x); }
        else if Fits(s, t) { EnqueueView(s, t, x); }
        else if s.neverWait { DropView(s, t, DroppedFull, x); }
        else { WaitView(s, t, x); }
      case RetryPush(t) => EnqueueView(s, t, x);
      case DeliverDirect(t, ok) => DirectView(s, t, ok, x);
    }
  }

  lemma WaitView(s: State, t: nat, x: nat)
    requires At(s, t, InRing)
    ensures Kept(ViewOf(s, x), ViewOf(SetPc(s, t, Busy(WaitLoop, s.threads[t].pc.rec)), x))
  {
    SameTraffic(s, SetPc(s, t, Busy(WaitLoop, s.threads[t].pc.rec)), x);
    hide ViewOf;
  }

  /** Every step is a step of every thread's view. */
  lemma StepView(s: State, a: Action, x: nat)
    requires Shape(s) && OwnDone(s) && Enabled(s, a)
    ensures ViewStep(ViewOf(s, x), ViewOf(Apply(s, a), x), HeldRec(s, x), x)
  {
    if a.Emit? || a.EmitF? { hide *; EmitView(s, a, x); assert Kept(ViewOf(s, x), ViewOf(Apply(s, a), x)); }
    else if ModeAction(a) { hide *; ModeView(s, a, x); }
    else if QueueAction(a) { hide *; PushView(s, a, x); }
    else if a.Take? { hide ViewOf, Kept, Batches, Shape, OwnDone, TakeEnabled, TakeOne; TakeView(s, x); }
    else if a.DeliverBatch? { hide ViewOf, Delivers, Shape, OwnDone, FlushBatch; FlushView(s, a.ok, x); }
    else if a.EndOwn? { hide ViewOf, Kept, Empties, Shape, OwnDone; EndOwnView(s, a.t, x); }
    else { hide ViewOf, Kept, Shape, OwnDone; PlainView(s, a, x); }
  }

  predicate LeavesPass(a: Action) {
    a.Emit? || a.EmitF? || ModeAction(a) || QueueAction(a) || a.Spawn? || a.Shutdown? || a.ThreadExit?
  }

  ghost predicate SamePass(s: State, s': State) {
    s'.pass == s.pass && (s'.drained ==> s.drained) && (s.mode == Sync ==> s'.mode == Sync)
  }

  lemma EmitUntouched(s: State, a: Action)
    requires (a.Emit? || a.EmitF?) && Enabled(s, a)
    ensures SamePass(s, Apply(s, a))
  {
    hide Count, Refuse, NewRecord;
  }

  lemma QueueUntouched(s: State, a: Action)
    requires QueueAction(a) && Enabled(s, a)
    ensures SamePass(s, Apply(s, a))
  {
    hide Count, DropHeld, Used, Bytes;
  }

  lemma PassUntouched(s: State, a: Action)
    requires LeavesPass(a) && Enabled(s, a)
    ensures SamePass(s, Apply(s, a))
  {
    if a.Emit? || a.EmitF? { hide Apply, Enabled; EmitUntouched(s, a); }
    else if QueueAction(a) { hide Apply, Enabled; QueueUntouched(s, a); }
    else { hide Used, Bytes, DropHeld, Count; }
  }

  /** A thread in its own drain does not fill the ring it has emptied. */
  lemma StaysEmpty(v: View, w: View, r: Rec, x: nat)
    requires ViewStep(v, w, r, x) && v.own && v.queue == []
    ensures w.queue == []
  {
  }

  lemma OwnDoneKept(s: State, a: Action)
    requires Shape(s) && OwnDone(s) && Enabled(s, a)
    ensures OwnDone(Apply(s, a))
  {
    if LeavesPass(a) {
      if s.pass.Draining? && s.pass.who.Own? {
        hide Enabled, Apply, Bytes, ThreadsOk, RegistryOk, Of, QueueAt, Bound, At, Late;
        PassUntouched(s, a);
        StepView(s, a, s.pass.who.t);
        if QueueAt(s, s.pass.who.t) == [] {
          StaysEmpty(ViewOf(s, s.pass.who.t), ViewOf(Apply(s, a), s.pass.who.t), HeldRec(s, s.pass.who.t),
            s.pass.who.t) by { hide ViewStep; }
        }
      } else {
        hide Enabled, Apply;
        PassUntouched(s, a);
      }
    } else {
      hide Bytes, Used, ThreadsOk, RegistryOk;
    }
  }

  // ---- shutdown ----

  /** Records that nobody has undertaken to take out. */
  predicate Stranded(s: State, t: nat) {
    QueueAt(s, t) != [] && !Late(s, t)
  }

  lemma ViewNotStranded(v: View, w: View, r: Rec, x: nat)
    requires ViewStep(v, w, r, x) && Orderly(v, x) && v.sync && w.queue != [] && !w.late
    ensures v.queue != [] && !v.late
  {
  }

  /** Once the mode is Sync no step strands a record. */
  lemma NotStranded(s: State, a: Action, x: nat)
    requires Shape(s) && OwnDone(s) && Orderly(ViewOf(s, x), x) && Enabled(s, a) && s.mode == Sync
    ensures Stranded(Apply(s, a), x) ==> Stranded(s, x)
  {
    hide Enabled, Apply, Shape, OwnDone, QueueAt, Late, Of, At, Bound, Orderly, ViewStep;
    StepView(s, a, x);
    if Stranded(Apply(s, a), x) { ViewNotStranded(ViewOf(s, x), ViewOf(Apply(s, a), x), HeldRec(s, x), x); }
  }

  ghost predicate DrainedOk(s: State) {
    && (s.drained ==> s.mode == Sync && forall t: nat :: !Stranded(s, t))
    && (s.pass.Draining? && s.pass.who == All(true) ==>
      s.mode == Sync && forall t: nat :: Stranded(s, t) ==> t in s.pass.todo)
  }

  ghost predicate AllOrderly(s: State) {
    forall t: nat :: Orderly(ViewOf(s, t), t)
  }

  ghost predicate Ordered(s: State) {
    Shape(s) && OwnDone(s) && AllOrderly(s)
  }

  lemma AllNotStranded(s: State, a: Action)
    requires Ordered(s) && Enabled(s, a) && s.mode == Sync
    ensures forall t: nat :: Stranded(Apply(s, a), t) ==> Stranded(s, t)
  {
    forall t: nat ensures Stranded(Apply(s, a), t) ==> Stranded(s, t) {
      assert Orderly(ViewOf(s, t), t);
      NotStranded(s, a, t) by { hide Enabled, Apply, Shape, OwnDone, Orderly; }
    }
  }

  lemma LeavesDrainedOk(s: State, a: Action)
    requires Ordered(s) && DrainedOk(s) && LeavesPass(a) && Enabled(s, a)
    ensures DrainedOk(Apply(s, a))
  {
    hide Enabled, Apply, Ordered, Stranded;
    PassUntouched(s, a);
    if s.mode == Sync { AllNotStranded(s, a); }
  }

  /** A pass begun in Sync mode visits every ring that may hold a stranded record. */
  lemma BeginAllDrainedOk(s: State)
    requires Ordered(s) && DrainedOk(s) && Enabled(s, BeginAll)
    ensures DrainedOk(Apply(s, BeginAll))
  {
    var s' := Apply(s, BeginAll);
    if s.mode == Sync {
      AllNotStranded(s, BeginAll);
      forall t: nat | Stranded(s', t) ensures t in s'.pass.todo {
        assert Stranded(s, t);
        assert t in s.order <==> HasRing(s, t);
      }
    }
    hide Ordered, Stranded;
  }

  lemma NextRingDrainedOk(s: State)
    requires Ordered(s) && DrainedOk(s) && Enabled(s, NextRing)
    ensures DrainedOk(Apply(s, NextRing))
  {
    var s' := Apply(s, NextRing);
    if s.mode == Sync {
      AllNotStranded(s, NextRing);
      if s.pass.who == All(true) {
        forall t: nat | Stranded(s', t) ensures t in s'.pass.todo {
          assert Stranded(s, t);
          assert t in s.pass.todo && t != s.pass.todo[0];
        }
      }
    }
    hide Ordered, Stranded;
  }

  lemma DrainDrainedOk(s: State, a: Action)
    requires Ordered(s) && DrainedOk(s) && Enabled(s, a) && !LeavesPass(a) && !a.BeginAll? && !a.NextRing?
    ensures DrainedOk(Apply(s, a))
  {
    if s.mode == Sync { AllNotStranded(s, a); }
    hide Ordered, Stranded, Bytes, Used;
  }

  lemma StepKeepsDrainedOk(s: State, a: Action)
    requires Ordered(s) && DrainedOk(s) && Enabled(s, a)
    ensures DrainedOk(Apply(s, a))
  {
    hide Ordered, DrainedOk, Enabled, Apply;
    if LeavesPass(a) { LeavesDrainedOk(s, a); }
    else if a.BeginAll? { BeginAllDrainedOk(s); }
    else if a.NextRing? { NextRingDrainedOk(s); }
    else { DrainDrainedOk(s, a); }
  }

  // ---- whole runs ----

  ghost predicate Sound(s: State) {
    Ordered(s) && DrainedOk(s) && NoGap(s) && LogCounted(s)
  }

  lemma InitSound(s: State)
    requires Init(s)
    ensures Sound(s)
  {
    InitNoGap(s);
    hide Gap;
    assert Of([], 0) == [];
    forall t: nat ensures Orderly(ViewOf(s, t), t) {
      assert Of([], t) == [];
    }
  }

  lemma StepOrderly(s: State, a: Action, t: nat)
    requires Ordered(s) && Enabled(s, a)
    ensures Orderly(ViewOf(Apply(s, a), t), t)
    ensures Accepted(Apply(s, a), t) == Accepted(s, t) || Accepted(Apply(s, a), t) == Accepted(s, t) + [HeldRec(s, t)]
  {
    assert Orderly(ViewOf(s, t), t);
    hide Enabled, Apply, Shape, OwnDone, Orderly, ViewStep, ViewOf, AllOrderly, HeldRec, Accepted;
    StepView(s, a, t);
    ViewStepOrderly(ViewOf(s, t), ViewOf(Apply(s, a), t), HeldRec(s, t), t);
    assert Accepted(s, t) == Joined(ViewOf(s, t)) && Accepted(Apply(s, a), t) == Joined(ViewOf(Apply(s, a), t));
  }

  lemma StepSound(s: State, a: Action)
    requires Sound(s) && Enabled(s, a)
    ensures Sound(Apply(s, a))
  {
    hide Enabled, Apply, Shape, OwnDone, DrainedOk, NoGap, LogCounted, Orderly, ViewOf;
    StepKeepsShape(s, a);
    OwnDoneKept(s, a);
    StepKeepsDrainedOk(s, a);
    StepKeepsNoGap(s, a);
    StepKeepsLogCounted(s, a);
    forall t: nat ensures Orderly(ViewOf(Apply(s, a), t), t) { StepOrderly(s, a, t); }
  }

  lemma {:induction false} RunSound(run: Run)
    requires IsRun(run)
    ensures Sound(run.s)
  {
    hide Enabled, Apply, Sound, Init;
    match run {
      case Start(s) => InitSound(s);
      case Then(before, a, s) =>
        RunSound(before);
        StepSound(before.s, a);
    }
  }

  /** In every run, the counters of the global block and of all live rings account for every record. */
  lemma RunBalanced(run: Run)
    requires IsRun(run)
    ensures Balanced(run.s) && LogCounted(run.s)
  {
    RunSound(run);
    BalancedIsNoGap(run.s);
  }

  lemma AscendingPrefix(q: seq<Rec>, n: nat, t: nat, bound: nat)
    requires Ascending(q, t, bound) && n <= |q|
    ensures Ascending(q[..n], t, bound)
  {
  }

  /** In every run, hp_tx_deliver has been handed each thread's records in emission order and none twice. */
  lemma RunInOrder(run: Run, t: nat)
    requires IsRun(run)
    ensures Of(run.s.log, t) <= Accepted(run.s, t)
    ensures forall i, j :: 0 <= i < j < |Of(run.s.log, t)| ==> Of(run.s.log, t)[i].num < Of(run.s.log, t)[j].num
  {
    RunSound(run);
    var s := run.s;
    var d := Of(s.log, t);
    assert Orderly(ViewOf(s, t), t);
    hide *;
    assert Accepted(s, t) == d + Of(Batch(s), t) + QueueAt(s, t) by { DoneFirst(s, t); }
    assert Accepted(s, t)[..|d|] == d;
    DoneAscends(s, t);
  }

  lemma DoneFirst(s: State, t: nat)
    ensures Accepted(s, t) == Of(s.log, t) + Of(Batch(s), t) + QueueAt(s, t)
  {
  }

  lemma DoneAscends(s: State, t: nat)
    requires Orderly(ViewOf(s, t), t)
    ensures forall i, j :: 0 <= i < j < |Of(s.log, t)| ==> Of(s.log, t)[i].num < Of(s.log, t)[j].num
  {
    DoneFirst(s, t);
    hide Of, Batch, QueueAt, Bound;
    assert Accepted(s, t)[..|Of(s.log, t)|] == Of(s.log, t);
    AscendingPrefix(Accepted(s, t), |Of(s.log, t)|, t, Bound(s, t));
  }

  /** In every run, a ring holds no more than its capacity and the batch never outgrows its buffer. */
  lemma RunBounded(run: Run, t: nat)
    requires IsRun(run)
    ensures Bytes(Batch(run.s)) <= BATCH && (HasRing(run.s, t) ==> Used(run.s.threads[t].ring.q) <= run.s.cap)
  {
    RunSound(run);
    if HasRing(run.s, t) { assert ThreadOk(run.s.cap, t, run.s.threads[t]); }
    hide NoGap, LogCounted, DrainedOk, OwnDone, RegistryOk, AllOrderly;
  }

  ghost predicate Continues(run: Run, earlier: Run) {
    run == earlier || (run.Then? && Continues(run.before, earlier))
  }

  lemma {:induction false} EarlierIsRun(run: Run, earlier: Run)
    requires IsRun(run) && Continues(run, earlier)
    ensures IsRun(earlier)
  {
    if run != earlier { EarlierIsRun(run.before, earlier); }
  }

  /** A record once accepted keeps its place for the rest of the run. */
  lemma {:induction false} AcceptedIsKept(run: Run, earlier: Run, t: nat)
    requires IsRun(run) && Continues(run, earlier)
    ensures Accepted(earlier.s, t) <= Accepted(run.s, t)
  {
    hide Accepted, Enabled, Apply, Ordered;
    if run != earlier {
      AcceptedIsKept(run.before, earlier, t);
      RunSound(run.before);
      StepOrderly(run.before.s, run.a, t);
    }
  }

  /** Nobody is emitting and nobody is draining. */
  ghost predicate AtRest(s: State) {
    s.pass.NoPass? && forall t: nat :: t < |s.threads| ==> s.threads[t].pc == Idle || s.threads[t].pc == Exited
  }

  lemma {:induction false} NothingQueued(ts: seq<Thread>)
    requires forall t :: 0 <= t < |ts| ==> !ts[t].pc.Busy? && (ts[t].ring.Live? ==> ts[t].ring.q == [])
    ensures Queued(ts) == 0 && Held(ts) == 0
  {
    if ts != [] { NothingQueued(ts[..|ts|-1]); }
  }

  /** Shutdown loses nothing: once a pass begun after it has ended, and the threads caught in an emit have
      returned, every ring is empty and every accepted record has been handed to hp_tx_deliver. */
  lemma DrainedAtRest(run: Run, t: nat)
    requires IsRun(run) && run.s.drained && AtRest(run.s)
    ensures QueueAt(run.s, t) == [] && Accepted(run.s, t) == Of(run.s.log, t)
    ensures var c := Totals(run.s);
      c[Emitted] == run.s.sent + run.s.lost + c[DroppedFull] + c[Oversize] + c[FormatError] + run.s.empties
  {
    RunSound(run);
    RunBalanced(run);
    var s := run.s;
    hide Ordered, NoGap, LogCounted, Totals;
    forall x: nat ensures QueueAt(s, x) == [] { assert !Stranded(s, x); }
    forall x | 0 <= x < |s.threads|
      ensures !s.threads[x].pc.Busy? && (s.threads[x].ring.Live? ==> s.threads[x].ring.q == [])
    {
      assert QueueAt(s, x) == [];
    }
    NothingQueued(s.threads);
    assert Of([], t) == [];
    hide Of;
    assert Accepted(s, t) == Of(s.log, t) + [] + [];
  }

  /** Every record accepted at any time before such a rest was handed to hp_tx_deliver exactly once. */
  lemma DeliveredExactlyOnce(run: Run, earlier: Run, t: nat, k: nat)
    requires IsRun(run) && Continues(run, earlier) && run.s.drained && AtRest(run.s)
    requires k < |Accepted(earlier.s, t)|
    ensures var r := Accepted(earlier.s, t)[k]; var d := Of(run.s.log, t);
      k < |d| && d[k] == r && forall j :: 0 <= j < |d| && d[j] == r ==> j == k
  {
    hide Accepted, AtRest, Of, IsRun, Continues;
    DrainedAtRest(run, t);
    AcceptedIsKept(run, earlier, t);
    RunInOrder(run, t);
  }
}
