/** What a pass over all rings of hooks/common/hp_transport.h achieves: everything that was accepted before it began has
    been handed to hp_tx_deliver when it ends, in either mode. */
module TransportPasses {
  import opened TransportModel
  import opened TransportShape
  import opened TransportBalance
  import opened TransportOrder
  import opened TransportRuns

  /** A pass over all rings, and not a thread draining its own, is under way. */
  predicate InPass(s: State) {
    s.pass.Draining? && s.pass.who.All?
  }

  /** The run up to where drain_mu was last locked for a pass over all rings. */
  function PassBegin(run: Run): Run {
    match run
    case Start(_) => run
    case Then(before, a, _) => if a.BeginAll? then before else PassBegin(before)
  }

  lemma {:induction false} BeginContinues(run: Run)
    ensures Continues(run, PassBegin(run))
  {
    if run.Then? && !run.a.BeginAll? { BeginContinues(run.before); }
  }

  /** How many records of the thread have left its ring for the batch or hp_tx_deliver. */
  function Gone(s: State, t: nat): nat {
    |Of(s.log, t)| + |Of(Batch(s), t)|
  }

  lemma ViewGone(v: View, w: View, r: Rec, t: nat)
    requires ViewStep(v, w, r, t)
    ensures |w.done| + |w.batch| >= |v.done| + |v.batch|
  {
  }

  lemma ViewParts(s: State, t: nat)
    ensures var v := ViewOf(s, t); |v.done| + |v.batch| == Gone(s, t)
    ensures |Accepted(s, t)| == Gone(s, t) + |QueueAt(s, t)|
  {
    hide Of, Batch, QueueAt;
  }

  lemma GoneGrows(run: Run, t: nat)
    requires IsRun(run) && run.Then?
    ensures Gone(run.s, t) >= Gone(run.before.s, t)
  {
    RunSound(run.before);
    hide *;
    OneStep(run);
    SoundShape(run.before.s);
    StepView(run.before.s, run.a, t);
    ViewGone(ViewOf(run.before.s, t), ViewOf(run.s, t), HeldRec(run.before.s, t), t);
    ViewParts(run.before.s, t);
    ViewParts(run.s, t);
  }

  lemma OneStep(run: Run)
    requires IsRun(run) && run.Then?
    ensures IsRun(run.before) && Enabled(run.before.s, run.a) && run.s == Apply(run.before.s, run.a)
  {
    hide Enabled, Apply, Init;
  }

  lemma SoundShape(s: State)
    requires Sound(s)
    ensures Shape(s) && OwnDone(s)
  {
    hide Shape, OwnDone, AllOrderly, DrainedOk, NoGap, LogCounted;
  }

  // ---- what a pass has still to visit ----

  /** A ring still to be visited, or one of whose thread everything accepted before the pass has left the ring. */
  ghost predicate Visited(run: Run, t: nat) {
    InPass(run.s) ==> t in run.s.pass.todo || Gone(run.s, t) >= |Accepted(PassBegin(run).s, t)|
  }

  /** A pass begins with all rings there are still to be visited. */
  lemma PassStarts(s: State, t: nat)
    requires Shape(s) && Enabled(s, BeginAll)
    ensures var s' := Apply(s, BeginAll);
      && InPass(s') && s'.pass.batch == [] && (t in s'.pass.todo <==> HasRing(s, t)) && s'.log == s.log
      && Batch(s) == [] && (t !in s'.pass.todo ==> QueueAt(s, t) == [])
  {
    hide ThreadsOk, PassOk, Used, Bytes;
  }

  /** A step leaves what is to be visited as it is, but for the one that ends a visit: that ring is empty. */
  lemma PassKeeps(s: State, a: Action)
    requires Enabled(s, a) && !a.BeginAll?
    ensures InPass(Apply(s, a)) ==> InPass(s)
    ensures InPass(Apply(s, a)) && !a.NextRing? ==> Apply(s, a).pass.todo == s.pass.todo
    ensures InPass(Apply(s, a)) && a.NextRing? ==>
      && s.pass.Draining? && s.pass.todo != [] && Apply(s, a).pass.todo == s.pass.todo[1..]
      && QueueAt(s, s.pass.todo[0]) == []
  {
    hide Used, Bytes, Without, Fits, FreeNow, Count;
  }

  lemma {:induction false} AllVisited(run: Run, t: nat)
    requires IsRun(run)
    ensures Visited(run, t)
  {
    if run.Then? {
      hide *;
      OneStep(run);
      AllVisited(run.before, t);
      RunSound(run.before);
      SoundShape(run.before.s);
      if run.a.BeginAll? {
        VisitBegun(run, t);
      } else {
        VisitGoesOn(run, t);
      }
    } else {
      NotInPass(run);
    }
  }

  lemma NotInPass(run: Run)
    requires IsRun(run) && run.Start?
    ensures !InPass(run.s)
    ensures forall t: nat :: Visited(run, t)
  {
  }

  lemma VisitBegun(run: Run, t: nat)
    requires run.Then? && run.a.BeginAll? && Shape(run.before.s) && Enabled(run.before.s, run.a)
    requires run.s == Apply(run.before.s, run.a)
    ensures Visited(run, t)
  {
    PassStarts(run.before.s, t);
    ViewParts(run.before.s, t);
    hide Shape, Enabled, Apply, Accepted, Of, QueueAt;
  }

  lemma VisitGoesOn(run: Run, t: nat)
    requires IsRun(run) && run.Then? && !run.a.BeginAll? && Visited(run.before, t)
    requires Enabled(run.before.s, run.a) && run.s == Apply(run.before.s, run.a)
    ensures Visited(run, t)
  {
    hide *;
    PassKeeps(run.before.s, run.a);
    GoneGrows(run, t);
    BeginKept(run);
    if InPass(run.s) && run.a.NextRing? && t == run.before.s.pass.todo[0] {
      BeginContinues(run.before);
      OneStep(run);
      AcceptedIsKept(run.before, PassBegin(run.before), t);
      ViewParts(run.before.s, t);
    }
    VisitSteps(run, t);
  }

  lemma BeginKept(run: Run)
    requires run.Then? && !run.a.BeginAll?
    ensures PassBegin(run) == PassBegin(run.before)
  {
  }

  lemma VisitSteps(run: Run, t: nat)
    requires run.Then? && Visited(run.before, t) && PassBegin(run) == PassBegin(run.before)
    requires Gone(run.s, t) >= Gone(run.before.s, t) && (InPass(run.s) ==> InPass(run.before.s))
    requires InPass(run.s) && !run.a.NextRing? ==> run.s.pass.todo == run.before.s.pass.todo
    requires InPass(run.s) && run.a.NextRing? ==>
      && run.before.s.pass.todo != [] && run.s.pass.todo == run.before.s.pass.todo[1..]
      && (t == run.before.s.pass.todo[0] ==> Gone(run.before.s, t) >= |Accepted(PassBegin(run.before).s, t)|)
    ensures Visited(run, t)
  {
    hide Gone, Accepted, PassBegin;
  }

  lemma PassEnd(s: State)
    requires Enabled(s, Unlock)
    ensures InPass(s) && s.pass.todo == [] && Batch(s) == [] && Apply(s, Unlock).log == s.log
  {
  }

  /** When a pass over all rings ends, every record of every thread that was accepted before the pass began has been
      handed to hp_tx_deliver, in order, whatever the threads did meanwhile. */
  lemma PassHandsOver(run: Run, t: nat)
    requires IsRun(run) && run.Then? && run.a.Unlock?
    ensures Accepted(PassBegin(run).s, t) <= Of(run.s.log, t)
  {
    hide *;
    OneStep(run);
    PassEnd(run.before.s);
    AllVisited(run.before, t);
    BeginKept(run);
    BeginContinues(run);
    AcceptedIsKept(run, PassBegin(run), t);
    RunInOrder(run, t);
    EndsVisited(run, t);
  }

  lemma EndsVisited(run: Run, t: nat)
    requires run.Then? && InPass(run.before.s) && run.before.s.pass.todo == [] && Batch(run.before.s) == []
    requires Visited(run.before, t) && run.s.log == run.before.s.log && PassBegin(run) == PassBegin(run.before)
    requires Accepted(PassBegin(run).s, t) <= Accepted(run.s, t) && Of(run.s.log, t) <= Accepted(run.s, t)
    ensures Accepted(PassBegin(run).s, t) <= Of(run.s.log, t)
  {
    hide Accepted, PassBegin;
  }
}
