/** Per-thread order: what hp_tx_deliver has been handed, what waits in the batch and what waits in the ring
    together form one list per thread that only ever grows at its end. */
module TransportOrder {
  import opened TransportModel
  import opened TransportShape
  import opened TransportBalance

  /** The records of thread t in q. */
  function Of(q: seq<Rec>, t: nat): seq<Rec> {
    if q == [] then [] else Of(q[..|q|-1], t) + if q[|q|-1].tid == t then [q[|q|-1]] else []
  }

  function QueueAt(s: State, t: nat): seq<Rec> {
    if t < |s.threads| && s.threads[t].ring.Live? then s.threads[t].ring.q else []
  }

  /** No record of t yet to be accepted has a smaller number. */
  function Bound(s: State, t: nat): nat {
    if t >= |s.threads| then 0 else if s.threads[t].pc.Busy? then s.threads[t].pc.rec.num else s.threads[t].next
  }

  /** The thread will still look at the mode, or is already emptying its own ring. */
  predicate Late(s: State, t: nat) {
    t < |s.threads| && (s.threads[t].pc == Published || s.threads[t].pc == OwnWait || s.threads[t].pc == OwnDraining)
  }

  predicate InOwnDrain(s: State, t: nat) {
    t < |s.threads| && DrainingOwn(s.threads[t].pc)
  }

  /** Where the records of one thread are. direct: it is about to hand one to hp_tx_deliver itself. */
  datatype View = View(done: seq<Rec>, batch: seq<Rec>, queue: seq<Rec>, bound: nat, direct: bool, late: bool,
    own: bool, sync: bool)

  function ViewOf(s: State, t: nat): View {
    View(Of(s.log, t), Of(Batch(s), t), QueueAt(s, t), Bound(s, t), At(s, t, SyncDeliver), Late(s, t),
      InOwnDrain(s, t), s.mode == Sync)
  }

  /** The records accepted so far, oldest first. */
  function Joined(v: View): seq<Rec> {
    v.done + v.batch + v.queue
  }

  /** Every record of t that was accepted: handed to hp_tx_deliver, then batched, then queued. */
  function Accepted(s: State, t: nat): seq<Rec> {
    Joined(ViewOf(s, t))
  }

  ghost predicate Ascending(q: seq<Rec>, t: nat, bound: nat) {
    && (forall i :: 0 <= i < |q| ==> q[i].tid == t && q[i].num < bound)
    && (forall i, j :: 0 <= i < j < |q| ==> q[i].num < q[j].num)
  }

  /** In emission order; a thread about to deliver by itself has nothing left behind. */
  ghost predicate Orderly(v: View, t: nat) {
    Ascending(Joined(v), t, v.bound) && (v.direct ==> v.queue == [] && v.batch == [])
  }

  // ---- steps of a view ----

  predicate Stays(v: View, w: View) {
    w.done == v.done && w.batch == v.batch && w.queue == v.queue && w.bound >= v.bound
  }

  /** In Sync mode a thread with records in its ring stays late. */
  predicate Kept(v: View, w: View) {
    Stays(v, w) && (w.direct ==> v.direct) && (v.late && v.sync && v.queue != [] ==> w.late)
  }

  predicate Queues(v: View, w: View, r: Rec, t: nat) {
    && w.done == v.done && w.batch == v.batch && w.queue == v.queue + [r] && !w.direct && !v.own && w.late
    && r.tid == t && r.num == v.bound < w.bound
  }

  predicate Sends(v: View, w: View, r: Rec, t: nat) {
    && w.done == v.done + [r] && w.batch == v.batch && w.queue == v.queue && v.direct && !w.direct
    && r.tid == t && r.num == v.bound < w.bound
  }

  predicate Batches(v: View, w: View) {
    && v.queue != [] && w.done == v.done && w.batch == v.batch + [v.queue[0]] && w.queue == v.queue[1..]
    && w.bound == v.bound && w.direct == v.direct && w.late == v.late
  }

  predicate Delivers(v: View, w: View) {
    w.done == v.done + v.batch && w.batch == [] && w.queue == v.queue && w.bound == v.bound && w.direct == v.direct
      && w.late == v.late
  }

  predicate Empties(v: View, w: View) {
    Stays(v, w) && w.batch == [] && w.queue == []
  }

  predicate ViewStep(v: View, w: View, r: Rec, t: nat) {
    Kept(v, w) || Queues(v, w, r, t) || Sends(v, w, r, t) || Batches(v, w) || Delivers(v, w) || Empties(v, w)
  }

  /** Whatever a step moves, the accepted records stay in place; at most one joins, at the end. */
  lemma ViewStepOrderly(v: View, w: View, r: Rec, t: nat)
    requires Orderly(v, t) && ViewStep(v, w, r, t)
    ensures Orderly(w, t)
    ensures Joined(w) == Joined(v) || Joined(w) == Joined(v) + [r]
  {
    if Queues(v, w, r, t) {
      assert Joined(w) == Joined(v) + [r];
    } else if Sends(v, w, r, t) {
      assert Joined(v) == v.done && Joined(w) == v.done + [r];
    } else if Batches(v, w) {
      assert v.queue == [v.queue[0]] + w.queue;
      assert Joined(w) == Joined(v);
    } else {
      assert Joined(w) == Joined(v);
    }
  }

  // ---- lists ----

  lemma {:induction false} OfConcat(a: seq<Rec>, b: seq<Rec>, t: nat)
    ensures Of(a + b, t) == Of(a, t) + Of(b, t)
  {
    if b == [] {
      assert a + b == a;
    } else {
      OfConcat(a, b[..|b|-1], t);
      assert (a + b)[..|a + b|-1] == a + b[..|b|-1];
    }
  }

  lemma OfSnoc(q: seq<Rec>, r: Rec, t: nat)
    ensures Of(q + [r], t) == Of(q, t) + if r.tid == t then [r] else []
  {
    assert (q + [r])[..|q|] == q;
  }

  // ---- what a step does to the view of thread x ----

  /** Steps that leave log and batch alone. */
  lemma SameTraffic(s: State, s': State, x: nat)
    requires s'.log == s.log && Batch(s') == Batch(s) && QueueAt(s', x) == QueueAt(s, x) && Bound(s', x) >= Bound(s, x)
    requires At(s', x, SyncDeliver) ==> At(s, x, SyncDeliver)
    requires Late(s, x) && s.mode == Sync && QueueAt(s, x) != [] ==> Late(s', x)
    ensures Kept(ViewOf(s, x), ViewOf(s', x))
  {
    hide Of, Batch, QueueAt, Bound, At, Late, InOwnDrain;
  }

  lemma CountView(s: State, t: nat, e: Event, x: nat)
    requires t < |s.threads|
    ensures Kept(ViewOf(s, x), ViewOf(Count(s, t, e), x)) && ViewOf(Count(s, t, e), x).sync == ViewOf(s, x).sync
  {
    SameTraffic(s, Count(s, t, e), x);
    hide ViewOf;
  }

  lemma KeptTwice(u: View, v: View, w: View)
    requires Kept(u, v) && Kept(v, w) && u.sync == v.sync
    ensures Kept(u, w)
  {
  }

  lemma DropView(s: State, t: nat, e: Event, x: nat)
    requires Shape(s) && t < |s.threads| && s.threads[t].pc.Busy?
    ensures Kept(ViewOf(s, x), ViewOf(DropHeld(s, t, e), x))
  {
    assert ThreadOk(s.cap, t, s.threads[t]);
    var s1 := SetPc(s, t, Idle);
    SameTraffic(s, s1, x);
    hide *;
    CountView(s1, t, e, x);
    KeptTwice(ViewOf(s, x), ViewOf(s1, x), ViewOf(DropHeld(s, t, e), x)) by { hide ViewOf, Kept; }
  }

  lemma NextView(s: State, t: nat, x: nat)
    requires t < |s.threads| && s.threads[t].pc == Idle
    ensures Kept(ViewOf(s, x), ViewOf(SetThread(s, t, s.threads[t].(next := s.threads[t].next + 1)), x))
    ensures ViewOf(SetThread(s, t, s.threads[t].(next := s.threads[t].next + 1)), x).sync == ViewOf(s, x).sync
  {
    SameTraffic(s, SetThread(s, t, s.threads[t].(next := s.threads[t].next + 1)), x);
    hide ViewOf;
  }

  lemma CountTwiceView(s: State, t: nat, e: Event, f: Event, x: nat)
    requires t < |s.threads|
    ensures Kept(ViewOf(s, x), ViewOf(Count(Count(s, t, e), t, f), x))
  {
    hide ViewOf, Count;
    CountView(s, t, e, x);
    CountView(Count(s, t, e), t, f, x);
  }

  lemma RefuseView(s: State, t: nat, e: Event, x: nat)
    requires t < |s.threads| && s.threads[t].pc == Idle
    ensures Kept(ViewOf(s, x), ViewOf(Refuse(s, t, e), x))
  {
    hide ViewOf, Count;
    NextView(s, t, x);
    CountTwiceView(SetThread(s, t, s.threads[t].(next := s.threads[t].next + 1)), t, Emitted, e, x);
  }

  function InHand(s: State, t: nat, len: nat): State
    requires t < |s.threads|
  {
    SetThread(s, t, s.threads[t].(pc := Busy(Pushing, Rec(t, s.threads[t].next, len)), next := s.threads[t].next + 1))
  }

  lemma InHandView(s: State, t: nat, len: nat, x: nat)
    requires t < |s.threads| && s.threads[t].pc == Idle
    ensures Kept(ViewOf(s, x), ViewOf(InHand(s, t, len), x)) && ViewOf(InHand(s, t, len), x).sync == ViewOf(s, x).sync
  {
    SameTraffic(s, InHand(s, t, len), x);
    hide Of, Batch;
  }

  lemma NewRecordView(s: State, t: nat, len: nat, x: nat)
    requires t < |s.threads| && s.threads[t].pc == Idle
    ensures Kept(ViewOf(s, x), ViewOf(NewRecord(s, t, len), x))
  {
    assert NewRecord(s, t, len) == Count(InHand(s, t, len), t, Emitted);
    hide ViewOf, Count, InHand, NewRecord;
    InHandView(s, t, len, x);
    CountView(InHand(s, t, len), t, Emitted, x);
  }

  lemma EmptyView(s: State, t: nat, x: nat)
    requires t < |s.threads|
    ensures Kept(ViewOf(s, x), ViewOf(Count(s, t, Emitted).(empties := s.empties + 1), x))
  {
    CountView(s, t, Emitted, x);
    hide Count, Of, Kept;
  }

  lemma EmitView(s: State, a: Action, x: nat)
    requires (a.Emit? || a.EmitF?) && Enabled(s, a)
    ensures Kept(ViewOf(s, x), ViewOf(Apply(s, a), x))
  {
    hide ViewOf, Count, Refuse, NewRecord, Kept;
    match a {
      case Emit(t, len, copied) =>
        if len > MAX_RECORD { RefuseView(s, t, Oversize, x); }
        else if len > STACK_COPY && !copied { RefuseView(s, t, DroppedFull, x); }
        else { NewRecordView(s, t, len, x); }
      case EmitF(t, n, formatted) =>
        if n < 0 { RefuseView(s, t, FormatError, x); }
        else if n == 0 { EmptyView(s, t, x); }
        else if n > MAX_RECORD { RefuseView(s, t, Oversize, x); }
        else if n >= STACK_COPY && !formatted { RefuseView(s, t, FormatError, x); }
        else { NewRecordView(s, t, n, x); }
    }
  }

  lemma ModeView(s: State, a: Action, x: nat)
    requires Shape(s) && ModeAction(a) && Enabled(s, a)
    ensures Kept(ViewOf(s, x), ViewOf(Apply(s, a), x))
  {
    hide ViewOf, DropHeld, Kept, Shape, Used, Bytes;
    if a.GiveUp? && s.mode == RingMode {
      DropView(s, a.t, DroppedFull, x);
    } else if a.CheckMode? {
      CheckModeView(s, a.t, x);
    } else {
      LoadView(s, a, x);
    }
  }

  lemma LoadView(s: State, a: Action, x: nat)
    requires ModeAction(a) && Enabled(s, a) && !a.CheckMode? && !(a.GiveUp? && s.mode == RingMode)
    ensures Kept(ViewOf(s, x), ViewOf(Apply(s, a), x))
  {
    hide ViewOf, DropHeld, Kept, Used, Bytes;
    SameTraffic(s, Apply(s, a), x);
  }

  lemma CheckModeView(s: State, t: nat, x: nat)
    requires Enabled(s, CheckMode(t))
    ensures Kept(ViewOf(s, x), ViewOf(Apply(s, CheckMode(t)), x))
  {
    hide ViewOf, Kept, Used, Bytes;
    SameTraffic(s, Apply(s, CheckMode(t)), x);
  }

  lemma GetRingView(s: State, t: nat, granted: bool, x: nat)
    requires Enabled(s, GetRing(t, granted))
    ensures Kept(ViewOf(s, x), ViewOf(Apply(s, GetRing(t, granted)), x))
  {
    hide ViewOf, Kept, Register;
    var rec := s.threads[t].pc.rec;
    if s.threads[t].ring.Live? {
      MovesOn(s, t, Busy(InRing, rec), x);
    } else if granted {
      RegisterView(s, t, x);
      MovesOn(Register(s, t), t, Busy(InRing, rec), x);
      KeptTwice(ViewOf(s, x), ViewOf(Register(s, t), x), ViewOf(SetPc(Register(s, t), t, Busy(InRing, rec)), x));
    } else {
      MovesOn(s, t, Busy(SyncWait, rec), x);
    }
  }

  /** A thread in an emit moves on with its record. */
  lemma MovesOn(s: State, t: nat, pc: Pc, x: nat)
    requires t < |s.threads| && s.threads[t].pc.Busy? && pc.Busy? && pc.rec == s.threads[t].pc.rec
    requires pc.stage != SyncDeliver
    ensures Kept(ViewOf(s, x), ViewOf(SetPc(s, t, pc), x))
  {
    hide ViewOf, Kept;
    SameTraffic(s, SetPc(s, t, pc), x);
  }

  lemma RegisterView(s: State, t: nat, x: nat)
    requires t < |s.threads| && s.threads[t].pc.Busy? && !s.threads[t].ring.Live?
    ensures |Register(s, t).threads| == |s.threads| && Register(s, t).threads[t].pc == s.threads[t].pc
    ensures Kept(ViewOf(s, x), ViewOf(Register(s, t), x)) && ViewOf(Register(s, t), x).sync == ViewOf(s, x).sync
  {
    hide Kept;
    SameTraffic(s, Register(s, t), x);
    hide Of, Batch, QueueAt, Bound, At, Late, InOwnDrain;
  }

  predicate PlainAction(a: Action) {
    || a.Spawn? || a.BeginOwn? || a.BeginAll? || a.NextRing? || a.FreeOrphan? || a.Unlock? || a.Shutdown?
    || a.FailedExec?
    || a.ThreadExit?
  }

  lemma PlainView(s: State, a: Action, x: nat)
    requires PlainAction(a) && Enabled(s, a)
    ensures Kept(ViewOf(s, x), ViewOf(Apply(s, a), x))
  {
    hide ViewOf, Kept, Bytes, Used;
    if a.BeginOwn? || a.FreeOrphan? || a.ThreadExit? { OneThreadView(s, a, x); } else { NoThreadView(s, a, x); }
  }

  lemma OneThreadView(s: State, a: Action, x: nat)
    requires (a.BeginOwn? || a.FreeOrphan? || a.ThreadExit?) && Enabled(s, a)
    ensures Kept(ViewOf(s, x), ViewOf(Apply(s, a), x))
  {
    hide ViewOf, Kept, Bytes, Used;
    SameTraffic(s, Apply(s, a), x);
  }

  lemma NoThreadView(s: State, a: Action, x: nat)
    requires PlainAction(a) && !a.BeginOwn? && !a.FreeOrphan? && !a.ThreadExit? && Enabled(s, a)
    ensures Kept(ViewOf(s, x), ViewOf(Apply(s, a), x))
  {
    hide ViewOf, Kept, Bytes, Used;
    SameTraffic(s, Apply(s, a), x);
  }

  lemma EnqueueView(s: State, t: nat, x: nat)
    requires Shape(s) && t < |s.threads| && s.threads[t].pc.Busy? && !DrainingOwn(s.threads[t].pc)
    requires s.threads[t].ring.Live?
    ensures if x == t then Queues(ViewOf(s, x), ViewOf(Enqueue(s, t), x), s.threads[t].pc.rec, t)
            else Kept(ViewOf(s, x), ViewOf(Enqueue(s, t), x))
  {
    assert ThreadOk(s.cap, t, s.threads[t]);
    hide Of, Shape, Used;
  }

  lemma TakeFacts(s: State, x: nat)
    requires Shape(s) && TakeEnabled(s)
    ensures TakeOne(s).log == s.log && Batch(TakeOne(s)) == Batch(s) + [QueueAt(s, s.pass.todo[0])[0]]
    ensures QueueAt(TakeOne(s), x) == if x == s.pass.todo[0] then QueueAt(s, x)[1..] else QueueAt(s, x)
    ensures Bound(TakeOne(s), x) == Bound(s, x) && At(TakeOne(s), x, SyncDeliver) == At(s, x, SyncDeliver)
    ensures QueueAt(s, s.pass.todo[0])[0].tid == s.pass.todo[0] && Late(TakeOne(s), x) == Late(s, x)
  {
    var y := s.pass.todo[0];
    assert ThreadOk(s.cap, y, s.threads[y]);
    assert RecOk(s.threads[y].ring.q[0], y, s.threads[y].next);
    hide Shape, ThreadOk, Used, Bytes;
  }

  lemma TakeView(s: State, x: nat)
    requires Shape(s) && TakeEnabled(s)
    ensures if x == s.pass.todo[0] then Batches(ViewOf(s, x), ViewOf(TakeOne(s), x))
      else Kept(ViewOf(s, x), ViewOf(TakeOne(s), x))
  {
    TakeFacts(s, x);
    OfSnoc(Batch(s), QueueAt(s, s.pass.todo[0])[0], x);
    assert QueueAt(s, s.pass.todo[0]) != [];
    hide Of, Shape, Batch, QueueAt, Bound, At, Late, InOwnDrain, TakeOne, TakeEnabled;
  }

  lemma FlushView(s: State, ok: bool, x: nat)
    requires DeliverEnabled(s)
    ensures Delivers(ViewOf(s, x), ViewOf(FlushBatch(s, ok), x))
  {
    OfConcat(s.log, s.pass.batch, x);
    assert Of([], x) == [];
    hide Of, Bytes, Used;
  }

  lemma DirectFacts(s: State, t: nat, ok: bool, x: nat)
    requires Shape(s) && Enabled(s, DeliverDirect(t, ok))
    ensures var s' := Apply(s, DeliverDirect(t, ok));
      && s'.log == s.log + [s.threads[t].pc.rec] && Batch(s') == Batch(s) && QueueAt(s', x) == QueueAt(s, x)
      && (if x == t then Bound(s', x) > Bound(s, x) == s.threads[t].pc.rec.num else Bound(s', x) == Bound(s, x))
      && At(s', x, SyncDeliver) == (x != t && At(s, x, SyncDeliver)) && (Late(s, x) ==> Late(s', x))
    ensures s.threads[t].pc.rec.tid == t
  {
    assert ThreadOk(s.cap, t, s.threads[t]);
    hide Shape, ThreadOk;
  }

  lemma DirectView(s: State, t: nat, ok: bool, x: nat)
    requires Shape(s) && Enabled(s, DeliverDirect(t, ok))
    ensures if x == t then Sends(ViewOf(s, x), ViewOf(Apply(s, DeliverDirect(t, ok)), x), s.threads[t].pc.rec, t)
            else Kept(ViewOf(s, x), ViewOf(Apply(s, DeliverDirect(t, ok)), x))
  {
    DirectFacts(s, t, ok, x);
    OfSnoc(s.log, s.threads[t].pc.rec, x);
    assert At(s, t, SyncDeliver);
    hide Of, Shape, Batch, QueueAt, Bound, At, Late, InOwnDrain, Apply, Enabled;
  }

  /** A pass over one's own ring that has left it has emptied it. */
  predicate OwnDone(s: State) {
    s.pass.Draining? && s.pass.who.Own? && s.pass.todo == [] ==> QueueAt(s, s.pass.who.t) == []
  }

  lemma EndOwnView(s: State, t: nat, x: nat)
    requires Enabled(s, EndOwn(t)) && OwnDone(s)
    ensures if x == t then Empties(ViewOf(s, x), ViewOf(Apply(s, EndOwn(t)), x))
      else Kept(ViewOf(s, x), ViewOf(Apply(s, EndOwn(t)), x))
  {
    assert Of([], x) == [];
    hide Of;
  }
}
