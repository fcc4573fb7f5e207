/** What every step of the transport keeps about threads, rings, the registry and the batch. */
module TransportShape {
  import opened TransportModel

  predicate RecOk(r: Rec, t: nat, next: nat) {
    r.tid == t && r.num < next && 1 <= r.len <= MAX_RECORD
  }

  ghost predicate AllRecs(q: seq<Rec>, t: nat, next: nat) {
    forall i :: 0 <= i < |q| ==> RecOk(q[i], t, next)
  }

  predicate NeedsRing(pc: Pc) {
    || (pc.Busy? && pc.stage in {InRing, WaitLoop, GaveUp})
    || pc == Published || pc == OwnWait || pc == OwnDraining
  }

  predicate DrainingOwn(pc: Pc) {
    pc == OwnDraining || (pc.Busy? && pc.stage == SyncDraining)
  }

  ghost predicate ThreadOk(cap: nat, t: nat, th: Thread) {
    && (th.pc.Busy? ==> RecOk(th.pc.rec, t, th.next))
    && (NeedsRing(th.pc) ==> th.ring.Live?)
    && (th.ring.Live? ==>
      (th.ring.orphan <==> th.pc == Exited) && AllRecs(th.ring.q, t, th.next) && Used(th.ring.q) <= cap)
    && (th.ring.Freed? ==> th.pc == Exited)
  }

  ghost predicate ThreadsOk(s: State) {
    forall t :: 0 <= t < |s.threads| ==> ThreadOk(s.cap, t, s.threads[t])
  }

  /** The registry lists exactly the live rings. */
  ghost predicate RegistryOk(s: State) {
    forall t: nat :: t in s.order <==> HasRing(s, t)
  }

  ghost predicate BatchRec(s: State, r: Rec) {
    r.tid < |s.threads| && RecOk(r, r.tid, s.threads[r.tid].next)
  }

  /** The pass only visits live rings; the batch holds whole records and never more than BATCH bytes; an own
      pass belongs to the one thread that is inside its drain. */
  ghost predicate PassOk(s: State) {
    && (s.pass.Draining? ==>
          && (forall i :: 0 <= i < |s.pass.todo| ==> HasRing(s, s.pass.todo[i]))
          && (forall i :: 0 <= i < |s.pass.batch| ==> BatchRec(s, s.pass.batch[i]))
          && Bytes(s.pass.batch) <= BATCH
          && (s.pass.who.Own? ==>
                && s.pass.who.t < |s.threads| && DrainingOwn(s.threads[s.pass.who.t].pc)
                && (forall i :: 0 <= i < |s.pass.todo| ==> s.pass.todo[i] == s.pass.who.t)))
    && (forall t :: 0 <= t < |s.threads| && DrainingOwn(s.threads[t].pc) ==> s.pass.Draining? && s.pass.who == Own(t))
  }

  ghost predicate Shape(s: State) {
    ThreadsOk(s) && RegistryOk(s) && PassOk(s)
  }

  // ---- effects ----

  /** Replacing one thread by a fit one that keeps its ring's existence, its number and its drain. */
  lemma ReplaceThread(s: State, t: nat, th: Thread)
    requires Shape(s) && t < |s.threads| && ThreadOk(s.cap, t, th)
    requires th.ring.Live? == s.threads[t].ring.Live? && th.next >= s.threads[t].next
    requires DrainingOwn(th.pc) == DrainingOwn(s.threads[t].pc)
    ensures Shape(SetThread(s, t, th))
  {
    hide Used, Bytes;
    var s' := SetThread(s, t, th);
    forall x: nat ensures x in s'.order <==> HasRing(s', x) {
      assert x in s.order <==> HasRing(s, x);
    }
    if s.pass.Draining? {
      forall i | 0 <= i < |s.pass.batch| ensures BatchRec(s', s.pass.batch[i]) {
        assert BatchRec(s, s.pass.batch[i]);
      }
      forall i | 0 <= i < |s.pass.todo| ensures HasRing(s', s.pass.todo[i]) {
        assert HasRing(s, s.pass.todo[i]);
      }
    }
  }

  lemma CountKeeps(s: State, t: nat, e: Event)
    requires Shape(s) && t < |s.threads|
    ensures Shape(Count(s, t, e))
  {
    var th := s.threads[t];
    assert ThreadOk(s.cap, t, th);
    if th.ring.Live? && !th.ring.orphan {
      ReplaceThread(s, t, th.(ring := th.ring.(ctr := th.ring.ctr + multiset{e})));
    } else {
      GlobalKeeps(s, s.(ctr := s.ctr + multiset{e}));
    }
  }

  /** Threads, registry and pass are all the shape is about. */
  lemma GlobalKeeps(s: State, s': State)
    requires Shape(s) && s'.threads == s.threads && s'.order == s.order && s'.pass == s.pass && s'.cap == s.cap
    ensures Shape(s')
  {
    hide ThreadOk, RecOk, Bytes;
    forall x: nat ensures x in s'.order <==> HasRing(s', x) {
      assert x in s.order <==> HasRing(s, x);
    }
    if s.pass.Draining? {
      forall i | 0 <= i < |s.pass.todo| ensures HasRing(s', s.pass.todo[i]) {
        assert HasRing(s, s.pass.todo[i]);
      }
    }
  }

  lemma PcKeeps(s: State, t: nat, pc: Pc)
    requires Shape(s) && t < |s.threads|
    requires pc != Exited && s.threads[t].pc != Exited && DrainingOwn(pc) == DrainingOwn(s.threads[t].pc)
    requires pc.Busy? ==> s.threads[t].pc.Busy? && pc.rec == s.threads[t].pc.rec
    requires NeedsRing(pc) ==> s.threads[t].ring.Live?
    ensures Shape(SetPc(s, t, pc))
  {
    assert ThreadOk(s.cap, t, s.threads[t]);
    ReplaceThread(s, t, s.threads[t].(pc := pc));
  }

  lemma DropKeeps(s: State, t: nat, e: Event)
    requires Shape(s) && t < |s.threads| && s.threads[t].pc != Exited && !DrainingOwn(s.threads[t].pc)
    ensures Shape(DropHeld(s, t, e))
  {
    PcKeeps(s, t, Idle);
    CountKeeps(SetPc(s, t, Idle), t, e);
  }

  lemma NewRecordFits(cap: nat, t: nat, th: Thread, len: nat)
    requires ThreadOk(cap, t, th) && th.pc == Idle && 1 <= len <= MAX_RECORD
    ensures ThreadOk(cap, t, Holding(t, th, len)) && !DrainingOwn(Holding(t, th, len).pc) && !DrainingOwn(th.pc)
    ensures Holding(t, th, len).ring == th.ring && Holding(t, th, len).next > th.next
  {
    hide Used;
  }

  /** A thread with a new record in its hands. */
  function Holding(t: nat, th: Thread, len: nat): Thread {
    th.(pc := Busy(Pushing, Rec(t, th.next, len)), next := th.next + 1)
  }

  lemma NewRecordIs(s: State, t: nat, len: nat)
    requires t < |s.threads|
    ensures NewRecord(s, t, len) == Count(SetThread(s, t, Holding(t, s.threads[t], len)), t, Emitted)
  {
    hide Count;
  }

  lemma ThreadFits(s: State, t: nat)
    requires Shape(s) && t < |s.threads|
    ensures ThreadOk(s.cap, t, s.threads[t])
  {
  }

  lemma NewRecordKeeps(s: State, t: nat, len: nat)
    requires Shape(s) && t < |s.threads| && s.threads[t].pc == Idle && 1 <= len <= MAX_RECORD
    ensures Shape(NewRecord(s, t, len))
  {
    hide Shape, ThreadOk, Count, NewRecord, Holding, DrainingOwn;
    ThreadFits(s, t);
    NewRecordFits(s.cap, t, s.threads[t], len);
    ReplaceThread(s, t, Holding(t, s.threads[t], len));
    NewRecordIs(s, t, len);
    CountKeeps(SetThread(s, t, Holding(t, s.threads[t], len)), t, Emitted);
  }

  lemma NextKeeps(s: State, t: nat)
    requires Shape(s) && t < |s.threads|
    ensures Shape(SetThread(s, t, s.threads[t].(next := s.threads[t].next + 1)))
  {
    hide Used;
    var th := s.threads[t];
    assert ThreadOk(s.cap, t, th);
    ReplaceThread(s, t, th.(next := th.next + 1));
  }

  lemma CountTwiceKeeps(s: State, t: nat, e: Event, f: Event)
    requires Shape(s) && t < |s.threads|
    ensures Shape(Count(Count(s, t, e), t, f))
  {
    hide Shape, Count;
    CountKeeps(s, t, e);
    CountKeeps(Count(s, t, e), t, f);
  }

  lemma RefuseKeeps(s: State, t: nat, e: Event)
    requires Shape(s) && t < |s.threads|
    ensures Shape(Refuse(s, t, e))
  {
    hide Shape, Count;
    NextKeeps(s, t);
    CountTwiceKeeps(SetThread(s, t, s.threads[t].(next := s.threads[t].next + 1)), t, Emitted, e);
  }

  lemma {:induction false} UsedSnoc(q: seq<Rec>, r: Rec)
    ensures Used(q + [r]) == Used(q) + 4 + r.len
  {
    if q == [] {
      assert q + [r] == [r];
    } else {
      UsedSnoc(q[1..], r);
      assert (q + [r])[1..] == q[1..] + [r];
    }
  }

  lemma EnqueueKeeps(s: State, t: nat)
    requires Shape(s) && t < |s.threads| && s.threads[t].pc.Busy? && !DrainingOwn(s.threads[t].pc)
    requires s.threads[t].ring.Live? && Fits(s, t)
    ensures Shape(Enqueue(s, t))
  {
    var th := s.threads[t];
    assert ThreadOk(s.cap, t, th);
    UsedSnoc(th.ring.q, th.pc.rec);
    ReplaceThread(s, t, th.(pc := Published, ring := th.ring.(q := th.ring.q + [th.pc.rec])));
  }

  lemma BytesSnoc(s: seq<Rec>, r: Rec)
    ensures Bytes(s + [r]) == Bytes(s) + r.len
  {
    assert (s + [r])[..|s|] == s;
  }

  lemma TakeKeeps(s: State)
    requires Shape(s) && TakeEnabled(s)
    ensures Shape(TakeOne(s))
  {
    var x := s.pass.todo[0];
    var th := s.threads[x];
    var r := th.ring.q[0];
    assert ThreadOk(s.cap, x, th);
    assert RecOk(r, x, th.next);
    var th' := th.(ring := th.ring.(q := th.ring.q[1..]));
    ReplaceThread(s, x, th');
    var s1 := SetThread(s, x, th');
    BytesSnoc(s.pass.batch, r);
    hide Bytes, Used;
    BatchKeeps(s1, s1.pass.(batch := s.pass.batch + [r]));
  }

  /** A pass by the same owner over live rings, with a batch of whole records that fits. */
  lemma BatchKeeps(s: State, pass: Pass)
    requires Shape(s) && s.pass.Draining? && pass.Draining? && pass.who == s.pass.who
    requires forall i :: 0 <= i < |pass.todo| ==> pass.todo[i] in s.pass.todo
    requires Bytes(pass.batch) <= BATCH && forall i :: 0 <= i < |pass.batch| ==> BatchRec(s, pass.batch[i])
    ensures Shape(s.(pass := pass))
  {
    hide ThreadOk, Bytes;
    var s' := s.(pass := pass);
    forall x: nat ensures x in s'.order <==> HasRing(s', x) {
      assert x in s.order <==> HasRing(s, x);
    }
    forall i | 0 <= i < |pass.todo|
      ensures HasRing(s', pass.todo[i]) && (pass.who.Own? ==> pass.todo[i] == pass.who.t)
    {
      assert pass.todo[i] in s.pass.todo;
      var j :| 0 <= j < |s.pass.todo| && s.pass.todo[j] == pass.todo[i];
      assert HasRing(s, s.pass.todo[j]);
    }
    forall i | 0 <= i < |pass.batch| ensures BatchRec(s', pass.batch[i]) {
      assert BatchRec(s, pass.batch[i]);
    }
  }

  lemma RegisterKeeps(s: State, t: nat)
    requires Shape(s) && t < |s.threads| && !s.threads[t].ring.Live? && s.threads[t].pc.Busy?
    requires !DrainingOwn(s.threads[t].pc)
    ensures Shape(Register(s, t))
  {
    var s' := Register(s, t);
    assert ThreadOk(s.cap, t, s.threads[t]);
    assert ThreadOk(s.cap, t, s'.threads[t]);
    hide ThreadOk, Bytes;
    forall x: nat ensures x in s'.order <==> HasRing(s', x) {
      assert x in s.order <==> HasRing(s, x);
    }
    if s.pass.Draining? {
      forall i | 0 <= i < |s.pass.todo| ensures HasRing(s', s.pass.todo[i]) { assert HasRing(s, s.pass.todo[i]); }
      forall i | 0 <= i < |s.pass.batch| ensures BatchRec(s', s.pass.batch[i]) { assert BatchRec(s, s.pass.batch[i]); }
    }
  }

  lemma {:induction false} WithoutMembers(ts: seq<nat>, t: nat)
    ensures forall x :: x in Without(ts, t) <==> x in ts && x != t
  {
    if ts != [] { WithoutMembers(ts[1..], t); }
  }

  lemma FreeKeeps(s: State, t: nat)
    requires Shape(s) && Enabled(s, FreeOrphan(t))
    ensures Shape(Free(s, t))
  {
    var s' := Free(s, t);
    WithoutMembers(s.order, t);
    assert ThreadOk(s.cap, t, s.threads[t]);
    assert ThreadOk(s.cap, t, s'.threads[t]);
    hide ThreadOk, Bytes;
    forall x: nat ensures x in s'.order <==> HasRing(s', x) {
      assert x in s.order <==> HasRing(s, x);
    }
  }

  lemma ExitKeeps(s: State, t: nat)
    requires Shape(s) && Enabled(s, ThreadExit(t))
    ensures Shape(Apply(s, ThreadExit(t)))
  {
    assert ThreadOk(s.cap, t, s.threads[t]);
    var th := s.threads[t];
    ReplaceThread(s, t, th.(pc := Exited, ring := if th.ring.Live? then th.ring.(orphan := true) else th.ring));
  }

  lemma SpawnKeeps(s: State)
    requires Shape(s)
    ensures Shape(Apply(s, Spawn))
  {
    var s' := Apply(s, Spawn);
    var n := |s.threads|;
    assert ThreadOk(s.cap, n, s'.threads[n]);
    forall t | 0 <= t < n ensures ThreadOk(s.cap, t, s'.threads[t]) {
      assert ThreadOk(s.cap, t, s.threads[t]);
    }
    hide ThreadOk, Bytes;
    forall x: nat ensures x in s'.order <==> HasRing(s', x) {
      assert x in s.order <==> HasRing(s, x);
    }
    if s.pass.Draining? {
      forall i | 0 <= i < |s.pass.todo| ensures HasRing(s', s.pass.todo[i]) { assert HasRing(s, s.pass.todo[i]); }
      forall i | 0 <= i < |s.pass.batch| ensures BatchRec(s', s.pass.batch[i]) { assert BatchRec(s, s.pass.batch[i]); }
    }
  }

  /** drain_mu changes hands: the pass and the drain of at most one thread, t, change together. */
  lemma HandOver(s: State, s': State, t: nat)
    requires Shape(s) && t < |s.threads| == |s'.threads| && s'.order == s.order && s'.cap == s.cap
    requires s'.threads == s.threads[t := s.threads[t].(pc := s'.threads[t].pc)] && ThreadOk(s.cap, t, s'.threads[t])
    requires forall x :: 0 <= x < |s.threads| && x != t ==> !DrainingOwn(s.threads[x].pc)
    requires DrainingOwn(s'.threads[t].pc) <==> s'.pass.Draining? && s'.pass.who == Own(t)
    requires s'.pass.Draining? ==>
      s'.pass.batch == [] && (forall i :: 0 <= i < |s'.pass.todo| ==> HasRing(s, s'.pass.todo[i]))
    requires s'.pass.Draining? && s'.pass.who.Own? ==>
      s'.pass.who.t == t && forall i :: 0 <= i < |s'.pass.todo| ==> s'.pass.todo[i] == t
    ensures Shape(s')
  {
    hide ThreadOk;
    forall x | 0 <= x < |s'.threads| ensures ThreadOk(s'.cap, x, s'.threads[x]) {
      assert ThreadOk(s.cap, x, s.threads[x]);
    }
    forall x: nat ensures x in s'.order <==> HasRing(s', x) {
      assert x in s.order <==> HasRing(s, x);
    }
    if s'.pass.Draining? {
      forall i | 0 <= i < |s'.pass.todo| ensures HasRing(s', s'.pass.todo[i]) { assert HasRing(s, s'.pass.todo[i]); }
    }
  }

  lemma BeginOwnKeeps(s: State, t: nat)
    requires Shape(s) && Enabled(s, BeginOwn(t))
    ensures Shape(Apply(s, BeginOwn(t)))
  {
    assert ThreadOk(s.cap, t, s.threads[t]);
    HandOver(s, Apply(s, BeginOwn(t)), t);
  }

  lemma EndOwnKeeps(s: State, t: nat)
    requires Shape(s) && Enabled(s, EndOwn(t))
    ensures Shape(Apply(s, EndOwn(t)))
  {
    assert ThreadOk(s.cap, t, s.threads[t]);
    HandOver(s, Apply(s, EndOwn(t)), t);
  }

  /** The same for passes over all rings, which no thread is inside. */
  lemma HandOverAll(s: State, s': State)
    requires Shape(s) && s'.threads == s.threads && s'.order == s.order && s'.cap == s.cap
    requires forall x :: 0 <= x < |s.threads| ==> !DrainingOwn(s.threads[x].pc)
    requires s'.pass.Draining? ==>
      s'.pass.who.All? && s'.pass.batch == [] && (forall i :: 0 <= i < |s'.pass.todo| ==> HasRing(s, s'.pass.todo[i]))
    ensures Shape(s')
  {
    hide ThreadOk;
    forall x: nat ensures x in s'.order <==> HasRing(s', x) {
      assert x in s.order <==> HasRing(s, x);
    }
    if s'.pass.Draining? {
      forall i | 0 <= i < |s'.pass.todo| ensures HasRing(s', s'.pass.todo[i]) { assert HasRing(s, s'.pass.todo[i]); }
    }
  }

  lemma FailedExecKeeps(s: State)
    requires Shape(s) && s.mode == Sync
    ensures Shape(Apply(s, FailedExec))
  {
    hide ThreadOk, Bytes, RecOk;
    var s' := Apply(s, FailedExec);
    forall x: nat ensures x in s'.order <==> HasRing(s', x) {
      assert x in s.order <==> HasRing(s, x);
    }
    if s'.pass.Draining? {
      forall i | 0 <= i < |s'.pass.todo| ensures HasRing(s', s'.pass.todo[i]) { assert HasRing(s, s.pass.todo[i]); }
      forall i | 0 <= i < |s'.pass.batch|
        ensures BatchRec(s', s'.pass.batch[i])
      {
        assert BatchRec(s, s.pass.batch[i]);
      }
    }
  }

  /** Emitting. */
  lemma EmitKeeps(s: State, a: Action)
    requires Shape(s) && (a.Emit? || a.EmitF?) && Enabled(s, a)
    ensures Shape(Apply(s, a))
  {
    hide Shape, Count;
    match a {
      case Emit(t, len, copied) =>
        if len > MAX_RECORD { RefuseKeeps(s, t, Oversize); }
        else if len > STACK_COPY && !copied { RefuseKeeps(s, t, DroppedFull); }
        else { NewRecordKeeps(s, t, len); }
      case EmitF(t, n, formatted) =>
        if n < 0 { RefuseKeeps(s, t, FormatError); }
        else if n == 0 {
          CountKeeps(s, t, Emitted);
          GlobalKeeps(Count(s, t, Emitted), Apply(s, a));
        }
        else if n > MAX_RECORD { RefuseKeeps(s, t, Oversize); }
        else if n >= STACK_COPY && !formatted { RefuseKeeps(s, t, FormatError); }
        else { NewRecordKeeps(s, t, n); }
    }
  }

  predicate ModeAction(a: Action) {
    a.LoadMode? || a.StartUp? || a.ReloadMode? || a.LeaveWait? || a.TimeOut? || a.GiveUp? || a.CheckMode?
  }

  predicate QueueAction(a: Action) {
    a.GetRing? || a.TryPush? || a.RetryPush? || a.DeliverDirect?
  }

  /** The steps of a push that look at the mode or the clock. */
  lemma ModeKeeps(s: State, a: Action)
    requires Shape(s) && ModeAction(a) && Enabled(s, a)
    ensures Shape(Apply(s, a))
  {
    if a.LoadMode? || a.ReloadMode? {
      LoadKeeps(s, a);
    } else if a.StartUp? {
      StartKeeps(s, a.t, a.ringStarts);
    } else {
      WaitKeeps(s, a);
    }
  }

  lemma LoadKeeps(s: State, a: Action)
    requires Shape(s) && (a.LoadMode? || a.ReloadMode?) && Enabled(s, a)
    ensures Shape(Apply(s, a))
  {
    hide Shape;
    PcKeeps(s, a.t, Apply(s, a).threads[a.t].pc);
  }

  lemma StartKeeps(s: State, t: nat, ringStarts: bool)
    requires Shape(s) && Enabled(s, StartUp(t, ringStarts))
    ensures Shape(Apply(s, StartUp(t, ringStarts)))
  {
    hide Shape;
    var pc := Busy(Reloading, s.threads[t].pc.rec);
    PcKeeps(s, t, pc);
    GlobalKeeps(SetPc(s, t, pc), Apply(s, StartUp(t, ringStarts)));
  }

  lemma WaitKeeps(s: State, a: Action)
    requires Shape(s) && (a.LeaveWait? || a.TimeOut? || a.GiveUp? || a.CheckMode?) && Enabled(s, a)
    ensures Shape(Apply(s, a))
  {
    assert ThreadOk(s.cap, a.t, s.threads[a.t]);
    hide Shape, ThreadOk, RecOk, Used, DropHeld;
    match a {
      case LeaveWait(t) => PcKeeps(s, t, Busy(GaveUp, s.threads[t].pc.rec));
      case TimeOut(t) => PcKeeps(s, t, Busy(GaveUp, s.threads[t].pc.rec));
      case GiveUp(t) =>
        if s.mode != RingMode {
          PcKeeps(s, t, Busy(SyncWait, s.threads[t].pc.rec));
        } else {
          DropKeeps(s, t, DroppedFull);
        }
      case CheckMode(t) => PcKeeps(s, t, Apply(s, a).threads[t].pc);
    }
  }

  /** The steps of a push that touch the ring or deliver. */
  lemma QueueKeeps(s: State, a: Action)
    requires Shape(s) && QueueAction(a) && Enabled(s, a)
    ensures Shape(Apply(s, a))
  {
    assert ThreadOk(s.cap, a.t, s.threads[a.t]);
    hide Shape, ThreadOk, RecOk, Used, DropHeld, Enqueue, Register;
    match a {
      case GetRing(t, granted) => GetRingKeeps(s, t, granted);
      case TryPush(t) =>
        if s.threads[t].pc.rec.len + 4 > s.cap / 2 { DropKeeps(s, t, Oversize); }
        else if Fits(s, t) { EnqueueKeeps(s, t); }
        else if s.neverWait { DropKeeps(s, t, DroppedFull); }
        else { PcKeeps(s, t, Busy(WaitLoop, s.threads[t].pc.rec)); }
      case RetryPush(t) => EnqueueKeeps(s, t);
      case DeliverDirect(t, ok) =>
        var s1 := Delivered(s, [s.threads[t].pc.rec], ok);
        GlobalKeeps(s, s1);
        PcKeeps(s1, t, Idle);
    }
  }

  lemma GetRingKeeps(s: State, t: nat, granted: bool)
    requires Shape(s) && Enabled(s, GetRing(t, granted))
    ensures Shape(Apply(s, GetRing(t, granted)))
  {
    var rec := s.threads[t].pc.rec;
    if s.threads[t].ring.Live? {
      PcKeeps(s, t, Busy(InRing, rec));
    } else if granted {
      RegisterKeeps(s, t);
      PcKeeps(Register(s, t), t, Busy(InRing, rec));
    } else {
      PcKeeps(s, t, Busy(SyncWait, rec));
    }
  }

  /** The steps of whoever holds drain_mu, and the changes of mode. */
  lemma DrainKeeps(s: State, a: Action)
    requires Shape(s) && Enabled(s, a) && !ModeAction(a) && !QueueAction(a) && !a.Emit? && !a.EmitF?
    ensures Shape(Apply(s, a))
  {
    match a {
      case Spawn => SpawnKeeps(s);
      case BeginOwn(t) => BeginOwnKeeps(s, t);
      case EndOwn(t) => EndOwnKeeps(s, t);
      case BeginAll => HandOverAll(s, Apply(s, a));
      case Take => TakeKeeps(s);
      case NextRing => BatchKeeps(s, s.pass.(todo := s.pass.todo[1..]));
      case DeliverBatch(ok) =>
        BatchKeeps(s, s.pass.(batch := []));
        GlobalKeeps(s.(pass := s.pass.(batch := [])), Apply(s, a));
      case FreeOrphan(t) => FreeKeeps(s, t);
      case Unlock => HandOverAll(s, Apply(s, a));
      case Shutdown => GlobalKeeps(s, Apply(s, a));
      case FailedExec => FailedExecKeeps(s);
      case ThreadExit(t) => ExitKeeps(s, t);
    }
  }

  lemma StepKeepsShape(s: State, a: Action)
    requires Shape(s) && Enabled(s, a)
    ensures Shape(Apply(s, a))
  {
    hide Shape, Enabled, Apply;
    if a.Emit? || a.EmitF? {
      EmitKeeps(s, a);
    } else if ModeAction(a) {
      ModeKeeps(s, a);
    } else if QueueAction(a) {
      QueueKeeps(s, a);
    } else {
      DrainKeeps(s, a);
    }
  }
}
