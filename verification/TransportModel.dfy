/** The event transport of hooks/common/hp_transport.h as a step system: producers, whoever drains,
    and shutdown interleave at the granularity of atomic loads, stores and mutex sections. Rings are
    queues of records here; RingProtocol shows the byte ring refines them. */
module TransportModel {

  const MAX_RECORD: nat := 65536
  const BATCH: nat := 131072
  const STACK_COPY: nat := 1024

  /** The seq-th record emitted by thread tid. */
  datatype Rec = Rec(tid: nat, num: nat, len: nat)

  /** What HP_TX_INC is asked to count, and the counts of one block (the accounting part of hp_tx_ctr_t). */
  datatype Event = Emitted | DroppedFull | Oversize | FormatError
  type Counters = multiset<Event>

  datatype Mode = Uninit | RingMode | Sync

  datatype Ring = NoRing | Live(q: seq<Rec>, ctr: Counters, orphan: bool) | Freed

  /** Where a thread is inside hp_tx_push while it still holds the record. */
  datatype Stage =
    | Pushing | Starting | Reloading | NeedRing | InRing | WaitLoop | GaveUp
    | SyncWait | SyncDraining | SyncDeliver

  datatype Pc = Idle | Busy(stage: Stage, rec: Rec) | Published | OwnWait | OwnDraining | Exited

  datatype Thread = Thread(pc: Pc, ring: Ring, next: nat)

  /** Who holds drain_mu. A pass over all rings knows whether it began after the last switch to Sync. */
  datatype Owner = All(inSync: bool) | Own(t: nat)
  datatype Pass = NoPass | Draining(who: Owner, todo: seq<nat>, batch: seq<Rec>)

  /** order: the registry, newest ring first. log: what hp_tx_deliver was handed. drained: a pass over all
      rings has completed since the last switch to Sync. empties: formatted records of length 0. */
  datatype State = State(
    cap: nat, neverWait: bool, mode: Mode, threads: seq<Thread>, order: seq<nat>, ctr: Counters,
    pass: Pass, log: seq<Rec>, sent: nat, lost: nat, empties: nat, drained: bool)

  datatype Action =
    | Spawn
    | Emit(t: nat, len: nat, copied: bool)       // hp_tx_emit
    | EmitF(t: nat, n: int, formatted: bool)     // hp_tx_emitf
    | LoadMode(t: nat)                           // hp_tx_push: load state
    | StartUp(t: nat, ringStarts: bool)          // hp_tx_start
    | ReloadMode(t: nat)                         // hp_tx_push: load state again
    | GetRing(t: nat, granted: bool)           // hp_tx_my_ring
    | TryPush(t: nat)                            // size check and first rb_bytes_push
    | LeaveWait(t: nat)                          // the bounded wait sees another mode
    | RetryPush(t: nat)                          // the bounded wait pushes again
    | TimeOut(t: nat)                            // the bounded wait runs out
    | GiveUp(t: nat)                             // after the wait: load state
    | CheckMode(t: nat)                          // after publishing: load state
    | BeginOwn(t: nat)                           // lock drain_mu for the own ring
    | EndOwn(t: nat)                             // unlock drain_mu
    | DeliverDirect(t: nat, ok: bool)            // hp_tx_emit_sync: hp_tx_deliver
    | BeginAll                                   // lock drain_mu, snapshot the registry
    | Take                                       // rb_bytes_pop into the batch
    | NextRing                                   // the ring is empty
    | DeliverBatch(ok: bool)                     // hp_tx_deliver of the batch
    | FreeOrphan(t: nat)                         // an empty ring whose thread has exited
    | Unlock                                     // unlock drain_mu after a pass over all rings
    | Shutdown                                   // hp_tx_shutdown: state := SYNC
    | FailedExec                                 // hp_tx_after_failed_exec: state := UNINIT
    | ThreadExit(t: nat)                         // hp_tx_ring_dtor

  // ---- sizes ----

  function Bytes(s: seq<Rec>): nat {
    if s == [] then 0 else Bytes(s[..|s|-1]) + s[|s|-1].len
  }

  /** The bytes a queue takes in the ring: each record with its length prefix. */
  function Used(q: seq<Rec>): nat {
    if q == [] then 0 else Used(q[1..]) + 4 + q[0].len
  }

  // ---- effects ----

  function SetThread(s: State, t: nat, th: Thread): State
    requires t < |s.threads|
  {
    s.(threads := s.threads[t := th])
  }

  function SetPc(s: State, t: nat, pc: Pc): State
    requires t < |s.threads|
  {
    SetThread(s, t, s.threads[t].(pc := pc))
  }

  /** HP_TX_INC: the thread's ring block, the global block without a ring. */
  function Count(s: State, t: nat, e: Event): (s': State)
    requires t < |s.threads|
    ensures |s'.threads| == |s.threads| && s' == s.(threads := s'.threads, ctr := s'.ctr)
  {
    var th := s.threads[t];
    if th.ring.Live? && !th.ring.orphan
    then SetThread(s, t, th.(ring := th.ring.(ctr := th.ring.ctr + multiset{e})))
    else s.(ctr := s.ctr + multiset{e})
  }

  /** A new record in the thread's hands. */
  function NewRecord(s: State, t: nat, len: nat): (s': State)
    requires t < |s.threads|
    ensures |s'.threads| == |s.threads| && s' == s.(threads := s'.threads, ctr := s'.ctr)
  {
    var th := s.threads[t];
    var rec := Rec(t, th.next, len);
    Count(SetThread(s, t, th.(pc := Busy(Pushing, rec), next := th.next + 1)), t, Emitted)
  }

  /** A record refused as it is emitted. */
  function Refuse(s: State, t: nat, e: Event): (s': State)
    requires t < |s.threads|
    ensures |s'.threads| == |s.threads| && s' == s.(threads := s'.threads, ctr := s'.ctr)
  {
    Count(Count(SetThread(s, t, s.threads[t].(next := s.threads[t].next + 1)), t, Emitted), t, e)
  }

  /** The record in the thread's hands is given up and counted. */
  function DropHeld(s: State, t: nat, e: Event): (s': State)
    requires t < |s.threads|
    ensures |s'.threads| == |s.threads| && s' == s.(threads := s'.threads, ctr := s'.ctr)
  {
    Count(SetPc(s, t, Idle), t, e)
  }

  function Enqueue(s: State, t: nat): State
    requires t < |s.threads| && s.threads[t].pc.Busy? && s.threads[t].ring.Live?
  {
    var th := s.threads[t];
    SetThread(s, t, th.(pc := Published, ring := th.ring.(q := th.ring.q + [th.pc.rec])))
  }

  function Register(s: State, t: nat): State
    requires t < |s.threads|
  {
    SetThread(s, t, s.threads[t].(ring := Live([], multiset{}, false))).(order := [t] + s.order)
  }

  function Delivered(s: State, recs: seq<Rec>, ok: bool): State {
    if ok then s.(log := s.log + recs, sent := s.sent + |recs|)
    else s.(log := s.log + recs, lost := s.lost + |recs|)
  }

  function FlushBatch(s: State, ok: bool): State
    requires s.pass.Draining?
  {
    Delivered(s, s.pass.batch, ok).(pass := s.pass.(batch := []))
  }

  function TakeOne(s: State): State
    requires s.pass.Draining? && s.pass.todo != [] && s.pass.todo[0] < |s.threads|
    requires s.threads[s.pass.todo[0]].ring.Live? && s.threads[s.pass.todo[0]].ring.q != []
  {
    var x := s.pass.todo[0];
    var th := s.threads[x];
    var rest := th.(ring := th.ring.(q := th.ring.q[1..]));
    SetThread(s, x, rest).(pass := s.pass.(batch := s.pass.batch + [th.ring.q[0]]))
  }

  predicate FreeNow(s: State, t: nat) {
    t < |s.threads| && s.threads[t].ring.Live? && s.threads[t].ring.orphan && s.threads[t].ring.q == []
  }

  function Without(ts: seq<nat>, t: nat): seq<nat> {
    if ts == [] then [] else (if ts[0] == t then [] else [ts[0]]) + Without(ts[1..], t)
  }

  /** Unlinks and frees a ring; its counters move to the global block. */
  function Free(s: State, t: nat): State
    requires HasRing(s, t)
  {
    var th := s.threads[t];
    SetThread(s, t, th.(ring := Freed)).(ctr := s.ctr + th.ring.ctr, order := Without(s.order, t))
  }

  // ---- steps ----

  predicate At(s: State, t: nat, stage: Stage) {
    t < |s.threads| && s.threads[t].pc.Busy? && s.threads[t].pc.stage == stage
  }

  predicate Fits(s: State, t: nat)
    requires t < |s.threads| && s.threads[t].pc.Busy? && s.threads[t].ring.Live?
  {
    s.cap - Used(s.threads[t].ring.q) >= 4 + s.threads[t].pc.rec.len
  }

  predicate HasRing(s: State, t: nat) {
    t < |s.threads| && s.threads[t].ring.Live?
  }

  predicate TakeEnabled(s: State) {
    && s.pass.Draining? && s.pass.todo != [] && HasRing(s, s.pass.todo[0]) && s.threads[s.pass.todo[0]].ring.q != []
    && (s.pass.batch == [] || Bytes(s.pass.batch) + s.threads[s.pass.todo[0]].ring.q[0].len <= BATCH)
  }

  /** The batch is delivered when the next record does not fit, and when every ring has been emptied. */
  predicate DeliverEnabled(s: State) {
    && s.pass.Draining? && s.pass.batch != []
    && (s.pass.todo != [] ==>
          && HasRing(s, s.pass.todo[0]) && s.threads[s.pass.todo[0]].ring.q != []
          && Bytes(s.pass.batch) + s.threads[s.pass.todo[0]].ring.q[0].len > BATCH)
  }

  predicate Enabled(s: State, a: Action) {
    match a
    case Spawn => true
    case Emit(t, len, _) => t < |s.threads| && s.threads[t].pc == Idle && len > 0
    case EmitF(t, n, _) => t < |s.threads| && s.threads[t].pc == Idle
    case LoadMode(t) => At(s, t, Pushing)
    case StartUp(t, _) => At(s, t, Starting)
    case ReloadMode(t) => At(s, t, Reloading)
    case GetRing(t, _) => At(s, t, NeedRing)
    case TryPush(t) => At(s, t, InRing) && s.threads[t].ring.Live?
    case LeaveWait(t) => At(s, t, WaitLoop) && s.mode != RingMode
    case RetryPush(t) => At(s, t, WaitLoop) && s.threads[t].ring.Live? && Fits(s, t)
    case TimeOut(t) => At(s, t, WaitLoop)
    case GiveUp(t) => At(s, t, GaveUp)
    case CheckMode(t) => t < |s.threads| && s.threads[t].pc == Published
    case BeginOwn(t) => s.pass.NoPass? && (At(s, t, SyncWait) || (t < |s.threads| && s.threads[t].pc == OwnWait))
    case EndOwn(t) => t < |s.threads| && s.pass == Draining(Own(t), [], [])
    case DeliverDirect(t, _) => At(s, t, SyncDeliver)
    case BeginAll => s.pass.NoPass?
    case Take => TakeEnabled(s)
    case NextRing => s.pass.Draining? && s.pass.todo != [] && HasRing(s, s.pass.todo[0])
      && s.threads[s.pass.todo[0]].ring.q == []
    case DeliverBatch(_) => DeliverEnabled(s)
    case FreeOrphan(t) => s.pass.Draining? && s.pass.who.All? && s.pass.todo == [] && s.pass.batch == []
      && FreeNow(s, t)
    case Unlock => s.pass.Draining? && s.pass.who.All? && s.pass.todo == [] && s.pass.batch == []
    case Shutdown => true
    case FailedExec => s.mode == Sync
    case ThreadExit(t) => t < |s.threads| && s.threads[t].pc == Idle
  }

  function Apply(s: State, a: Action): State
    requires Enabled(s, a)
  {
    match a
    case Spawn => s.(threads := s.threads + [Thread(Idle, NoRing, 0)])
    case Emit(t, len, copied) =>
      if len > MAX_RECORD then Refuse(s, t, Oversize)
      else if len > STACK_COPY && !copied then Refuse(s, t, DroppedFull)
      else NewRecord(s, t, len)
    case EmitF(t, n, formatted) =>
      if n < 0 then Refuse(s, t, FormatError)
      else if n == 0 then Count(s, t, Emitted).(empties := s.empties + 1)
      else if n > MAX_RECORD then Refuse(s, t, Oversize)
      else if n >= STACK_COPY && !formatted then Refuse(s, t, FormatError)
      else NewRecord(s, t, n)
    case LoadMode(t) =>
      var stage := match s.mode case Uninit => Starting case RingMode => NeedRing case Sync => SyncWait;
      SetPc(s, t, Busy(stage, s.threads[t].pc.rec))
    case StartUp(t, ringStarts) =>
      var mode := if s.mode != Uninit then s.mode else if ringStarts then RingMode else Sync;
      SetPc(s, t, Busy(Reloading, s.threads[t].pc.rec)).(mode := mode)
    case ReloadMode(t) =>
      SetPc(s, t, Busy(if s.mode == RingMode then NeedRing else SyncWait, s.threads[t].pc.rec))
    case GetRing(t, granted) =>
      if s.threads[t].ring.Live? then SetPc(s, t, Busy(InRing, s.threads[t].pc.rec))
      else if granted then SetPc(Register(s, t), t, Busy(InRing, s.threads[t].pc.rec))
      else SetPc(s, t, Busy(SyncWait, s.threads[t].pc.rec))
    case TryPush(t) =>
      if s.threads[t].pc.rec.len + 4 > s.cap / 2 then DropHeld(s, t, Oversize)
      else if Fits(s, t) then Enqueue(s, t)
      else if s.neverWait then DropHeld(s, t, DroppedFull)
      else SetPc(s, t, Busy(WaitLoop, s.threads[t].pc.rec))
    case LeaveWait(t) => SetPc(s, t, Busy(GaveUp, s.threads[t].pc.rec))
    case RetryPush(t) => Enqueue(s, t)
    case TimeOut(t) => SetPc(s, t, Busy(GaveUp, s.threads[t].pc.rec))
    case GiveUp(t) =>
      if s.mode != RingMode then SetPc(s, t, Busy(SyncWait, s.threads[t].pc.rec)) else DropHeld(s, t, DroppedFull)
    case CheckMode(t) => SetPc(s, t, if s.mode != RingMode then OwnWait else Idle)
    case BeginOwn(t) =>
      var todo := if s.threads[t].ring.Live? then [t] else [];
      SetPc(s, t, if s.threads[t].pc == OwnWait then OwnDraining else Busy(SyncDraining, s.threads[t].pc.rec))
        .(pass := Draining(Own(t), todo, []))
    case EndOwn(t) =>
      SetPc(s, t, if s.threads[t].pc.Busy? then Busy(SyncDeliver, s.threads[t].pc.rec) else Idle).(pass := NoPass)
    case DeliverDirect(t, ok) => SetPc(Delivered(s, [s.threads[t].pc.rec], ok), t, Idle)
    case BeginAll => s.(pass := Draining(All(s.mode == Sync), s.order, []))
    case Take => TakeOne(s)
    case NextRing => s.(pass := s.pass.(todo := s.pass.todo[1..]))
    case DeliverBatch(ok) => FlushBatch(s, ok)
    case FreeOrphan(t) => Free(s, t)
    case Unlock => s.(pass := NoPass, drained := s.drained || s.pass.who.inSync)
    case Shutdown => s.(mode := Sync, drained := s.drained && s.mode == Sync)
    case FailedExec =>
      s.(mode := Uninit, drained := false,
         pass := if s.pass.Draining? && s.pass.who.All? then s.pass.(who := All(false)) else s.pass)
    case ThreadExit(t) =>
      var th := s.threads[t];
      SetThread(s, t, th.(pc := Exited, ring := if th.ring.Live? then th.ring.(orphan := true) else th.ring))
  }

  ghost predicate Init(s: State) {
    && s.mode == Uninit && s.threads == [] && s.order == [] && s.ctr == multiset{} && s.pass == NoPass
    && s.log == [] && s.sent == 0 && s.lost == 0 && s.empties == 0 && !s.drained
  }

  // ---- runs ----

  datatype Run = Start(s: State) | Then(before: Run, a: Action, s: State)

  ghost predicate IsRun(run: Run) {
    match run
    case Start(s) => Init(s)
    case Then(before, a, s) => IsRun(before) && Enabled(before.s, a) && s == Apply(before.s, a)
  }
}
