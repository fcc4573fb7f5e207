/** The asynchronous timing of hooks/nccl_hook/nccl_hook.c: reference slots, the circular queue of operations, and
    the timings in progress. Each method is one section under the mutex, or one driver call of a timing's own
    thread, so any interleaving of threads is a sequence of these calls. What the driver answers is a parameter. */
module NcclTiming {
  import opened Options
  import opened NcclOwnership

  /** The queue slot i places after the head. */
  function Slot(head: nat, i: nat): (j: nat)
    requires head < CAP && i < CAP
    ensures j < CAP
  {
    if head + i < CAP then head + i else head + i - CAP
  }

  ghost predicate QueueOk(ring: seq<Op>, head: nat, n: nat, ops: seq<Op>) {
    && |ring| == CAP && head < CAP && n == |ops| <= CAP
    && forall i :: 0 <= i < n ==> ring[Slot(head, i)] == ops[i]
  }

  lemma QueueAdds(ring: seq<Op>, head: nat, n: nat, ops: seq<Op>, o: Op)
    requires QueueOk(ring, head, n, ops) && n < CAP
    ensures QueueOk(ring[Slot(head, n) := o], head, n + 1, ops + [o])
  {
  }

  lemma QueueDrops(ring: seq<Op>, head: nat, n: nat, ops: seq<Op>)
    requires QueueOk(ring, head, n, ops) && n > 0
    ensures QueueOk(ring, Slot(head, 1), n - 1, ops[1..]) && ring[head] == ops[0]
  {
    assert ring[Slot(head, 0)] == ops[0];
    forall i | 0 <= i < n - 1 ensures ring[Slot(Slot(head, 1), i)] == ops[1..][i] {
      assert ring[Slot(head, i + 1)] == ops[i + 1];
    }
  }

  /** How the oldest operation's events turn out: complete, and with usable times. */
  datatype Outcome = Outcome(done: bool, timed: bool)

  /** The oldest operations, all completed, have left the queue; the first one not known to be complete stops it. */
  ghost predicate CompletedLeft(before: seq<Op>, after: seq<Op>, outcomes: seq<Outcome>) {
    && |after| <= |before| && after == before[|before| - |after|..]
    && |before| - |after| <= |outcomes| && (forall i :: 0 <= i < |before| - |after| ==> outcomes[i].done)
    && (after == [] || |before| - |after| == |outcomes| || !outcomes[|before| - |after|].done)
  }

  /** Of the first k operations, those whose spans can be emitted: complete, with usable times and a reference. */
  function Measured(q: seq<Op>, outcomes: seq<Outcome>, k: nat): (spans: seq<Op>)
    requires k <= |q| && k <= |outcomes|
    ensures |spans| <= k
  {
    if k == 0 then []
    else
      var before := Measured(q, outcomes, k - 1);
      if q[k-1].ref < 0 || !outcomes[k-1].done || !outcomes[k-1].timed then before else before + [q[k-1]]
  }

  /** The first k operations have been resolved: a span for each that could be measured, in order, every other one
      counted as lost. */
  ghost predicate Resolved(q: seq<Op>, outcomes: seq<Outcome>, k: nat, emitted: seq<Op>, emitted': seq<Op>, lost: nat,
        lost': nat)
  {
    && k <= |q| && k <= |outcomes|
    && emitted' == emitted + Measured(q, outcomes, k) && lost' == lost + (k - |Measured(q, outcomes, k)|)
  }

  /** k operations of q have been resolved and taken off, the others are still queued. */
  ghost predicate TakenOff(q: seq<Op>, outcomes: seq<Outcome>, k: nat, ops: seq<Op>, emitted: seq<Op>,
        emitted': seq<Op>, lost: nat, lost': nat)
  {
    k <= |q| && ops == q[k..] && Resolved(q, outcomes, k, emitted, emitted', lost, lost')
  }

  lemma OneTakenOff(q: seq<Op>, outcomes: seq<Outcome>, k: nat, ops: seq<Op>, ops': seq<Op>, emitted: seq<Op>,
        was: seq<Op>, now: seq<Op>, lost: nat, lostWas: nat, lostNow: nat, wait: bool)
    requires TakenOff(q, outcomes, k, ops, emitted, was, lost, lostWas) && k < |outcomes|
    requires TakesOldest(ops, ops', was, now, outcomes[k], wait, true)
    requires lostNow == lostWas + if now == was then 1 else 0
    ensures TakenOff(q, outcomes, k + 1, ops', emitted, now, lost, lostNow)
  {
    assert |was + [ops[0]]| != |was|;
  }

  lemma AllTakenOff(q: seq<Op>, outcomes: seq<Outcome>, k: nat, ops: seq<Op>, emitted: seq<Op>, emitted': seq<Op>,
        lost: nat, lost': nat)
    requires TakenOff(q, outcomes, k, ops, emitted, emitted', lost, lost')
    ensures Resolved(q, outcomes, k, emitted, emitted', lost, lost')
  {
  }

  lemma NoneTakenOff(q: seq<Op>, outcomes: seq<Outcome>, emitted: seq<Op>, lost: nat)
    ensures TakenOff(q, outcomes, 0, q, emitted, emitted, lost, lost)
  {
  }

  /** The loop has stopped: nothing is left, no more is known, or the oldest was not complete. */
  lemma LoopStopped(q: seq<Op>, outcomes: seq<Outcome>, k: nat, ops: seq<Op>, emitted: seq<Op>, emitted': seq<Op>,
        lost: nat, lost': nat)
    requires TakenOff(q, outcomes, k, ops, emitted, emitted', lost, lost')
    requires (forall i :: 0 <= i < k && i < |outcomes| ==> outcomes[i].done)
    requires ops == [] || k == |outcomes| || (k < |outcomes| && !outcomes[k].done)
    ensures CompletedLeft(q, ops, outcomes) && k == |q| - |ops|
    ensures Resolved(q, outcomes, |q| - |ops|, emitted, emitted', lost, lost')
  {
  }

  /** What pushing resolves: the oldest operation, if the queue was full, and the pushed one itself if it is dropped. */
  ghost predicate Evicted(q: seq<Op>, oldest: Outcome, dropped: bool, emitted: seq<Op>, emitted': seq<Op>, lost: nat,
        lost': nat)
  {
    var span := |q| == CAP && oldest.done && oldest.timed && q[0].ref >= 0;
    && emitted' == (if span then emitted + [q[0]] else emitted)
    && lost' == lost + (if |q| == CAP && !span then 1 else 0) + if dropped then 1 else 0
  }

  /** Taking the oldest operation off: it leaves if it is complete or waited for, and its span is emitted exactly if it
      is complete, timed and measured from a reference. */
  ghost predicate TakesOldest(ops: seq<Op>, ops': seq<Op>, emitted: seq<Op>, emitted': seq<Op>, oldest: Outcome,
        wait: bool, popped: bool)
  {
    && popped == (ops != [] && (oldest.done || wait))
    && ops' == (if popped then ops[1..] else ops)
    && emitted' == if popped && oldest.done && oldest.timed && ops[0].ref >= 0 then emitted + [ops[0]] else emitted
  }

  lemma Taken(ops: seq<Op>, emitted: seq<Op>, emitted': seq<Op>, oldest: Outcome)
    requires ops != [] && emitted' == emitted + if oldest.done && ops[0].ref >= 0 && oldest.timed then [ops[0]] else []
    ensures TakesOldest(ops, ops[1..], emitted, emitted', oldest, true, true)
  {
  }

  /** The slots hold the same references, pinned or not. */
  ghost predicate SameRefs(rs: seq<Ref>, rs': seq<Ref>) {
    |rs| == |rs'|
      && forall i :: 0 <= i < |rs| ==> rs'[i].ev == rs[i].ev && rs'[i].ns == rs[i].ns && rs'[i].err == rs[i].err
  }

  /** The current reference is too old, or there is none, and a slot is free for a new one. */
  ghost predicate DueForRenewal(rs: seq<Ref>, cur: int, now: int) {
    && (0 <= cur < |rs| ==> now - rs[cur].ns >= RENEW_NS)
    && exists i :: 0 <= i < |rs| && !rs[i].live
  }

  /** What ref_current does, when the new event can or cannot be made: the first free slot gets the reference, dated to
      the middle of the recording, or nothing changes. */
  ghost predicate Renewed(rs: seq<Ref>, rs': seq<Ref>, cur: int, r: int, now: int, made: bool, ev: nat, before: int,
        after: int)
  {
    && |rs| == |rs'|
    && if made && DueForRenewal(rs, cur, now) then
         && 0 <= r < |rs| && !rs[r].live && (forall i :: 0 <= i < r ==> rs[i].live)
         && rs'[r] == Ref(ev, before + (after - before) / 2, (after - before) / 2, 0, true)
         && SameRefs(rs, rs'[r := rs[r]])
       else r == cur && rs' == rs
  }

  /** The references left once completed operations have given back their pins. */
  ghost predicate StillLive(rs: seq<Ref>, cur: int, ops: seq<Op>, open: seq<Timing>) {
    forall r :: 0 <= r < |rs| ==> (rs[r].live <==> r == cur || Pins(ops, open, r) > 0)
  }

  lemma LiveNow(alive: set<nat>, rs: seq<Ref>, cur: int, ops: seq<Op>, open: seq<Timing>)
    requires StateOk(alive, rs, cur, ops, open)
    ensures StillLive(rs, cur, ops, open)
  {
    hide Pins;
  }

  /** A timing has its reference: completed operations have given their pins back, then the current reference was
      renewed if it was due and could be. */
  ghost predicate Acquired(rs: seq<Ref>, rs': seq<Ref>, cur: int, ref: int, ops: seq<Op>, open: seq<Timing>, now: int,
        made: bool, ev: nat, before: int, after: int)
  {
    exists mid, renewed ::
      && SameRefs(rs, mid) && StillLive(mid, cur, ops, open)
      && Renewed(mid, renewed, cur, ref, now, made, ev, before, after) && SameRefs(renewed, rs')
  }

  lemma AcquiredBy(rs: seq<Ref>, mid: seq<Ref>, renewed: seq<Ref>, rs': seq<Ref>, cur: int, ref: int, ops: seq<Op>,
        open: seq<Timing>, now: int, made: bool, ev: nat, before: int, after: int)
    requires SameRefs(rs, mid) && StillLive(mid, cur, ops, open)
    requires Renewed(mid, renewed, cur, ref, now, made, ev, before, after) && SameRefs(renewed, rs')
    ensures Acquired(rs, rs', cur, ref, ops, open, now, made, ev, before, after)
  {
    hide SameRefs, StillLive, Renewed;
  }

  /** What beginning a timing does besides adding it: an asynchronous one resolves completed operations and acquires
      its reference, any other has none and leaves everything as it was. */
  ghost predicate Begun(async: bool, outcomes: seq<Outcome>, now: int, made: bool, ev: nat, before: int, after: int,
        ref: int, q: seq<Op>, q': seq<Op>, emitted: seq<Op>, emitted': seq<Op>, lost: nat, lost': nat, rs: seq<Ref>,
        rs': seq<Ref>, cur: int, cur': int, open: seq<Timing>)
  {
    if async then
      && ref == cur' && CompletedLeft(q, q', outcomes)
      && Resolved(q, outcomes, |q| - |q'|, emitted, emitted', lost, lost')
      && Acquired(rs, rs', cur, ref, q', open, now, made, ev, before, after)
    else ref == -1 && q' == q && emitted' == emitted && lost' == lost && cur' == cur && SameRefs(rs, rs')
  }

  lemma PinnedRef(async: bool, outcomes: seq<Outcome>, now: int, made: bool, ev: nat, before: int, after: int,
        ref: int, q: seq<Op>, q': seq<Op>, emitted: seq<Op>, emitted': seq<Op>, lost: nat, lost': nat, rs: seq<Ref>,
        rs': seq<Ref>, cur: int, cur': int, open: seq<Timing>)
    requires Begun(async, outcomes, now, made, ev, before, after, ref, q, q', emitted, emitted', lost, lost', rs, rs',
      cur, cur', open)
    ensures async || ref == -1
  {
  }

  lemma RenewedIn(rs: seq<Ref>, rs': seq<Ref>, cur: int, slot: nat, now: int, ev: nat, before: int, after: int)
    requires |rs| == |rs'| && slot < |rs| && !rs[slot].live && (forall i :: 0 <= i < slot ==> rs[i].live)
    requires !(0 <= cur < |rs| && now - rs[cur].ns < RENEW_NS)
    requires rs'[slot] == Ref(ev, before + (after - before) / 2, (after - before) / 2, 0, true)
    requires SameRefs(rs, rs'[slot := rs[slot]])
    ensures Renewed(rs, rs', cur, slot, now, true, ev, before, after)
  {
  }

  lemma NotRenewed(rs: seq<Ref>, cur: int, now: int, made: bool, ev: nat, before: int, after: int)
    requires !made || (0 <= cur < |rs| && now - rs[cur].ns < RENEW_NS) || forall i :: 0 <= i < |rs| ==> rs[i].live
    ensures Renewed(rs, rs, cur, cur, now, made, ev, before, after)
  {
  }

  class AsyncTiming {
    var refs: array<Ref>
    var cur: int
    var ring: array<Op>
    var head: nat
    var n: nat
    var lost: nat
    var emitted: seq<Op>            // operations whose spans were emitted, in order
    var alive: set<nat>             // events that exist in the driver
    ghost var ops: seq<Op>          // the queue, oldest first
    ghost var open: seq<Timing>     // timings in progress
    ghost var pushed: nat           // operations ever handed to the queue

    ghost predicate Valid()
      reads this, refs, ring
    {
      && StateOk(alive, refs[..], cur, ops, open) && QueueOk(ring[..], head, n, ops)
      && pushed == |emitted| + lost + |ops|
    }

    constructor ()
      ensures Valid() && ops == [] && open == [] && emitted == [] && lost == 0 && fresh(refs) && fresh(ring)
    {
      refs := new Ref[REFS](_ => Ref(0, 0, 0, 0, false));
      ring := new Op[CAP](_ => Op(0, 0, -1));
      cur, head, n, lost, emitted, alive, ops, open, pushed := -1, 0, 0, 0, [], {}, [], [], 0;
      new;
      forall x ensures Owners(refs[..], [], [], x) == 0 { NoneHeld(refs[..], x); }
    }

    /** The driver creates an event nobody owns yet. */
    method EvCreate(ev: nat)
      requires ev !in alive
      modifies this`alive
      ensures alive == old(alive) + {ev}
    {
      alive := alive + {ev};
    }

    /** Destroying an event twice would break this method's precondition. */
    method EvDestroy(ev: nat)
      requires ev in alive
      modifies this`alive
      ensures alive == old(alive) - {ev}
    {
      alive := alive - {ev};
    }

    method RefRelease(r: int)
      requires Releasing(alive, refs[..], cur, ops, open, r)
      modifies refs, this`alive
      ensures StateOk(alive, refs[..], cur, ops, open) && alive <= old(alive) && SameRefs(old(refs[..]), refs[..])
    {
      if r < 0 {
        return;
      }
      ghost var s := refs[..];
      ReleaseKeeps(alive, s, cur, ops, open, r);
      hide StateOk;
      refs[r] := refs[r].(pending := refs[r].pending - 1);
      assert refs[..] == Lowered(s, r);
      if refs[r].pending == 0 && r != cur && refs[r].live {
        EvDestroy(refs[r].ev);
        refs[r] := refs[r].(live := false);
        assert refs[..] == Retired(Lowered(s, r), r);
      }
    }

    /** Emits the operation's span or counts it lost, and destroys its events. */
    method Finish(op: Op, outcome: Outcome)
      requires op.s in alive && op.e in alive - {op.s}
      modifies this`alive, this`lost, this`emitted
      ensures alive == old(alive) - {op.s} - {op.e}
      ensures var ok := outcome.done && op.ref >= 0 && outcome.timed;
        emitted == old(emitted) + (if ok then [op] else []) && lost == old(lost) + if ok then 0 else 1
    {
      if outcome.done && op.ref >= 0 && outcome.timed {
        emitted := emitted + [op];
      } else {
        lost := lost + 1;
      }
      EvDestroy(op.s);
      EvDestroy(op.e);
    }

    /** The oldest operation leaves the queue: its span is emitted or it counts as lost, its events are destroyed
        and its pin given back. */
    method TakeOff(oldest: Outcome)
      requires Valid() && ops != []
      modifies this`alive, this`head, this`n, this`lost, this`emitted, this`ops, refs
      ensures Valid() && TakesOldest(old(ops), ops, old(emitted), emitted, oldest, true, true) && alive <= old(alive)
      ensures SameRefs(old(refs[..]), refs[..])
    {
      ghost var q := ops;
      QueueFull(ring[..], head, n, q);
      QueueDrops(ring[..], head, n, q);
      PopKeeps(alive, refs[..], cur, q, open);
      hide *;
      var op := ring[head];
      ghost var was := emitted;
      Finish(op, oldest);
      ops := q[1..];
      RefRelease(op.ref);
      head := Slot(head, 1);
      n := n - 1;
      Taken(q, was, emitted, oldest);
    }

    /** async_pop: what the oldest operation's end event says decides whether it is taken off. */
    method AsyncPop(wait: bool, oldest: Outcome) returns (popped: bool)
      requires Valid()
      modifies this`alive, this`head, this`n, this`lost, this`emitted, this`ops, refs
      ensures Valid() && TakesOldest(old(ops), ops, old(emitted), emitted, oldest, wait, popped) && alive <= old(alive)
      ensures lost == old(lost) + (if popped && emitted == old(emitted) then 1 else 0)
      ensures SameRefs(old(refs[..]), refs[..])
    {
      QueueFull(ring[..], head, n, ops);
      hide StateOk, QueueOk;
      popped := n > 0 && (oldest.done || wait);
      if popped { TakeOff(oldest); }
    }

    /** while (async_pop(0)): outcomes tells which operations have completed by now, oldest first. */
    method PopCompleted(outcomes: seq<Outcome>)
      requires Valid()
      modifies this`alive, this`head, this`n, this`lost, this`emitted, this`ops, refs
      ensures Valid() && CompletedLeft(old(ops), ops, outcomes) && alive <= old(alive)
      ensures Resolved(old(ops), outcomes, |old(ops)| - |ops|, old(emitted), emitted, old(lost), lost)
      ensures SameRefs(old(refs[..]), refs[..])
    {
      ghost var q := ops;
      var i := 0;
      var popped := true;
      NoneTakenOff(q, outcomes, emitted, lost);
      hide StateOk, QueueOk, TakenOff, Resolved;
      while popped && i < |outcomes|
        invariant Valid() && alive <= old(alive) && SameRefs(old(refs[..]), refs[..]) && i <= |outcomes|
        invariant popped || i > 0
        invariant TakenOff(q, outcomes, if popped then i else i - 1, ops, old(emitted), emitted, old(lost), lost)
        invariant forall l :: 0 <= l < (if popped then i else i - 1) ==> outcomes[l].done
        invariant !popped ==> ops == [] || !outcomes[i - 1].done
        decreases |outcomes| - i
      {
        ghost var was, spans, misses := ops, emitted, lost;
        popped := AsyncPop(false, outcomes[i]);
        if popped {
          OneTakenOff(q, outcomes, i, was, ops, old(emitted), spans, emitted, old(lost), misses, lost, false);
        }
        i := i + 1;
      }
      LoopStopped(q, outcomes, if popped then i else i - 1, ops, old(emitted), emitted, old(lost), lost);
    }

    /** async_drain with waiting, as at exit: the queue is emptied, and every operation ever pushed was emitted or
        counted as lost. */
    method DrainAll(outcomes: seq<Outcome>)
      requires Valid() && |outcomes| >= |ops|
      modifies this`alive, this`head, this`n, this`lost, this`emitted, this`ops, refs
      ensures Valid() && ops == [] && pushed == |emitted| + lost && alive <= old(alive)
      ensures Resolved(old(ops), outcomes, |old(ops)|, old(emitted), emitted, old(lost), lost)
      ensures SameRefs(old(refs[..]), refs[..])
    {
      ghost var q := ops;
      NoneTakenOff(q, outcomes, emitted, lost);
      hide StateOk, QueueOk, TakenOff, Resolved;
      var i := 0;
      var popped := true;
      while popped
        invariant Valid() && alive <= old(alive) && SameRefs(old(refs[..]), refs[..])
        invariant popped ==> i + |ops| == |q|
        invariant !popped ==> ops == [] && i == |q| + 1
        invariant TakenOff(q, outcomes, if popped then i else i - 1, ops, old(emitted), emitted, old(lost), lost)
        decreases |ops|, popped
      {
        ghost var was, spans, misses := ops, emitted, lost;
        popped := AsyncPop(true, if i < |outcomes| then outcomes[i] else Outcome(false, false));
        if popped {
          OneTakenOff(q, outcomes, i, was, ops, old(emitted), spans, emitted, old(lost), misses, lost, true);
        }
        i := i + 1;
      }
      AllTakenOff(q, outcomes, |q|, ops, old(emitted), emitted, old(lost), lost);
    }

    /** The first free slot, REFS if there is none. */
    method FreeSlot() returns (slot: nat)
      requires refs.Length == REFS
      ensures slot <= REFS && (slot < REFS ==> !refs[slot].live) && forall r :: 0 <= r < slot ==> refs[r].live
    {
      slot := 0;
      while slot < REFS && refs[slot].live
        invariant slot <= REFS && forall r :: 0 <= r < slot ==> refs[r].live
      {
        slot := slot + 1;
      }
    }

    /** An event that was made but could not be recorded. */
    method MakeAndDestroy(ev: nat)
      requires ev !in alive
      modifies this`alive
      ensures alive == old(alive)
    {
      EvCreate(ev);
      EvDestroy(ev);
    }

    /** The new reference takes its slot and becomes current; the one before goes if nothing pins it. */
    method Renew(slot: nat, x: Ref)
      requires Valid() && slot < REFS && slot < refs.Length && !refs[slot].live && x.live && x.pending == 0
      requires x.ev !in alive
      modifies this`alive, this`cur, refs
      ensures Valid() && cur == slot && refs[slot] == x && alive <= old(alive) + {x.ev}
      ensures SameRefs(old(refs[..]), refs[..][slot := old(refs[..])[slot]])
    {
      ghost var s, was := refs[..], alive;
      CurrentInRange(was, s, cur, ops, open);
      RenewKeeps(was, s, cur, ops, open, slot, x);
      hide StateOk, QueueOk;
      EvCreate(x.ev);
      var prior := cur;
      refs[slot] := x;
      assert refs[..] == s[slot := x];
      cur := slot;
      if prior >= 0 && refs[prior].pending == 0 && refs[prior].live {
        EvDestroy(refs[prior].ev);
        refs[prior] := refs[prior].(live := false);
        assert refs[..] == Retired(s[slot := x], prior);
      }
    }

    /** ref_current: a reference is renewed when it is old, if a slot is free and the driver makes the event;
        otherwise the current one stays. */
    method RefCurrent(now: int, stream: bool, created: bool, recorded: bool, ev: nat, before: int, after: int)
      returns (r: int)
      requires Valid() && ev !in alive
      modifies this`alive, this`cur, refs
      ensures Valid() && r == cur && alive <= old(alive) + {ev}
      ensures Renewed(old(refs[..]), refs[..], old(cur), r, now, stream && created && recorded, ev, before, after)
      ensures r == old(cur) ==> alive == old(alive)
    {
      CurrentInRange(alive, refs[..], cur, ops, open);
      ghost var s := refs[..];
      hide StateOk, QueueOk, Renewed;
      if cur >= 0 && now - refs[cur].ns < RENEW_NS {
        NotRenewed(s, cur, now, stream && created && recorded, ev, before, after);
        return cur;
      }
      if !stream {
        NotRenewed(s, cur, now, false, ev, before, after);
        return cur;
      }
      var slot := FreeSlot();
      if slot == REFS || !created || !recorded {
        NotRenewed(s, cur, now, created && recorded, ev, before, after);
        if slot < REFS && created { MakeAndDestroy(ev); }
        return cur;
      }
      ghost var was := cur;
      Renew(slot, Ref(ev, before + (after - before) / 2, (after - before) / 2, 0, true));
      RenewedIn(s, refs[..], was, slot, now, ev, before, after);
      r := slot;
    }

    // ---- one operation's timing ----

    /** A timing enters with its reference, pinned if there is one. */
    method Enter(mode: OpMode, ref: int)
      requires Valid() && (mode == HostOnly || mode == Deferred) && (ref == -1 || (ref == cur && mode == HostOnly))
      modifies this`open, refs
      ensures Valid() && open == old(open) + [Timing(mode, None, None, ref)] && SameRefs(old(refs[..]), refs[..])
    {
      ghost var s := refs[..];
      BeginKeeps(alive, s, cur, ops, open, Timing(mode, None, None, ref));
      assert -1 <= cur < refs.Length;
      hide StateOk, QueueOk;
      if ref >= 0 {
        refs[ref] := refs[ref].(pending := refs[ref].pending + 1);
        assert refs[..] == s[ref := s[ref].(pending := s[ref].pending + 1)];
      }
      open := open + [Timing(mode, None, None, ref)];
    }

    /** async_ref_acquire: completed operations leave, then a timing starts with the current reference pinned. */
    method AsyncRefAcquire(outcomes: seq<Outcome>, now: int, stream: bool, created: bool, recorded: bool, ev: nat,
          before: int, after: int)
      returns (ref: int)
      requires Valid() && ev !in alive
      modifies this`alive, this`head, this`n, this`lost, this`emitted, this`ops, this`cur, this`open, refs
      ensures Valid() && ref == cur && open == old(open) + [Timing(HostOnly, None, None, ref)]
      ensures CompletedLeft(old(ops), ops, outcomes) && alive <= old(alive) + {ev}
      ensures Resolved(old(ops), outcomes, |old(ops)| - |ops|, old(emitted), emitted, old(lost), lost)
      ensures Acquired(old(refs[..]), refs[..], old(cur), ref, ops, old(open), now, stream && created && recorded, ev,
        before, after)
    {
      hide StateOk, QueueOk, CompletedLeft, Resolved, Renewed, SameRefs, Acquired;
      ghost var was := open;
      PopCompleted(outcomes);
      ghost var mid := refs[..];
      LiveNow(alive, mid, cur, ops, open);
      ref := RefCurrent(now, stream, created, recorded, ev, before, after);
      ghost var renewed := refs[..];
      Enter(HostOnly, ref);
      AcquiredBy(old(refs[..]), mid, renewed, refs[..], old(cur), ref, ops, was, now, stream && created && recorded, ev,
        before, after);
    }

    /** The timing's own two events: created or not, the start recorded or not. */
    method CreateEvents(ghost k: nat, o: Timing, async: bool, first: bool, second: bool, recorded: bool, s: nat, e: nat)
      returns (o': Timing)
      requires Valid() && k < |open| && open[k] == o && o.mode == HostOnly && o.s.None? && o.e.None?
      requires async || o.ref == -1
      requires s !in alive && e !in alive && s != e
      modifies this`alive, this`open
      ensures Valid() && open == old(open)[k := o'] && o'.ref == o.ref
      ensures o'.s == (if first then Some(s) else None) && o'.e == if first && second then Some(e) else None
      ensures o'.mode
        == if first && second && recorded then (if async && o.ref >= 0 then Async else SyncMode) else HostOnly
    {
      ghost var was := alive;
      o' := o;
      if first {
        EvCreate(s);
        o' := o'.(s := Some(s));
        if second {
          EvCreate(e);
          o' := o'.(e := Some(e));
          if recorded {
            o' := o'.(mode := if async && o.ref >= 0 then Async else SyncMode);
          }
        }
      }
      TimingInRange(was, refs[..], cur, ops, open, k);
      CreatedKeeps(was, refs[..], cur, ops, open, k, o', s, e);
      hide StateOk, QueueOk;
      assert alive == was + Events(o');
      open := open[k := o'];
    }

    /** op_destroy: the timing's events and its pin are given up. */
    method OpDestroy(ghost k: nat, o: Timing)
      requires Valid() && k < |open| && open[k] == o
      modifies this`alive, this`open, refs
      ensures Valid() && open == Without(old(open), k)
    {
      ghost var was := alive;
      DestroyedKeeps(was, refs[..], cur, ops, open, k);
      hide StateOk, QueueOk, Releasing;
      if o.s.Some? { EvDestroy(o.s.value); }
      if o.e.Some? { EvDestroy(o.e.value); }
      assert alive == was - Events(o);
      open := Without(open, k);
      RefRelease(o.ref);
    }

    /** async_push: the queue takes over the timing's events and pin; the oldest operation makes room if it must. */
    method AsyncPush(ghost k: nat, o: Timing, copied: bool, oldest: Outcome)
      requires Valid() && k < |open| && open[k] == o && o.mode == Async
      modifies this`alive, this`head, this`n, this`lost, this`emitted, this`ops, this`open, this`pushed, refs, ring
      ensures Valid() && open == Without(old(open), k) && pushed == old(pushed) + 1
      ensures ops == (if old(|ops|) == CAP then old(ops)[1..] else old(ops))
        + if copied then [Op(o.s.value, o.e.value, o.ref)] else []
      ensures Evicted(old(ops), oldest, !copied, old(emitted), emitted, old(lost), lost)
    {
      QueueFull(ring[..], head, n, ops);
      TimingInRange(alive, refs[..], cur, ops, open, k);
      hide StateOk, QueueOk;
      if n == CAP {
        var popped := AsyncPop(true, oldest);
      }
      pushed := pushed + 1;
      if !copied {
        lost := lost + 1;
        OpDestroy(k, o);
      } else {
        Append(k, Op(o.s.value, o.e.value, o.ref));
      }
    }

    method Append(ghost k: nat, op: Op)
      requires StateOk(alive, refs[..], cur, ops, open) && QueueOk(ring[..], head, n, ops) && |ops| < CAP
      requires pushed == |emitted| + lost + |ops| + 1
      requires k < |open| && open[k].s == Some(op.s) && open[k].e == Some(op.e) && open[k].ref == op.ref
      modifies this`n, this`ops, this`open, ring
      ensures Valid() && open == Without(old(open), k) && ops == old(ops) + [op]
    {
      PushKeeps(alive, refs[..], cur, ops, open, k, op);
      ghost var s := ring[..];
      QueueAdds(s, head, n, ops, op);
      QueueFull(s, head, n, ops);
      hide StateOk, QueueOk;
      ring[Slot(head, n)] := op;
      assert ring[..] == s[Slot(head, n) := op];
      n := n + 1;
      ops := ops + [op];
      open := Without(open, k);
    }

    /** The first half of op_begin: a timing enters, an asynchronous one with its reference. */
    method Pin(grouped: bool, async: bool, outcomes: seq<Outcome>, now: int, stream: bool, made: bool, recorded: bool,
          ev: nat, before: int, after: int)
      returns (ref: int)
      requires Valid() && ev !in alive
      modifies this`alive, this`head, this`n, this`lost, this`emitted, this`ops, this`cur, this`open, refs
      ensures Valid() && open == old(open) + [Timing(if grouped then Deferred else HostOnly, None, None, ref)]
      ensures alive <= old(alive) + {ev}
      ensures Begun(async && !grouped, outcomes, now, stream && made && recorded, ev, before, after, ref,
        old(ops), ops, old(emitted), emitted, old(lost), lost, old(refs[..]), refs[..], old(cur), cur, old(open))
    {
      hide StateOk, QueueOk, CompletedLeft, Resolved, Acquired, SameRefs;
      ref := -1;
      if async && !grouped {
        ref := AsyncRefAcquire(outcomes, now, stream, made, recorded, ev, before, after);
      } else {
        Enter(if grouped then Deferred else HostOnly, -1);
      }
    }

    /** op_begin: a grouped call is only timed on the host; otherwise a reference is pinned before the timing's own
        start event is recorded. */
    method OpBegin(grouped: bool, async: bool, outcomes: seq<Outcome>, now: int, stream: bool, made: bool,
          recorded: bool, ev: nat, before: int, after: int, first: bool, second: bool, started: bool, s: nat, e: nat)
      returns (o: Timing)
      requires Valid() && ev !in alive && s !in alive && e !in alive && ev != s && ev != e && s != e
      modifies this`alive, this`head, this`n, this`lost, this`emitted, this`ops, this`cur, this`open, refs
      ensures Valid() && open == old(open) + [o]
      ensures o.mode == if grouped then Deferred else if !(first && second && started) then HostOnly
                        else if async && o.ref >= 0 then Async else SyncMode
      ensures o.s == (if !grouped && first then Some(s) else None)
      ensures o.e == (if !grouped && first && second then Some(e) else None)
      ensures Begun(async && !grouped, outcomes, now, stream && made && recorded, ev, before, after, o.ref,
        old(ops), ops, old(emitted), emitted, old(lost), lost, old(refs[..]), refs[..], old(cur), cur, old(open))
    {
      hide StateOk, QueueOk, Begun;
      ghost var k := |open|;
      var ref := Pin(grouped, async, outcomes, now, stream, made, recorded, ev, before, after);
      o := Timing(if grouped then Deferred else HostOnly, None, None, ref);
      if !grouped {
        PinnedRef(async, outcomes, now, stream && made && recorded, ev, before, after, ref, old(ops), ops, old(emitted),
          emitted, old(lost), lost, old(refs[..]), refs[..], old(cur), cur, old(open));
        o := CreateEvents(k, o, async, first, second, started, s, e);
      }
    }

    /** op_end: a deferred timing owns nothing; an asynchronous one whose end was recorded goes to the queue; every
        other gives up what it holds. */
    method OpEnd(ghost k: nat, o: Timing, recorded: bool, copied: bool, oldest: Outcome)
      requires Valid() && k < |open| && open[k] == o
      modifies this`alive, this`head, this`n, this`lost, this`emitted, this`ops, this`open, this`pushed, refs, ring
      ensures Valid() && open == Without(old(open), k)
      ensures pushed == old(pushed) + if o.mode == Async && recorded then 1 else 0
      ensures ops == if o.mode == Async && recorded
                     then (if old(|ops|) == CAP then old(ops)[1..] else old(ops))
                       + if copied then [Op(o.s.value, o.e.value, o.ref)] else []
                     else old(ops)
      ensures if o.mode == Async && recorded
              then Evicted(old(ops), oldest, !copied, old(emitted), emitted, old(lost), lost)
              else emitted == old(emitted) && lost == old(lost)
    {
      hide StateOk, QueueOk;
      if o.mode == Async && recorded {
        AsyncPush(k, o, copied, oldest);
      } else {
        OpDestroy(k, o);
      }
    }
  }

  /** What a queued operation will be measured from still exists, and so do its own events. */
  lemma QueuedIsMeasurable(alive: set<nat>, refs: seq<Ref>, cur: int, ops: seq<Op>, open: seq<Timing>, i: nat)
    requires StateOk(alive, refs, cur, ops, open) && i < |ops|
    ensures ops[i].s in alive && ops[i].e in alive
    ensures ops[i].ref >= 0 ==> refs[ops[i].ref].live && refs[ops[i].ref].ev in alive
  {
    var o := ops[i];
    forall x ensures (if x in alive then 1 else 0) >= OpHolds(x)(o) {
      SumWithout(ops, i, OpHolds(x));
      assert Owners(refs, ops, open, x) == if x in alive then 1 else 0;
    }
    assert OpHolds(o.s)(o) >= 1 && OpHolds(o.e)(o) >= 1;
    if o.ref >= 0 {
      SumWithout(ops, i, OpPins(o.ref));
      assert refs[o.ref].pending > 0;
      HeldExists(alive, refs, ops, open, o.ref);
    }
  }

  lemma CurrentInRange(alive: set<nat>, refs: seq<Ref>, cur: int, ops: seq<Op>, open: seq<Timing>)
    requires StateOk(alive, refs, cur, ops, open)
    ensures |refs| == REFS && -1 <= cur < REFS
  {
  }

  lemma QueueFull(ring: seq<Op>, head: nat, n: nat, ops: seq<Op>)
    requires QueueOk(ring, head, n, ops)
    ensures |ring| == CAP && head < CAP && n == |ops| <= CAP
  {
  }

  lemma TimingInRange(alive: set<nat>, refs: seq<Ref>, cur: int, ops: seq<Op>, open: seq<Timing>, k: nat)
    requires StateOk(alive, refs, cur, ops, open) && k < |open|
    ensures TimingOk(open[k])
  {
  }

  function Events(o: Timing): set<nat> {
    (if o.s.Some? then {o.s.value} else {}) + if o.e.Some? then {o.e.value} else {}
  }

  lemma CreatedKeeps(alive: set<nat>, refs: seq<Ref>, cur: int, ops: seq<Op>, open: seq<Timing>, k: nat, o: Timing,
        s: nat, e: nat)
    requires StateOk(alive, refs, cur, ops, open) && k < |open| && open[k].s.None? && open[k].e.None?
    requires o.ref == open[k].ref && TimingOk(o)
    requires s !in alive && e !in alive && s != e && (o.s.None? || o.s == Some(s)) && (o.e.None? || o.e == Some(e))
    ensures StateOk(alive + Events(o), refs, cur, ops, open[k := o])
  {
    hide StateOk;
    ChangeKeeps(alive, alive + Events(o), refs, cur, ops, open, k, o);
  }

  /** A timing's events exist and are its own; without them and it, its pin is left to give back. */
  lemma DestroyedKeeps(alive: set<nat>, refs: seq<Ref>, cur: int, ops: seq<Op>, open: seq<Timing>, k: nat)
    requires StateOk(alive, refs, cur, ops, open) && k < |open|
    ensures var o := open[k];
      && (o.s.Some? ==> o.s.value in alive)
      && (o.e.Some? ==> o.e.value in alive && o.e != o.s)
      && Releasing(alive - Events(o), refs, cur, ops, Without(open, k), o.ref)
  {
    var o := open[k];
    EventsHeld(alive, refs, ops, open, k);
    TimingInRange(alive, refs, cur, ops, open, k);
    hide StateOk, OwnedOnce, Releasing;
    var rest := Timing(if o.mode == Deferred then Deferred else HostOnly, None, None, o.ref);
    ChangeKeeps(alive, alive - Events(o), refs, cur, ops, open, k, rest);
    EndKeeps(alive - Events(o), refs, cur, ops, open[k := rest], k);
    assert Without(open[k := rest], k) == Without(open, k);
  }

  lemma EventsHeld(alive: set<nat>, refs: seq<Ref>, ops: seq<Op>, open: seq<Timing>, k: nat)
    requires OwnedOnce(alive, refs, ops, open) && k < |open|
    ensures open[k].s.Some? ==> open[k].s.value in alive
    ensures open[k].e.Some? ==> open[k].e.value in alive
    ensures open[k].s.Some? && open[k].e.Some? ==> open[k].s.value != open[k].e.value
    ensures forall x :: (if x in alive then 1 else 0) >= TimingHolds(x)(open[k])
  {
    forall x ensures (if x in alive then 1 else 0) >= TimingHolds(x)(open[k]) {
      SumWithout(open, k, TimingHolds(x));
      assert Owners(refs, ops, open, x) == if x in alive then 1 else 0;
    }
    if open[k].s.Some? { assert TimingHolds(open[k].s.value)(open[k]) >= 1; }
    if open[k].e.Some? { assert TimingHolds(open[k].e.value)(open[k]) >= 1; }
  }

  lemma {:induction false} NoneHeld(refs: seq<Ref>, x: nat)
    requires forall r :: 0 <= r < |refs| ==> !refs[r].live
    ensures Sum(refs, RefHolds(x)) == 0
  {
    if refs != [] { NoneHeld(refs[..|refs|-1], x); }
  }
}
