/** Who owns which event in the asynchronous NCCL timing of hooks/nccl_hook/nccl_hook.c: reference events, queued
    operations and timings in progress. */
module NcclOwnership {
  import opened Options

  const REFS: nat := 16
  const CAP: nat := 4096
  const RENEW_NS: int := 1000000000

  /** A reference event (RefEvent). */
  datatype Ref = Ref(ev: nat, ns: int, err: int, pending: int, live: bool)

  /** A queued operation (AsyncOp): its start and end events and the reference it is measured from. */
  datatype Op = Op(s: nat, e: nat, ref: int)

  datatype OpMode = SyncMode | Deferred | Async | HostOnly

  /** One operation's timing in progress (OpTiming). */
  datatype Timing = Timing(mode: OpMode, s: Option<nat>, e: Option<nat>, ref: int)

  // ---- sums over a list ----

  function Sum<T>(s: seq<T>, f: T -> nat): nat {
    if s == [] then 0 else Sum(s[..|s|-1], f) + f(s[|s|-1])
  }

  lemma SumSnoc<T>(s: seq<T>, x: T, f: T -> nat)
    ensures Sum(s + [x], f) == Sum(s, f) + f(x)
  {
    assert (s + [x])[..|s|] == s;
  }

  lemma {:induction false} SumTail<T>(s: seq<T>, f: T -> nat)
    requires s != []
    ensures Sum(s, f) == f(s[0]) + Sum(s[1..], f)
  {
    if |s| == 1 {
      assert s[..0] == [] && s[1..] == [];
    } else {
      SumTail(s[..|s|-1], f);
      assert s[..|s|-1][1..] == s[1..][..|s[1..]|-1];
    }
  }

  lemma {:induction false} SumUpdate<T>(s: seq<T>, k: nat, x: T, f: T -> nat)
    requires k < |s|
    ensures Sum(s[k := x], f) + f(s[k]) == Sum(s, f) + f(x)
  {
    if k == |s| - 1 {
      assert s[k := x][..k] == s[..k];
    } else {
      SumUpdate(s[..|s|-1], k, x, f);
      assert s[k := x][..|s|-1] == s[..|s|-1][k := x];
    }
  }

  function Without<T>(s: seq<T>, k: nat): seq<T>
    requires k < |s|
  {
    s[..k] + s[k+1..]
  }

  lemma {:induction false} SumWithout<T>(s: seq<T>, k: nat, f: T -> nat)
    requires k < |s|
    ensures Sum(s, f) == Sum(Without(s, k), f) + f(s[k])
  {
    var n := |s| - 1;
    if k == n {
      assert Without(s, k) == s[..n];
    } else {
      SumWithout(s[..n], k, f);
      assert Without(s, k) == Without(s[..n], k) + [s[n]];
      SumSnoc(Without(s[..n], k), s[n], f);
    }
  }

  // ---- pins ----

  function OpPins(r: int): Op -> nat {
    (o: Op) => if o.ref == r then 1 else 0
  }

  function TimingPins(r: int): Timing -> nat {
    (o: Timing) => if o.ref == r then 1 else 0
  }

  function Pins(ops: seq<Op>, open: seq<Timing>, r: int): nat {
    Sum(ops, OpPins(r)) + Sum(open, TimingPins(r))
  }

  /** A reference's pending count is the number of queued operations and timings in progress that pin it. */
  predicate PinsOk(refs: seq<Ref>, ops: seq<Op>, open: seq<Timing>) {
    forall r :: 0 <= r < |refs| ==> refs[r].pending == Pins(ops, open, r)
  }

  /** A reference is live exactly while it is pinned or current. */
  predicate LiveOk(refs: seq<Ref>, cur: int) {
    -1 <= cur < |refs| && forall r :: 0 <= r < |refs| ==> (refs[r].live <==> refs[r].pending > 0 || r == cur)
  }

  predicate TimingOk(o: Timing) {
    && -1 <= o.ref < REFS
    && (o.mode == Async ==> o.s.Some? && o.e.Some? && o.ref >= 0)
    && (o.mode == SyncMode ==> o.s.Some? && o.e.Some? && o.ref == -1)
    && (o.mode == Deferred ==> o.s.None? && o.e.None? && o.ref == -1)
  }

  predicate RangesOk(ops: seq<Op>, open: seq<Timing>) {
    (forall i :: 0 <= i < |ops| ==> -1 <= ops[i].ref < REFS) && (forall i :: 0 <= i < |open| ==> TimingOk(open[i]))
  }

  // ---- events ----

  function Is(ev: nat, x: nat): nat {
    if ev == x then 1 else 0
  }

  function IsSome(ev: Option<nat>, x: nat): nat {
    if ev == Some(x) then 1 else 0
  }

  function RefHolds(x: nat): Ref -> nat {
    (r: Ref) => if r.live then Is(r.ev, x) else 0
  }

  function OpHolds(x: nat): Op -> nat {
    (o: Op) => Is(o.s, x) + Is(o.e, x)
  }

  function TimingHolds(x: nat): Timing -> nat {
    (o: Timing) => IsSome(o.s, x) + IsSome(o.e, x)
  }

  /** How often an event is owned. */
  function Owners(refs: seq<Ref>, ops: seq<Op>, open: seq<Timing>, x: nat): nat {
    Sum(refs, RefHolds(x)) + Sum(ops, OpHolds(x)) + Sum(open, TimingHolds(x))
  }

  /** Every event in existence has exactly one owner: nothing leaks and nothing can be destroyed twice. */
  ghost predicate OwnedOnce(alive: set<nat>, refs: seq<Ref>, ops: seq<Op>, open: seq<Timing>) {
    forall x :: Owners(refs, ops, open, x) == if x in alive then 1 else 0
  }

  // ---- the whole state ----

  ghost predicate StateOk(alive: set<nat>, refs: seq<Ref>, cur: int, ops: seq<Op>, open: seq<Timing>) {
    |refs| == REFS && |ops| <= CAP && RangesOk(ops, open) && PinsOk(refs, ops, open) && LiveOk(refs, cur)
      && OwnedOnce(alive, refs, ops, open)
  }

  /** The state with one pin of reference r to be given back: its holder is gone, its count is not yet lowered. */
  ghost predicate Releasing(alive: set<nat>, refs: seq<Ref>, cur: int, ops: seq<Op>, open: seq<Timing>, r: int) {
    && |refs| == REFS && |ops| <= CAP && RangesOk(ops, open) && LiveOk(refs, cur) && OwnedOnce(alive, refs, ops, open)
    && -1 <= r < REFS
    && forall q :: 0 <= q < |refs| ==> refs[q].pending == Pins(ops, open, q) + if q == r then 1 else 0
  }

  // ---- what each step keeps ----

  /** ref_release: the count goes down; an unpinned reference that is not current is to be destroyed. */
  function Lowered(refs: seq<Ref>, r: nat): seq<Ref>
    requires r < |refs|
  {
    refs[r := refs[r].(pending := refs[r].pending - 1)]
  }

  predicate Idle(refs: seq<Ref>, cur: int, r: nat)
    requires r < |refs|
  {
    refs[r].pending == 0 && r != cur && refs[r].live
  }

  function Retired(refs: seq<Ref>, r: nat): seq<Ref>
    requires r < |refs|
  {
    refs[r := refs[r].(live := false)]
  }

  lemma HeldExists(alive: set<nat>, refs: seq<Ref>, ops: seq<Op>, open: seq<Timing>, r: nat)
    requires OwnedOnce(alive, refs, ops, open) && r < |refs| && refs[r].live
    ensures refs[r].ev in alive
  {
    var x := refs[r].ev;
    SumWithout(refs, r, RefHolds(x));
    assert Owners(refs, ops, open, x) >= 1;
  }

  /** Destroying the event of a reference takes it out of the account. */
  lemma RetireKeepsOwners(alive: set<nat>, refs: seq<Ref>, ops: seq<Op>, open: seq<Timing>, r: nat)
    requires OwnedOnce(alive, refs, ops, open) && r < |refs| && refs[r].live
    ensures OwnedOnce(alive - {refs[r].ev}, Retired(refs, r), ops, open)
  {
    forall x ensures Owners(Retired(refs, r), ops, open, x) == if x in alive - {refs[r].ev} then 1 else 0 {
      SumUpdate(refs, r, refs[r].(live := false), RefHolds(x));
      assert Owners(refs, ops, open, x) == if x in alive then 1 else 0;
    }
  }

  lemma LowerKeepsOwners(alive: set<nat>, refs: seq<Ref>, ops: seq<Op>, open: seq<Timing>, r: nat)
    requires OwnedOnce(alive, refs, ops, open) && r < |refs|
    ensures OwnedOnce(alive, Lowered(refs, r), ops, open)
  {
    forall x ensures Owners(Lowered(refs, r), ops, open, x) == if x in alive then 1 else 0 {
      SumUpdate(refs, r, Lowered(refs, r)[r], RefHolds(x));
      assert Owners(refs, ops, open, x) == if x in alive then 1 else 0;
    }
  }

  /** Giving a pin back restores the invariant. */
  lemma ReleaseKeeps(alive: set<nat>, refs: seq<Ref>, cur: int, ops: seq<Op>, open: seq<Timing>, r: nat)
    requires Releasing(alive, refs, cur, ops, open, r) && r < REFS
    ensures var low := Lowered(refs, r);
      if Idle(low, cur, r) then StateOk(alive - {low[r].ev}, Retired(low, r), cur, ops, open) && low[r].ev in alive
      else StateOk(alive, low, cur, ops, open)
  {
    var low := Lowered(refs, r);
    LowerKeepsOwners(alive, refs, ops, open, r);
    hide OwnedOnce, RangesOk, Pins;
    if Idle(low, cur, r) {
      HeldExists(alive, low, ops, open, r);
      RetireKeepsOwners(alive, low, ops, open, r);
    }
  }

  /** Taking the oldest operation off and destroying its two events leaves its pin to give back. */
  lemma PopKeeps(alive: set<nat>, refs: seq<Ref>, cur: int, ops: seq<Op>, open: seq<Timing>)
    requires StateOk(alive, refs, cur, ops, open) && ops != []
    ensures ops[0].s in alive && ops[0].e in alive - {ops[0].s}
    ensures Releasing(alive - {ops[0].s} - {ops[0].e}, refs, cur, ops[1..], open, ops[0].ref)
  {
    var o := ops[0];
    forall x ensures Owners(refs, ops[1..], open, x) + OpHolds(x)(o) == if x in alive then 1 else 0 {
      SumTail(ops, OpHolds(x));
      assert Owners(refs, ops, open, x) == if x in alive then 1 else 0;
    }
    assert OpHolds(o.s)(o) >= 1 && OpHolds(o.e)(o) >= 1;
    forall r ensures Pins(ops, open, r) == Pins(ops[1..], open, r) + if o.ref == r then 1 else 0 {
      SumTail(ops, OpPins(r));
    }
    hide Owners, Pins, LiveOk;
    assert OwnedOnce(alive - {o.s} - {o.e}, refs, ops[1..], open);
  }

  /** A timing's end: its events are destroyed or handed on, its pin is still to be given back. */
  lemma EndKeeps(alive: set<nat>, refs: seq<Ref>, cur: int, ops: seq<Op>, open: seq<Timing>, k: nat)
    requires StateOk(alive, refs, cur, ops, open) && k < |open| && open[k].s.None? && open[k].e.None?
    ensures Releasing(alive, refs, cur, ops, Without(open, k), open[k].ref)
  {
    forall x ensures Owners(refs, ops, Without(open, k), x) == Owners(refs, ops, open, x) {
      SumWithout(open, k, TimingHolds(x));
    }
    forall r ensures Pins(ops, open, r) == Pins(ops, Without(open, k), r) + if open[k].ref == r then 1 else 0 {
      SumWithout(open, k, TimingPins(r));
    }
    hide Owners, Pins, LiveOk;
  }

  /** A timing in progress changes its mode and events but keeps its pin. */
  lemma ChangeKeeps(alive: set<nat>, alive': set<nat>, refs: seq<Ref>, cur: int, ops: seq<Op>, open: seq<Timing>,
        k: nat, o: Timing)
    requires StateOk(alive, refs, cur, ops, open) && k < |open| && o.ref == open[k].ref && TimingOk(o)
    requires forall x ::
      (if x in alive' then 1 else 0) + TimingHolds(x)(open[k]) == (if x in alive then 1 else 0) + TimingHolds(x)(o)
    ensures StateOk(alive', refs, cur, ops, open[k := o])
  {
    forall x ensures Owners(refs, ops, open[k := o], x) == if x in alive' then 1 else 0 {
      SumUpdate(open, k, o, TimingHolds(x));
      assert Owners(refs, ops, open, x) == if x in alive then 1 else 0;
      assert (if x in alive' then 1 else 0) + TimingHolds(x)(open[k])
        == (if x in alive then 1 else 0) + TimingHolds(x)(o);
    }
    forall r ensures Pins(ops, open[k := o], r) == Pins(ops, open, r) {
      SumUpdate(open, k, o, TimingPins(r));
    }
    hide Owners, Pins, LiveOk;
  }

  /** A timing hands its events and its pin to the queue. */
  lemma PushKeeps(alive: set<nat>, refs: seq<Ref>, cur: int, ops: seq<Op>, open: seq<Timing>, k: nat, o: Op)
    requires StateOk(alive, refs, cur, ops, open) && |ops| < CAP && k < |open|
    requires open[k].s == Some(o.s) && open[k].e == Some(o.e) && open[k].ref == o.ref
    ensures StateOk(alive, refs, cur, ops + [o], Without(open, k))
  {
    forall x ensures Owners(refs, ops + [o], Without(open, k), x) == Owners(refs, ops, open, x) {
      SumSnoc(ops, o, OpHolds(x));
      SumWithout(open, k, TimingHolds(x));
    }
    forall r ensures Pins(ops + [o], Without(open, k), r) == Pins(ops, open, r) {
      SumSnoc(ops, o, OpPins(r));
      SumWithout(open, k, TimingPins(r));
    }
    assert TimingOk(open[k]);
    hide Owners, Pins, LiveOk;
  }

  /** A timing begins with a pin on the current reference, or with none. */
  lemma BeginKeeps(alive: set<nat>, refs: seq<Ref>, cur: int, ops: seq<Op>, open: seq<Timing>, o: Timing)
    requires StateOk(alive, refs, cur, ops, open) && TimingOk(o) && o.s.None? && o.e.None?
    requires o.ref == -1 || o.ref == cur
    ensures var refs' := if o.ref >= 0 then refs[o.ref := refs[o.ref].(pending := refs[o.ref].pending + 1)] else refs;
      StateOk(alive, refs', cur, ops, open + [o])
  {
    var refs' := if o.ref >= 0 then refs[o.ref := refs[o.ref].(pending := refs[o.ref].pending + 1)] else refs;
    forall x ensures Owners(refs', ops, open + [o], x) == Owners(refs, ops, open, x) {
      if o.ref >= 0 { SumUpdate(refs, o.ref, refs'[o.ref], RefHolds(x)); }
      SumSnoc(open, o, TimingHolds(x));
    }
    forall r ensures Pins(ops, open + [o], r) == Pins(ops, open, r) + if o.ref == r then 1 else 0 {
      SumSnoc(open, o, TimingPins(r));
    }
    hide Owners, Pins;
  }

  /** A new reference takes a free slot and becomes current; the old one goes if nothing pins it. */
  lemma RenewKeeps(alive: set<nat>, refs: seq<Ref>, cur: int, ops: seq<Op>, open: seq<Timing>, slot: nat, x: Ref)
    requires StateOk(alive, refs, cur, ops, open) && slot < REFS && !refs[slot].live && x.live && x.pending == 0
    requires x.ev !in alive
    ensures var refs' := refs[slot := x];
      var alive' := alive + {x.ev};
      if cur >= 0 && refs'[cur].pending == 0 && refs'[cur].live
      then StateOk(alive' - {refs'[cur].ev}, Retired(refs', cur), slot, ops, open) && refs'[cur].ev in alive'
      else StateOk(alive', refs', slot, ops, open)
  {
    var refs' := refs[slot := x];
    var alive' := alive + {x.ev};
    forall y ensures Owners(refs', ops, open, y) == if y in alive' then 1 else 0 {
      SumUpdate(refs, slot, x, RefHolds(y));
      assert Owners(refs, ops, open, y) == if y in alive then 1 else 0;
    }
    assert OwnedOnce(alive', refs', ops, open);
    assert refs[slot].pending == 0;
    hide Owners, Pins;
    if cur >= 0 && refs'[cur].pending == 0 && refs'[cur].live {
      HeldExists(alive', refs', ops, open, cur);
      RetireKeepsOwners(alive', refs', ops, open, cur);
    }
  }
}
