/** The lock-free single-producer / single-consumer protocol of rb_bytes_t in
    hooks/common/ringbuffer.h, with every push and pop split into loading the other side's index,
    copying bytes one at a time in any order, and publishing the own index. An index loaded from the
    other side may be arbitrarily old, but a side never sees the other's index go backwards. */
module RingProtocol {
  import opened RingLayout

  /** view: the consumer position last seen; done: the bytes of the frame copied so far. */
  datatype Producer = Waiting(view: nat) | Copying(view: nat, rec: seq<byte>, done: set<nat>)

  /** view: the producer position last seen; prefix and got: the bytes copied out so far. */
  datatype Consumer =
    | Resting(view: nat)
    | Peeking(view: nat, prefix: map<nat, byte>)
    | Reading(view: nat, len: nat, got: map<nat, byte>)

  datatype State = State(buf: seq<byte>, head: nat, tail: nat, p: Producer, c: Consumer)

  datatype Action =
    | LoadHead(rec: seq<byte>, seen: nat)   // rb_bytes_push: load the indices, check the space
    | PutByte(k: nat)                       // _rb_bytes_in: one byte of the frame
    | PublishTail                           // the release store of tail
    | LoadTail(seenTail: nat)               // rb_bytes_peek_len: load the indices
    | GetLengthByte(i: nat)                 // _rb_bytes_out: one byte of the length
    | GotLength                             // the length is known
    | GetByte(j: nat)                       // _rb_bytes_out: one byte of the record
    | PublishHead                           // rb_bytes_pop: the release store of head

  /** What a step lets the outside see. */
  datatype Event = Quiet | Pushed(rec: seq<byte>) | Refused(rec: seq<byte>) | Popped(data: seq<byte>)

  ghost predicate Init(s: State) {
    |s.buf| > 0 && s.head == 0 && s.tail == 0 && s.p == Waiting(0) && s.c == Resting(0)
  }

  ghost function Assembled(got: map<nat, byte>, n: nat): (r: seq<byte>)
    requires forall k :: 0 <= k < n ==> k in got
    ensures |r| == n && forall k :: 0 <= k < n ==> r[k] == got[k]
  {
    seq(n, k requires 0 <= k < n => got[k])
  }

  ghost predicate Full(got: map<nat, byte>, n: nat) {
    forall k :: 0 <= k < n ==> k in got
  }

  ghost predicate ProducerStep(s: State, a: Action, ev: Event, s': State)
    requires |s.buf| > 0
  {
    match a
    case LoadHead(rec, seen) =>
      && s.p.Waiting? && IsRecord(rec) && s.p.view <= seen <= s.head
      && (if |s.buf| - (s.tail - seen) < 4 + |rec|
          then ev == Refused(rec) && s' == s.(p := Waiting(seen))
          else ev == Quiet && s' == s.(p := Copying(seen, rec, {})))
    case PutByte(k) =>
      && s.p.Copying? && IsRecord(s.p.rec) && k < 4 + |s.p.rec| && k !in s.p.done && ev == Quiet
      && s' == s.(buf := s.buf[(s.tail + k) % |s.buf| := Frame(s.p.rec)[k]], p := s.p.(done := s.p.done + {k}))
    case PublishTail =>
      && s.p.Copying? && (forall k :: 0 <= k < 4 + |s.p.rec| ==> k in s.p.done) && ev == Pushed(s.p.rec)
      && s' == s.(tail := s.tail + 4 + |s.p.rec|, p := Waiting(s.p.view))
    case _ => false
  }

  ghost predicate ConsumerStep(s: State, a: Action, ev: Event, s': State)
    requires |s.buf| > 0
  {
    match a
    case LoadTail(seen) =>
      && s.c.Resting? && s.c.view <= seen <= s.tail && ev == Quiet
      && s' == s.(c := if s.head >= seen then Resting(seen) else Peeking(seen, map[]))
    case GetLengthByte(k) =>
      && s.c.Peeking? && k < 4 && ev == Quiet
      && s' == s.(c := Peeking(s.c.view, s.c.prefix[k := At(s.buf, s.head + k)]))
    case GotLength =>
      && s.c.Peeking? && Full(s.c.prefix, 4) && ev == Quiet
      && s' == s.(c := Reading(s.c.view, DecodeLength(Assembled(s.c.prefix, 4)), map[]))
    case GetByte(k) =>
      && s.c.Reading? && k < s.c.len && ev == Quiet
      && s' == s.(c := Reading(s.c.view, s.c.len, s.c.got[k := At(s.buf, s.head + 4 + k)]))
    case PublishHead =>
      && s.c.Reading? && Full(s.c.got, s.c.len) && ev == Popped(Assembled(s.c.got, s.c.len))
      && s' == s.(head := s.head + 4 + s.c.len, c := Resting(s.c.view))
    case _ => false
  }

  ghost predicate Step(s: State, a: Action, ev: Event, s': State) {
    |s.buf| > 0 && (ProducerStep(s, a, ev, s') || ConsumerStep(s, a, ev, s'))
  }

  // ---- the invariant: the concrete ring holds the queue q ----

  ghost predicate RingHolds(s: State, q: seq<seq<byte>>) {
    && |s.buf| > 0 && AllRecords(q)
    && s.tail == s.head + |Frames(q)| && s.tail <= s.head + |s.buf|
    && Window(s.buf, s.head, |Frames(q)|) == Frames(q)
  }

  ghost predicate ProducerOk(s: State)
    requires |s.buf| > 0
  {
    && s.p.view <= s.head && s.tail - s.p.view <= |s.buf|
    && (s.p.Copying? ==>
          && IsRecord(s.p.rec) && s.tail + 4 + |s.p.rec| - s.p.view <= |s.buf|
          && (forall k :: k in s.p.done ==> k < 4 + |s.p.rec| && At(s.buf, s.tail + k) == Frame(s.p.rec)[k]))
  }

  ghost predicate ConsumerOk(s: State, q: seq<seq<byte>>)
    requires |s.buf| > 0
  {
    && s.c.view <= s.tail
    && (s.c.Peeking? ==>
      q != [] && forall k :: k in s.c.prefix ==> k < 4 && IsRecord(q[0]) && s.c.prefix[k] == EncodeLength(|q[0]|)[k])
    && (s.c.Reading? ==>
      q != [] && s.c.len == |q[0]| && forall k :: k in s.c.got ==> k < |q[0]| && s.c.got[k] == q[0][k])
  }

  ghost predicate Inv(s: State, q: seq<seq<byte>>) {
    RingHolds(s, q) && ProducerOk(s) && ConsumerOk(s, q)
  }

  /** The queue of records after an event. */
  ghost function After(q: seq<seq<byte>>, ev: Event): seq<seq<byte>> {
    match ev
    case Pushed(r) => q + [r]
    case Popped(_) => if q == [] then [] else q[1..]
    case _ => q
  }

  /** A pop must hand out the oldest record. */
  ghost predicate FifoEvent(q: seq<seq<byte>>, ev: Event) {
    ev.Popped? ==> q != [] && ev.data == q[0]
  }

  /** The bytes a push writes and the bytes any pop may read never share a place in the buffer. */
  lemma CopiesDisjoint(s: State, q: seq<seq<byte>>, k: nat, j: nat)
    requires Inv(s, q) && s.p.Copying? && k < 4 + |s.p.rec| && s.head <= j < s.tail
    ensures (s.tail + k) % |s.buf| != j % |s.buf|
  {
    ModDistinct(|s.buf|, j, s.tail + k);
  }

  lemma PutByteKeeps(s: State, q: seq<seq<byte>>, k: nat, s': State)
    requires Inv(s, q) && ProducerStep(s, PutByte(k), Quiet, s')
    ensures Inv(s', q)
  {
    hide Frame, Window, At;
    var p, x := s.tail + k, Frame(s.p.rec)[k];
    WindowUntouched(s.buf, s.head, |Frames(q)|, p, x);
    forall m | m in s'.p.done ensures At(s'.buf, s.tail + m) == Frame(s.p.rec)[m] {
      if m < k {
        AtUntouched(s.buf, s.tail + m, p, x);
      } else if m > k {
        AtUntouchedAbove(s.buf, p, s.tail + m, x);
      } else {
        AtWritten(s.buf, p, x);
      }
    }
  }

  lemma PublishTailKeeps(s: State, q: seq<seq<byte>>, s': State)
    requires Inv(s, q) && s.p.Copying? && ProducerStep(s, PublishTail, Pushed(s.p.rec), s')
    ensures Inv(s', q + [s.p.rec])
  {
    var r, n := s.p.rec, |Frames(q)|;
    FramesSnoc(q, r);
    WindowSplit(s.buf, s.head, n, n + 4 + |r|);
    assert Window(s.buf, s.tail, 4 + |r|) == Frame(r);
    assert (q + [r])[0] == if q == [] then r else q[0];
  }

  lemma GetLengthByteKeeps(s: State, q: seq<seq<byte>>, k: nat, s': State)
    requires Inv(s, q) && ConsumerStep(s, GetLengthByte(k), Quiet, s')
    ensures Inv(s', q)
  {
    hide Frames, Frame, EncodeLength, Window, At;
    WindowHead(s.buf, s.head, q);
    assert Window(s.buf, s.head, 4)[k] == At(s.buf, s.head + k);
  }

  lemma GotLengthKeeps(s: State, q: seq<seq<byte>>, s': State)
    requires Inv(s, q) && ConsumerStep(s, GotLength, Quiet, s')
    ensures Inv(s', q)
  {
    assert Assembled(s.c.prefix, 4) == EncodeLength(|q[0]|);
    LengthRoundTrip(|q[0]|);
  }

  lemma GetByteKeeps(s: State, q: seq<seq<byte>>, k: nat, s': State)
    requires Inv(s, q) && ConsumerStep(s, GetByte(k), Quiet, s')
    ensures Inv(s', q)
  {
    WindowHead(s.buf, s.head, q);
    assert Window(s.buf, s.head + 4, |q[0]|)[k] == At(s.buf, s.head + 4 + k);
  }

  lemma PublishHeadKeeps(s: State, q: seq<seq<byte>>, ev: Event, s': State)
    requires Inv(s, q) && ConsumerStep(s, PublishHead, ev, s')
    ensures q != [] && ev == Popped(q[0]) && Inv(s', q[1..])
  {
    WindowHead(s.buf, s.head, q);
    assert Assembled(s.c.got, s.c.len) == q[0];
    assert Frames(q) == Frame(q[0]) + Frames(q[1..]);
  }

  lemma LoadTailKeeps(s: State, q: seq<seq<byte>>, seen: nat, s': State)
    requires Inv(s, q) && ConsumerStep(s, LoadTail(seen), Quiet, s')
    ensures Inv(s', q)
  {
    FramesEmpty(q);
  }

  /** Every step of either side refines one step, or none, of a FIFO queue of records. */
  lemma StepRefines(s: State, q: seq<seq<byte>>, a: Action, ev: Event, s': State)
    requires Inv(s, q) && Step(s, a, ev, s')
    ensures FifoEvent(q, ev) && Inv(s', After(q, ev))
  {
    match a {
      case LoadHead(_, _) =>
      case PutByte(k) => PutByteKeeps(s, q, k, s');
      case PublishTail => PublishTailKeeps(s, q, s');
      case LoadTail(seen) => LoadTailKeeps(s, q, seen, s');
      case GetLengthByte(k) => GetLengthByteKeeps(s, q, k, s');
      case GotLength => GotLengthKeeps(s, q, s');
      case GetByte(k) => GetByteKeeps(s, q, k, s');
      case PublishHead => PublishHeadKeeps(s, q, ev, s');
    }
  }

  // ---- whole runs ----

  datatype Run = Start(s: State) | Then(before: Run, a: Action, ev: Event, s: State)

  ghost predicate IsRun(run: Run) {
    match run
    case Start(s) => Init(s)
    case Then(before, a, ev, s) => IsRun(before) && Step(before.s, a, ev, s)
  }

  /** The records pushed in a run, and those popped. */
  ghost function PushedIn(run: Run): seq<seq<byte>> {
    match run
    case Start(_) => []
    case Then(before, _, ev, _) => PushedIn(before) + (if ev.Pushed? then [ev.rec] else [])
  }

  ghost function PoppedIn(run: Run): seq<seq<byte>> {
    match run
    case Start(_) => []
    case Then(before, _, ev, _) => PoppedIn(before) + (if ev.Popped? then [ev.data] else [])
  }

  /** In every run, whatever the interleaving and however old the views: the records popped are, byte for
      byte and in order, the oldest pushed ones, the ring holds exactly the others, and never overflows. */
  lemma {:induction false} RunIsFifo(run: Run) returns (q: seq<seq<byte>>)
    requires IsRun(run)
    ensures PushedIn(run) == PoppedIn(run) + q && Inv(run.s, q)
    ensures run.s.head <= run.s.tail <= run.s.head + |run.s.buf|
  {
    match run {
      case Start(s) =>
        q := [];
      case Then(before, a, ev, s) =>
        var q0 := RunIsFifo(before);
        StepRefines(before.s, q0, a, ev, s);
        q := After(q0, ev);
        hide Step;
        LogsStep(before, a, ev, s, q0);
        HeadTail(s, q);
    }
  }

  lemma HeadTail(s: State, q: seq<seq<byte>>)
    requires Inv(s, q)
    ensures s.head <= s.tail <= s.head + |s.buf|
  {
  }

  lemma LogsStep(before: Run, a: Action, ev: Event, s: State, q: seq<seq<byte>>)
    requires PushedIn(before) == PoppedIn(before) + q && FifoEvent(q, ev)
    ensures PushedIn(Then(before, a, ev, s)) == PoppedIn(Then(before, a, ev, s)) + After(q, ev)
  {
    if ev.Popped? { assert q == [q[0]] + After(q, ev); }
  }
}
