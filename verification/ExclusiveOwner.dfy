/** Which span owns an instant of its thread, and how long a span owns its thread
    (src/analysis/activity_buckets.py). Times are integer nanoseconds; the classification of a span by name,
    tags and category is an input. */
module ExclusiveOwner {

  datatype Span = Span(pid: int, tid: int, start: int, duration: int, device: bool, annotation: bool, sampled: bool)

  function End(s: Span): int {
    s.start + s.duration
  }

  function Key(s: Span): (int, int) {
    (s.pid, s.tid)
  }

  /** Host work: neither device-timed, nor an annotation, nor empty. */
  predicate Host(s: Span) {
    s.duration > 0 && !s.device && !s.annotation
  }

  predicate Covers(s: Span, x: int) {
    s.start <= x < End(s)
  }

  /** Positions of some measured spans, each once. */
  predicate IdsOk(spans: seq<Span>, ids: seq<nat>) {
    && (forall a :: 0 <= a < |ids| ==> ids[a] < |spans| && spans[ids[a]].duration > 0)
    && (forall a, b :: 0 <= a < b < |ids| ==> ids[a] != ids[b])
  }

  /** i is nested at least as deep as j: it starts later, or ends earlier, or comes first in the list. */
  predicate Inner(spans: seq<Span>, i: nat, j: nat)
    requires i < |spans| && j < |spans|
  {
    || spans[i].start > spans[j].start
    || (spans[i].start == spans[j].start
      && (End(spans[i]) < End(spans[j]) || (End(spans[i]) == End(spans[j]) && i < j)))
  }

  /** Of all spans covering the instant, k is the innermost. */
  predicate Owns(spans: seq<Span>, ids: seq<nat>, k: nat, x: int)
    requires IdsOk(spans, ids)
  {
    k in ids && Covers(spans[k], x) && forall j :: j in ids && j != k && Covers(spans[j], x) ==> Inner(spans, k, j)
  }

  predicate Busy(spans: seq<Span>, ids: seq<nat>, x: int)
    requires IdsOk(spans, ids)
  {
    exists j :: j in ids && Covers(spans[j], x)
  }

  /** How many instants of [lo, hi) k owns. */
  function OwnedIn(spans: seq<Span>, ids: seq<nat>, k: nat, lo: int, hi: int): nat
    requires IdsOk(spans, ids)
    decreases hi - lo
  {
    if hi <= lo then 0 else OwnedIn(spans, ids, k, lo, hi - 1) + if Owns(spans, ids, k, hi - 1) then 1 else 0
  }

  /** How many instants of [lo, hi) some span covers: the length of the union of the spans there. */
  function BusyIn(spans: seq<Span>, ids: seq<nat>, lo: int, hi: int): nat
    requires IdsOk(spans, ids)
    decreases hi - lo
  {
    if hi <= lo then 0 else BusyIn(spans, ids, lo, hi - 1) + if Busy(spans, ids, hi - 1) then 1 else 0
  }

  // ---- measures ----

  lemma {:induction false} OwnedSplits(spans: seq<Span>, ids: seq<nat>, k: nat, lo: int, mid: int, hi: int)
    requires IdsOk(spans, ids) && lo <= mid <= hi
    ensures OwnedIn(spans, ids, k, lo, hi) == OwnedIn(spans, ids, k, lo, mid) + OwnedIn(spans, ids, k, mid, hi)
    decreases hi - mid
  {
    if mid < hi { OwnedSplits(spans, ids, k, lo, mid, hi - 1); }
  }

  lemma {:induction false} OwnedUniform(spans: seq<Span>, ids: seq<nat>, k: nat, lo: int, hi: int, all: bool)
    requires IdsOk(spans, ids) && lo <= hi
    requires forall x :: lo <= x < hi ==> Owns(spans, ids, k, x) == all
    ensures OwnedIn(spans, ids, k, lo, hi) == if all then hi - lo else 0
    decreases hi - lo
  {
    if lo < hi { OwnedUniform(spans, ids, k, lo, hi - 1, all); }
  }

  lemma InnerTotal(spans: seq<Span>, i: nat, j: nat)
    requires i < |spans| && j < |spans| && i != j
    ensures Inner(spans, i, j) != Inner(spans, j, i)
  {
  }

  lemma InnerTransitive(spans: seq<Span>, i: nat, j: nat, k: nat)
    requires i < |spans| && j < |spans| && k < |spans| && Inner(spans, i, j) && Inner(spans, j, k)
    ensures Inner(spans, i, k)
  {
  }

  // ---- one owner ----

  /** At most one span owns an instant. */
  lemma OneOwner(spans: seq<Span>, ids: seq<nat>, x: int, k: nat, l: nat)
    requires IdsOk(spans, ids) && Owns(spans, ids, k, x) && Owns(spans, ids, l, x)
    ensures k == l
  {
    if k != l { InnerTotal(spans, k, l); }
  }

  /** Some span owns every covered instant. */
  lemma {:induction false} SomeOwner(spans: seq<Span>, ids: seq<nat>, x: int) returns (k: nat)
    requires IdsOk(spans, ids) && Busy(spans, ids, x)
    ensures Owns(spans, ids, k, x)
  {
    var n := |ids| - 1;
    var rest, last := ids[..n], ids[n];
    assert forall j :: j in ids && j != last ==> j in rest;
    if Busy(spans, rest, x) {
      var l := SomeOwner(spans, rest, x);
      k := if Covers(spans[last], x) && Inner(spans, last, l) then last else l;
      if last != l { InnerTotal(spans, last, l); }
      forall j | j in ids && j != k && Covers(spans[j], x) ensures Inner(spans, k, j) {
        if j != last {
          assert j in rest;
          if k == last && j != l { InnerTransitive(spans, k, l, j); }
        }
      }
    } else {
      k := last;
    }
  }

  /** The time the first n of the given spans own together. */
  function OwnedByAll(spans: seq<Span>, ids: seq<nat>, n: nat, lo: int, hi: int): nat
    requires IdsOk(spans, ids) && n <= |ids|
  {
    if n == 0 then 0 else OwnedByAll(spans, ids, n - 1, lo, hi) + OwnedIn(spans, ids, ids[n-1], lo, hi)
  }

  /** One instant more is owned by exactly one of the spans when it is covered, by none when it is not. */
  lemma {:induction false} OwnedByAllStep(spans: seq<Span>, ids: seq<nat>, n: nat, lo: int, hi: int)
    requires IdsOk(spans, ids) && n <= |ids| && lo < hi
    ensures OwnedByAll(spans, ids, n, lo, hi)
         == OwnedByAll(spans, ids, n, lo, hi - 1)
           + if exists a :: 0 <= a < n && Owns(spans, ids, ids[a], hi - 1) then 1 else 0
  {
    if n > 0 {
      OwnedByAllStep(spans, ids, n - 1, lo, hi);
      assert (exists a :: 0 <= a < n && Owns(spans, ids, ids[a], hi - 1))
        <==> Owns(spans, ids, ids[n-1], hi - 1) || exists a :: 0 <= a < n - 1 && Owns(spans, ids, ids[a], hi - 1);
      if a :| 0 <= a < n - 1 && Owns(spans, ids, ids[a], hi - 1) {
        if Owns(spans, ids, ids[n-1], hi - 1) { OneOwner(spans, ids, hi - 1, ids[a], ids[n-1]); }
      }
    }
  }

  /** The spans of a thread together own exactly the union of their extents. */
  lemma {:induction false} OwnedIsUnion(spans: seq<Span>, ids: seq<nat>, lo: int, hi: int)
    requires IdsOk(spans, ids)
    ensures OwnedByAll(spans, ids, |ids|, lo, hi) == BusyIn(spans, ids, lo, hi)
    decreases hi - lo
  {
    if hi <= lo {
      OwnedNothing(spans, ids, |ids|, lo, hi);
    } else {
      OwnedIsUnion(spans, ids, lo, hi - 1);
      OwnedByAllStep(spans, ids, |ids|, lo, hi);
      if Busy(spans, ids, hi - 1) {
        var k := SomeOwner(spans, ids, hi - 1);
        var a :| 0 <= a < |ids| && ids[a] == k;
      }
    }
  }

  lemma {:induction false} OwnedNothing(spans: seq<Span>, ids: seq<nat>, n: nat, lo: int, hi: int)
    requires IdsOk(spans, ids) && n <= |ids| && hi <= lo
    ensures OwnedByAll(spans, ids, n, lo, hi) == 0
  {
    if n > 0 { OwnedNothing(spans, ids, n - 1, lo, hi); }
  }

  /** A thread never owns more than its wall time. */
  lemma {:induction false} BusyAtMostWall(spans: seq<Span>, ids: seq<nat>, lo: int, hi: int)
    requires IdsOk(spans, ids) && lo <= hi
    ensures BusyIn(spans, ids, lo, hi) <= hi - lo
    decreases hi - lo
  {
    if lo < hi { BusyAtMostWall(spans, ids, lo, hi - 1); }
  }
}
