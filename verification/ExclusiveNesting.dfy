/** What exclusive time means (src/analysis/activity_buckets.py:178-187), stated on starts, durations, processes and
    threads: the innermost span owns an instant, and a measured span is due its duration less what the spans nested
    deeper on its thread cover of it. */
module ExclusiveNesting {
  import opened ExclusiveOwner
  import opened ExclusiveTime

  predicate Running(s: Span, x: int) {
    s.start <= x < s.start + s.duration
  }

  /** j is nested deeper than k: it starts later, or with it and is shorter, or comes first of two of one extent. */
  predicate Deeper(spans: seq<Span>, j: nat, k: nat)
    requires j < |spans| && k < |spans|
  {
    || spans[j].start > spans[k].start
    || (spans[j].start == spans[k].start
      && (spans[j].duration < spans[k].duration || (spans[j].duration == spans[k].duration && j < k)))
  }

  /** Measured host work of the same process and thread as span k. */
  predicate Beside(spans: seq<Span>, j: nat, k: nat)
    requires j < |spans| && k < |spans|
  {
    && spans[j].duration > 0 && !spans[j].device && !spans[j].annotation && !spans[j].sampled
    && spans[j].pid == spans[k].pid && spans[j].tid == spans[k].tid
  }

  /** An instant belongs to the running span that no other running span is nested deeper than. */
  lemma OwnsMeans(spans: seq<Span>, ids: seq<nat>, k: nat, x: int)
    requires IdsOk(spans, ids)
    ensures Owns(spans, ids, k, x) <==>
      && k in ids && k < |spans| && Running(spans[k], x)
      && forall j: nat :: j in ids && j < |spans| && Running(spans[j], x) ==> !Deeper(spans, j, k)
  {
    if k in ids {
      assert forall j: nat :: j in ids ==> j < |spans|;
      assert forall j: nat :: j in ids && j != k ==> (Inner(spans, k, j) <==> !Deeper(spans, j, k));
    }
  }

  /** The spans among the first n that run beside k and are nested deeper. */
  function NestedIn(spans: seq<Span>, k: nat, n: nat): (ids: seq<nat>)
    requires k < |spans| && n <= |spans|
    ensures IdsOk(spans, ids)
    ensures forall j: nat :: j in ids <==> j < n && Beside(spans, j, k) && Deeper(spans, j, k)
  {
    if n == 0 then []
    else if Beside(spans, n - 1, k) && Deeper(spans, n - 1, k) then NestedIn(spans, k, n - 1) + [n - 1]
    else NestedIn(spans, k, n - 1)
  }

  /** How long some span nested deeper beside k is running while k is. */
  function NestedTime(spans: seq<Span>, k: nat): nat
    requires k < |spans|
  {
    BusyIn(spans, NestedIn(spans, k, |spans|), spans[k].start, spans[k].start + spans[k].duration)
  }

  lemma ThreadIsBeside(spans: seq<Span>, k: nat)
    requires k < |spans|
    ensures forall j: nat :: j in Thread(spans, Key(spans[k])) <==> j < |spans| && Beside(spans, j, k)
  {
    hide IdsOk;
  }

  /** While k runs it owns exactly the instants at which nothing nested deeper runs. */
  lemma OwnsRest(spans: seq<Span>, k: nat, x: int)
    requires k < |spans| && Beside(spans, k, k) && Running(spans[k], x)
    ensures Owns(spans, Thread(spans, Key(spans[k])), k, x) <==> !Busy(spans, NestedIn(spans, k, |spans|), x)
  {
    var ids, nested := Thread(spans, Key(spans[k])), NestedIn(spans, k, |spans|);
    ThreadIsBeside(spans, k);
    OwnsMeans(spans, ids, k, x);
    hide *;
    NestedBusy(spans, k, x);
  }

  lemma NestedBusy(spans: seq<Span>, k: nat, x: int)
    requires k < |spans|
    ensures Busy(spans, NestedIn(spans, k, |spans|), x) <==>
      exists j: nat :: j < |spans| && Beside(spans, j, k) && Deeper(spans, j, k) && Running(spans[j], x)
  {
    hide Beside, Deeper, NestedIn, IdsOk;
    var nested := NestedIn(spans, k, |spans|);
    if j: nat :| j < |spans| && Beside(spans, j, k) && Deeper(spans, j, k) && Running(spans[j], x) {
      assert j in nested && Covers(spans[j], x);
    }
  }

  lemma {:induction false} RestTo(spans: seq<Span>, k: nat, hi: int)
    requires k < |spans| && Beside(spans, k, k) && spans[k].start <= hi <= spans[k].start + spans[k].duration
    ensures OwnedIn(spans, Thread(spans, Key(spans[k])), k, spans[k].start, hi)
          + BusyIn(spans, NestedIn(spans, k, |spans|), spans[k].start, hi) == hi - spans[k].start
    decreases hi - spans[k].start
  {
    hide Beside, Owns, Busy, IdsOk, NestedIn, Thread;
    if spans[k].start < hi {
      RestTo(spans, k, hi - 1);
      OwnsRest(spans, k, hi - 1);
    }
  }

  /** A measured span is due its duration less the time that spans nested deeper on its thread run meanwhile; a sample
      is due its duration unless a measured span of its thread runs at its start; nothing else is due anything. */
  lemma DueMeans(spans: seq<Span>, i: nat, lo: int, hi: int)
    requires i < |spans| && Within(spans, lo, hi)
    ensures Due(spans, i, lo, hi) ==
      if spans[i].duration <= 0 || spans[i].device || spans[i].annotation then 0
      else if !spans[i].sampled then spans[i].duration - NestedTime(spans, i)
      else if exists j: nat :: j < |spans| && Beside(spans, j, i) && Running(spans[j], spans[i].start) then 0
      else spans[i].duration
  {
    var s := spans[i];
    if s.duration > 0 && !s.device && !s.annotation {
      if s.sampled {
        ThreadBusy(spans, i, s.start);
        hide Thread, IdsOk, Beside, Running;
      } else {
        hide *;
        Measured(spans, i, lo, hi);
      }
    }
  }

  lemma Measured(spans: seq<Span>, i: nat, lo: int, hi: int)
    requires i < |spans| && Within(spans, lo, hi) && Beside(spans, i, i)
    ensures Due(spans, i, lo, hi) == spans[i].duration - NestedTime(spans, i)
  {
    hide *;
    DueOfMeasured(spans, i, lo, hi);
    OutsideNothing(spans, i, lo, hi);
    RestTo(spans, i, spans[i].start + spans[i].duration);
    NestedTimeIs(spans, i);
  }

  lemma DueOfMeasured(spans: seq<Span>, i: nat, lo: int, hi: int)
    requires i < |spans| && Within(spans, lo, hi) && Beside(spans, i, i)
    ensures spans[i].duration > 0 && lo <= spans[i].start && spans[i].start + spans[i].duration <= hi
    ensures IdsOk(spans, Thread(spans, Key(spans[i])))
    ensures Due(spans, i, lo, hi) == OwnedIn(spans, Thread(spans, Key(spans[i])), i, lo, hi)
  {
    hide OwnedIn, Thread, Members, IdsOk;
  }

  lemma NestedTimeIs(spans: seq<Span>, k: nat)
    requires k < |spans|
    ensures IdsOk(spans, NestedIn(spans, k, |spans|))
    ensures NestedTime(spans, k)
      == BusyIn(spans, NestedIn(spans, k, |spans|), spans[k].start, spans[k].start + spans[k].duration)
  {
    hide BusyIn, NestedIn, IdsOk;
  }

  lemma ThreadBusy(spans: seq<Span>, k: nat, x: int)
    requires k < |spans|
    ensures Busy(spans, Thread(spans, Key(spans[k])), x) <==>
      exists j: nat :: j < |spans| && Beside(spans, j, k) && Running(spans[j], x)
  {
    ThreadIsBeside(spans, k);
    hide Beside, Thread, IdsOk;
    if j: nat :| j < |spans| && Beside(spans, j, k) && Running(spans[j], x) {
      assert j in Thread(spans, Key(spans[k])) && Covers(spans[j], x);
    }
  }

  lemma OutsideNothing(spans: seq<Span>, k: nat, lo: int, hi: int)
    requires k < |spans| && spans[k].duration > 0 && lo <= spans[k].start && spans[k].start + spans[k].duration <= hi
    ensures var ids := Thread(spans, Key(spans[k]));
      OwnedIn(spans, ids, k, lo, hi) == OwnedIn(spans, ids, k, spans[k].start, spans[k].start + spans[k].duration)
  {
    var ids := Thread(spans, Key(spans[k]));
    var a, b := spans[k].start, spans[k].start + spans[k].duration;
    OwnedSplits(spans, ids, k, lo, a, hi);
    OwnedSplits(spans, ids, k, a, b, hi);
    OwnedUniform(spans, ids, k, lo, a, false);
    OwnedUniform(spans, ids, k, b, hi, false);
  }
}
