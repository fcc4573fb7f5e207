/** What is attributed to a whole thread, samples included: measured spans alone share out the union of their extents,
    and samples come on top of it. */
module ExclusiveThread {
  import opened ExclusiveOwner
  import opened ExclusiveSweep
  import opened ExclusiveTime

  /** The positions below n of the host spans of one thread, measured and sampled, in list order. */
  function HostSpans(spans: seq<Span>, n: nat, key: (int, int)): (ids: seq<nat>)
    requires n <= |spans|
    ensures forall j: nat :: j in ids <==> j < n && Host(spans[j]) && Key(spans[j]) == key
    ensures IdsOk(spans, ids)
  {
    if n == 0 then []
    else if Host(spans[n-1]) && Key(spans[n-1]) == key then HostSpans(spans, n - 1, key) + [n - 1]
    else HostSpans(spans, n - 1, key)
  }

  function AllHost(spans: seq<Span>, key: (int, int)): (ids: seq<nat>)
    ensures IdsOk(spans, ids)
  {
    HostSpans(spans, |spans|, key)
  }

  /** A sample of the thread whose start no measured span of the thread covers. */
  predicate Stray(spans: seq<Span>, key: (int, int), i: nat) {
    && i < |spans| && Host(spans[i]) && spans[i].sampled && Key(spans[i]) == key
    && !Busy(spans, Thread(spans, key), spans[i].start)
  }

  /** The nominal weight of the stray samples below n. */
  function StrayWeight(spans: seq<Span>, key: (int, int), n: nat): nat
    requires n <= |spans|
  {
    if n == 0 then 0
    else StrayWeight(spans, key, n - 1) + if Stray(spans, key, n - 1) then spans[n-1].duration else 0
  }

  lemma {:induction false} StrayWeightZero(spans: seq<Span>, key: (int, int), n: nat)
    requires n <= |spans|
    ensures StrayWeight(spans, key, n) == 0 <==> forall i: nat :: i < n ==> !Stray(spans, key, i)
  {
    hide Busy, Thread;
    if n > 0 {
      StrayWeightZero(spans, key, n - 1);
      assert Stray(spans, key, n - 1) ==> spans[n-1].duration > 0;
      hide Stray;
    }
  }

  /** How many instants of [lo, hi) a sample of the thread covers and no measured span does. */
  function SampleOnly(spans: seq<Span>, key: (int, int), lo: int, hi: int): nat
    decreases hi - lo
  {
    if hi <= lo then 0
    else
      SampleOnly(spans, key, lo, hi - 1)
      + if Busy(spans, AllHost(spans, key), hi - 1) && !Busy(spans, Thread(spans, key), hi - 1) then 1 else 0
  }

  lemma MeasuredIsHost(spans: seq<Span>, key: (int, int), x: int)
    requires Busy(spans, Thread(spans, key), x)
    ensures Busy(spans, AllHost(spans, key), x)
  {
    var j :| j in Thread(spans, key) && Covers(spans[j], x);
    assert j in AllHost(spans, key);
  }

  lemma {:induction false} UnionSplits(spans: seq<Span>, key: (int, int), lo: int, hi: int)
    ensures BusyIn(spans, AllHost(spans, key), lo, hi)
         == BusyIn(spans, Thread(spans, key), lo, hi) + SampleOnly(spans, key, lo, hi)
    decreases hi - lo
  {
    if lo < hi {
      UnionSplits(spans, key, lo, hi - 1);
      if Busy(spans, Thread(spans, key), hi - 1) { MeasuredIsHost(spans, key, hi - 1); }
      hide Busy, AllHost, Thread;
    }
  }

  lemma {:induction false} SumOwnedPrefix(owned: map<nat, int>, ids: seq<nat>, last: nat, n: nat)
    requires n <= |ids|
    ensures SumOwned(owned, ids + [last], n) == SumOwned(owned, ids, n)
  {
    if n > 0 { SumOwnedPrefix(owned, ids, last, n - 1); }
  }

  function Sum(owned: map<nat, int>, ids: seq<nat>): int {
    SumOwned(owned, ids, |ids|)
  }

  lemma SumSnoc(owned: map<nat, int>, ids: seq<nat>, last: nat)
    ensures Sum(owned, ids + [last]) == Sum(owned, ids) + Owned(owned, last)
  {
    SumOwnedPrefix(owned, ids, last, |ids|);
  }

  predicate OnThread(spans: seq<Span>, key: (int, int), i: nat) {
    i < |spans| && Host(spans[i]) && Key(spans[i]) == key
  }

  /** One more span joins the lists it belongs to. */
  lemma OneMoreSpan(spans: seq<Span>, key: (int, int), i: nat)
    requires i < |spans|
    ensures var was, mem := HostSpans(spans, i, key), Members(spans, i, key);
      && HostSpans(spans, i + 1, key) == (if OnThread(spans, key, i) then was + [i] else was)
      && Members(spans, i + 1, key) == (if OnThread(spans, key, i) && !spans[i].sampled then mem + [i] else mem)
    ensures StrayWeight(spans, key, i + 1)
         == StrayWeight(spans, key, i) + if Stray(spans, key, i) then spans[i].duration else 0
  {
    hide Host, Key, IdsOk, Stray;
  }

  /** A stray sample has been given its nominal weight, any other sample nothing. */
  lemma SampleGets(spans: seq<Span>, owned: map<nat, int>, key: (int, int), i: nat, lo: int, hi: int)
    requires Exclusive(spans, owned) && Within(spans, lo, hi) && i < |spans|
    ensures Stray(spans, key, i) ==> OnThread(spans, key, i) && spans[i].sampled
    ensures OnThread(spans, key, i) && spans[i].sampled ==>
      Owned(owned, i) == if Stray(spans, key, i) then spans[i].duration else 0
  {
    assert Owned(owned, i) == Due(spans, i, lo, hi);
    hide Exclusive, Within, Busy, Thread;
  }

  lemma NoHostYet(spans: seq<Span>, key: (int, int))
    ensures HostSpans(spans, 0, key) == Members(spans, 0, key) && StrayWeight(spans, key, 0) == 0
  {
  }

  /** The spans of a thread up to position n: what its measured spans are given and its stray samples weigh. */
  lemma {:induction false} HostSum(spans: seq<Span>, owned: map<nat, int>, key: (int, int), n: nat, lo: int, hi: int)
    requires Exclusive(spans, owned) && Within(spans, lo, hi) && n <= |spans|
    ensures Sum(owned, HostSpans(spans, n, key)) == Sum(owned, Members(spans, n, key)) + StrayWeight(spans, key, n)
  {
    hide *;
    if n == 0 {
      NoHostYet(spans, key);
    } else {
      var i := n - 1;
      HostSum(spans, owned, key, i, lo, hi);
      OneMoreSpan(spans, key, i);
      SampleGets(spans, owned, key, i, lo, hi);
      SumSnoc(owned, HostSpans(spans, i, key), i);
      SumSnoc(owned, Members(spans, i, key), i);
    }
  }

  /** All that is attributed to a thread is the union of its measured spans and the weight of its stray samples. So it
      is that union exactly when the thread has no stray sample, and it stays within wall time exactly when the stray
      samples fit into the time the measured spans leave. */
  lemma ThreadTotal(spans: seq<Span>, owned: map<nat, int>, key: (int, int), lo: int, hi: int)
    requires Exclusive(spans, owned) && Within(spans, lo, hi) && lo <= hi
    ensures var total := Sum(owned, AllHost(spans, key));
      var union, stray := BusyIn(spans, Thread(spans, key), lo, hi), StrayWeight(spans, key, |spans|);
      && total == union + stray
      && (total == union <==> forall i :: 0 <= i < |spans| ==> !Stray(spans, key, i))
      && (total <= hi - lo <==> stray <= hi - lo - union)
  {
    MeasuredTotal(spans, owned, key, lo, hi);
    HostSum(spans, owned, key, |spans|, lo, hi);
    StrayWeightZero(spans, key, |spans|);
    hide Stray, StrayWeight, Exclusive, Within, BusyIn;
  }

  /** Measured against the union of all spans of the thread, samples among them: the total is that union exactly when
      the stray samples weigh what samples cover outside every measured span. */
  lemma ThreadTotalOfAll(spans: seq<Span>, owned: map<nat, int>, key: (int, int), lo: int, hi: int)
    requires Exclusive(spans, owned) && Within(spans, lo, hi) && lo <= hi
    ensures Sum(owned, AllHost(spans, key)) == BusyIn(spans, AllHost(spans, key), lo, hi)
       <==> StrayWeight(spans, key, |spans|) == SampleOnly(spans, key, lo, hi)
  {
    ThreadTotal(spans, owned, key, lo, hi);
    UnionSplits(spans, key, lo, hi);
  }

  // ---- a thread given more than its wall time ----

  const SAMPLE: Span := Span(1, 1, 0, 10, false, false, true)
  const MEASURED: Span := Span(1, 1, 1, 9, false, false, false)
  const OVERFULL: seq<Span> := [SAMPLE, MEASURED]

  lemma OverfullLists()
    ensures Thread(OVERFULL, (1, 1)) == [1] && AllHost(OVERFULL, (1, 1)) == [0, 1]
  {
    var spans, key := OVERFULL, (1, 1);
    assert spans[0] == SAMPLE && spans[1] == MEASURED && |spans| == 2;
    assert Host(SAMPLE) && Key(SAMPLE) == key && Host(MEASURED) && Key(MEASURED) == key;
    hide IdsOk, Host, Key;
    assert Members(spans, 0, key) == [];
    assert Members(spans, 1, key) == [];
    assert HostSpans(spans, 0, key) == [];
    assert HostSpans(spans, 1, key) == [0];
    assert Members(spans, 2, key) == [1] && HostSpans(spans, 2, key) == [0, 1];
  }

  lemma OverfullBusy(x: int)
    ensures Busy(OVERFULL, Thread(OVERFULL, (1, 1)), x) <==> 1 <= x < 10
  {
    OverfullLists();
    hide Thread;
    assert 1 <= x < 10 ==> 1 in [1] && Covers(OVERFULL[1], x);
  }

  lemma {:induction false} OverfullUnion(hi: int)
    requires 1 <= hi <= 10
    ensures BusyIn(OVERFULL, Thread(OVERFULL, (1, 1)), 0, hi) == hi - 1
    decreases hi
  {
    OverfullBusy(hi - 1);
    hide Thread, Busy;
    if hi > 1 { OverfullUnion(hi - 1); }
  }

  /** A sample of 10 ns and, from its second nanosecond on, a measured span of 9 ns: the 10 ns of wall time are
      given 19. */
  lemma MoreThanWallTime(owned: map<nat, int>)
    requires Exclusive(OVERFULL, owned)
    ensures Within(OVERFULL, 0, 10) && Sum(owned, AllHost(OVERFULL, (1, 1))) == 19
  {
    var spans, key := OVERFULL, (1, 1);
    assert spans[0] == SAMPLE && spans[1] == MEASURED && |spans| == 2;
    OverfullStray();
    OverfullUnion(10);
    ThreadTotal(spans, owned, key, 0, 10);
    hide Exclusive, Sum, BusyIn, StrayWeight, Stray;
  }

  lemma OverfullStray()
    ensures StrayWeight(OVERFULL, (1, 1), 2) == 10
  {
    var spans, key := OVERFULL, (1, 1);
    assert spans[0] == SAMPLE && spans[1] == MEASURED && |spans| == 2;
    OverfullBusy(0);
    hide Busy, Thread;
    assert Stray(spans, key, 0) && !Stray(spans, key, 1);
    hide Stray;
    assert StrayWeight(spans, key, 0) == 0;
    assert StrayWeight(spans, key, 1) == 10;
  }
}
