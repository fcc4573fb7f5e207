/** The length of a union of intervals: `_merge_intervals` of src/analysis/cct.py. */
module IntervalUnion {

  type Interval = (int, int)

  predicate Before(p: Interval, q: Interval) {
    p.0 < q.0 || (p.0 == q.0 && p.1 <= q.1)
  }

  predicate Sorted(ivs: seq<Interval>) {
    forall a, b :: 0 <= a < b < |ivs| ==> Before(ivs[a], ivs[b])
  }

  predicate Holds(iv: Interval, x: int) {
    iv.0 <= x < iv.1
  }

  /** One of the first n intervals holds the instant. */
  predicate AnyHolds(ivs: seq<Interval>, n: nat, x: int)
    requires n <= |ivs|
  {
    exists a :: 0 <= a < n && Holds(ivs[a], x)
  }

  /** How many instants of [lo, hi) the first n intervals hold. */
  function Length(ivs: seq<Interval>, n: nat, lo: int, hi: int): nat
    requires n <= |ivs|
    decreases hi - lo
  {
    if hi <= lo then 0 else Length(ivs, n, lo, hi - 1) + if AnyHolds(ivs, n, hi - 1) then 1 else 0
  }

  predicate Within(ivs: seq<Interval>, lo: int, hi: int) {
    forall a :: 0 <= a < |ivs| ==> lo <= ivs[a].0 && ivs[a].1 <= hi
  }

  lemma {:induction false} SameLength(ivs: seq<Interval>, jvs: seq<Interval>, lo: int, hi: int)
    requires forall iv :: iv in ivs <==> iv in jvs
    ensures Length(ivs, |ivs|, lo, hi) == Length(jvs, |jvs|, lo, hi)
    decreases hi - lo
  {
    if lo < hi {
      SameLength(ivs, jvs, lo, hi - 1);
      if a :| 0 <= a < |ivs| && Holds(ivs[a], hi - 1) { assert ivs[a] in jvs; }
      if a :| 0 <= a < |jvs| && Holds(jvs[a], hi - 1) { assert jvs[a] in ivs; }
    }
  }

  // ---- one interval after the other ----

  function Max(a: int, b: int): int { if a >= b then a else b }
  function Min(a: int, b: int): int { if a <= b then a else b }

  /** The latest end of the first n. */
  function MaxEnd(ivs: seq<Interval>, n: nat): int
    requires 0 < n <= |ivs|
  {
    if n == 1 then ivs[0].1 else Max(MaxEnd(ivs, n - 1), ivs[n-1].1)
  }

  lemma {:induction false} MaxEndMeans(ivs: seq<Interval>, n: nat) returns (a: nat)
    requires 0 < n <= |ivs|
    ensures a < n && ivs[a].1 == MaxEnd(ivs, n) && forall b :: 0 <= b < n ==> ivs[b].1 <= MaxEnd(ivs, n)
  {
    if n == 1 {
      a := 0;
    } else {
      a := MaxEndMeans(ivs, n - 1);
      if MaxEnd(ivs, n - 1) < ivs[n-1].1 { a := n - 1; }
    }
  }

  /** Where interval k is past those before it. */
  function FreshFrom(ivs: seq<Interval>, k: nat): int
    requires k < |ivs|
  {
    if k == 0 then ivs[k].0 else Max(ivs[k].0, MaxEnd(ivs, k))
  }

  /** What interval k takes away: an inverted one that starts past all ends before it. */
  function Lost(ivs: seq<Interval>, k: nat): int
    requires k < |ivs|
  {
    if ivs[k].1 < ivs[k].0 && (k == 0 || MaxEnd(ivs, k) < ivs[k].0) then ivs[k].0 - ivs[k].1 else 0
  }

  /** Each interval adds what lies past all ends before it. */
  function Covered(ivs: seq<Interval>, n: nat): int
    requires n <= |ivs|
  {
    if n == 0 then 0 else Covered(ivs, n - 1) + Max(0, ivs[n-1].1 - FreshFrom(ivs, n - 1))
  }

  function Deficit(ivs: seq<Interval>, n: nat): int
    requires n <= |ivs|
  {
    if n == 0 then 0 else Deficit(ivs, n - 1) + Lost(ivs, n - 1)
  }

  /** Of sorted intervals, k newly holds exactly the instants past the ends before it. */
  lemma FreshInstant(ivs: seq<Interval>, k: nat, x: int)
    requires Sorted(ivs) && k < |ivs|
    ensures AnyHolds(ivs, k + 1, x) <==> AnyHolds(ivs, k, x) || FreshFrom(ivs, k) <= x < ivs[k].1
    ensures !(AnyHolds(ivs, k, x) && FreshFrom(ivs, k) <= x)
  {
    assert AnyHolds(ivs, k + 1, x) <==> AnyHolds(ivs, k, x) || Holds(ivs[k], x);
    if k > 0 {
      var a := MaxEndMeans(ivs, k);
      assert Before(ivs[a], ivs[k]);
      if ivs[k].0 <= x < MaxEnd(ivs, k) { assert Holds(ivs[a], x); }
      hide MaxEnd, Sorted;
    }
  }

  lemma {:induction false} FreshInstants(ivs: seq<Interval>, k: nat, lo: int, hi: int)
    requires Sorted(ivs) && k < |ivs| && lo <= ivs[k].0
    ensures Length(ivs, k + 1, lo, hi) == Length(ivs, k, lo, hi) + Max(0, Min(ivs[k].1, hi) - FreshFrom(ivs, k))
    decreases hi - lo
  {
    if lo < hi {
      FreshInstants(ivs, k, lo, hi - 1);
      FreshInstant(ivs, k, hi - 1);
      hide AnyHolds, FreshFrom, Sorted;
    } else {
      hide AnyHolds, Sorted, MaxEnd;
    }
  }

  lemma {:induction false} CoveredIsLength(ivs: seq<Interval>, n: nat, lo: int, hi: int)
    requires Sorted(ivs) && Within(ivs, lo, hi) && n <= |ivs|
    ensures Covered(ivs, n) == Length(ivs, n, lo, hi)
  {
    if n == 0 {
      NoLength(ivs, lo, hi);
    } else {
      CoveredIsLength(ivs, n - 1, lo, hi);
      FreshInstants(ivs, n - 1, lo, hi);
      hide Length, FreshFrom, Sorted;
    }
  }

  lemma {:induction false} NoLength(ivs: seq<Interval>, lo: int, hi: int)
    ensures Length(ivs, 0, lo, hi) == 0
    decreases hi - lo
  {
    if lo < hi { NoLength(ivs, lo, hi - 1); }
  }

  // ---- inverted intervals ----

  /** An interval that starts before another starts and reaches it. */
  ghost predicate Shelter(ivs: seq<Interval>, iv: Interval) {
    exists b :: 0 <= b < |ivs| && ivs[b].0 < iv.0 <= ivs[b].1
  }

  ghost predicate ShelteredAt(ivs: seq<Interval>, a: nat)
    requires a < |ivs|
  {
    ivs[a].1 < ivs[a].0 ==> Shelter(ivs, ivs[a])
  }

  ghost predicate ShelteredTo(ivs: seq<Interval>, n: nat)
    requires n <= |ivs|
  {
    forall a :: 0 <= a < n ==> ShelteredAt(ivs, a)
  }

  /** Every inverted interval starts inside, or at the end of, one that starts before it. */
  ghost predicate Sheltered(ivs: seq<Interval>) {
    ShelteredTo(ivs, |ivs|)
  }

  /** In sorted intervals a shelter comes earlier, so an interval takes something away exactly when it has none. */
  lemma LostAt(ivs: seq<Interval>, k: nat)
    requires Sorted(ivs) && k < |ivs|
    ensures Lost(ivs, k) >= 0 && (Lost(ivs, k) == 0 <==> ShelteredAt(ivs, k))
  {
    if ivs[k].1 < ivs[k].0 {
      if k > 0 {
        var a := MaxEndMeans(ivs, k);
        assert Before(ivs[a], ivs[k]);
      }
      if b :| 0 <= b < |ivs| && ivs[b].0 < ivs[k].0 <= ivs[b].1 {
        assert k < b ==> Before(ivs[k], ivs[b]);
      }
      hide Sorted, MaxEnd;
    }
  }

  lemma {:induction false} DeficitMeans(ivs: seq<Interval>, n: nat)
    requires Sorted(ivs) && n <= |ivs|
    ensures Deficit(ivs, n) >= 0 && (Deficit(ivs, n) == 0 <==> ShelteredTo(ivs, n))
  {
    if n > 0 {
      DeficitMeans(ivs, n - 1);
      LostAt(ivs, n - 1);
      hide Lost, Sorted, ShelteredAt;
      assert ShelteredTo(ivs, n) <==> ShelteredTo(ivs, n - 1) && ShelteredAt(ivs, n - 1);
    }
  }

  lemma SameShelter(ivs: seq<Interval>, jvs: seq<Interval>)
    requires forall iv :: iv in ivs <==> iv in jvs
    requires Sheltered(ivs)
    ensures Sheltered(jvs)
  {
    forall a | 0 <= a < |jvs| ensures ShelteredAt(jvs, a) {
      assert jvs[a] in ivs;
      var b :| 0 <= b < |ivs| && ivs[b] == jvs[a];
      assert ShelteredAt(ivs, b);
      if c :| 0 <= c < |ivs| && ivs[c].0 < ivs[b].0 <= ivs[c].1 { assert ivs[c] in jvs; }
    }
  }

  // ---- the merge ----

  /** sorted(intervals) */
  method Sort(intervals: seq<Interval>) returns (ivs: seq<Interval>)
    ensures Sorted(ivs) && multiset(ivs) == multiset(intervals)
  {
    ivs := [];
    var n := 0;
    while n < |intervals|
      invariant 0 <= n <= |intervals| && Sorted(ivs) && multiset(ivs) == multiset(intervals[..n])
    {
      var iv, p := intervals[n], 0;
      while p < |ivs| && Before(ivs[p], iv)
        invariant 0 <= p <= |ivs| && forall a :: 0 <= a < p ==> Before(ivs[a], iv)
      {
        p := p + 1;
      }
      assert ivs == ivs[..p] + ivs[p..];
      assert intervals[..n+1] == intervals[..n] + [iv];
      ivs := ivs[..p] + [iv] + ivs[p..];
      n := n + 1;
    }
    assert intervals[..n] == intervals;
  }

  /** What one more interval does to the total so far. */
  lemma OneMore(ivs: seq<Interval>, n: nat)
    requires 0 < n < |ivs|
    ensures var m := MaxEnd(ivs, n);
      && MaxEnd(ivs, n + 1) == Max(m, ivs[n].1)
      && Covered(ivs, n + 1) - Deficit(ivs, n + 1) == Covered(ivs, n) - Deficit(ivs, n)
           + if ivs[n].0 <= m then Max(0, ivs[n].1 - m) else ivs[n].1 - ivs[n].0
  {
  }

  lemma FirstOne(ivs: seq<Interval>)
    requires ivs != []
    ensures MaxEnd(ivs, 1) == ivs[0].1 && Covered(ivs, 1) - Deficit(ivs, 1) == ivs[0].1 - ivs[0].0
  {
  }

  /** The loop over the sorted intervals. */
  method Merge(ivs: seq<Interval>) returns (total: int)
    requires Sorted(ivs) && ivs != []
    ensures total == Covered(ivs, |ivs|) - Deficit(ivs, |ivs|)
  {
    FirstOne(ivs);
    hide Covered, Deficit, MaxEnd;
    total := 0;
    var (curStart, curEnd) := ivs[0];
    var n := 1;
    while n < |ivs|
      invariant 1 <= n <= |ivs| && curStart <= ivs[n-1].0
      invariant total + curEnd - curStart == Covered(ivs, n) - Deficit(ivs, n)
      invariant curEnd == MaxEnd(ivs, n) || (curEnd < curStart && MaxEnd(ivs, n) < curStart)
    {
      var (s, e) := ivs[n];
      assert Before(ivs[n-1], ivs[n]);
      OneMore(ivs, n);
      if s <= curEnd {
        curEnd := Max(curEnd, e);
      } else {
        total := total + curEnd - curStart;
        curStart, curEnd := s, e;
      }
      n := n + 1;
    }
    total := total + curEnd - curStart;
  }

  lemma UnionMeans(intervals: seq<Interval>, ivs: seq<Interval>, lo: int, hi: int)
    requires Sorted(ivs) && Within(intervals, lo, hi) && forall iv :: iv in ivs <==> iv in intervals
    ensures Covered(ivs, |ivs|) == Length(intervals, |intervals|, lo, hi)
    ensures Deficit(ivs, |ivs|) >= 0 && (Deficit(ivs, |ivs|) == 0 <==> Sheltered(intervals))
  {
    forall a | 0 <= a < |ivs| ensures lo <= ivs[a].0 && ivs[a].1 <= hi { assert ivs[a] in intervals; }
    hide Covered, Deficit, Length, ShelteredTo, Sorted;
    CoveredIsLength(ivs, |ivs|, lo, hi);
    SameLength(intervals, ivs, lo, hi);
    DeficitMeans(ivs, |ivs|);
    if Sheltered(intervals) { SameShelter(intervals, ivs); }
    if Sheltered(ivs) { SameShelter(ivs, intervals); }
  }

  /** The total is never more than the length of the union, and is that length exactly when every inverted interval is
      sheltered; so without inverted intervals it always is. */
  method MergeIntervals(intervals: seq<Interval>) returns (total: int)
    ensures forall lo, hi :: Within(intervals, lo, hi) ==>
      && total <= Length(intervals, |intervals|, lo, hi)
      && (total == Length(intervals, |intervals|, lo, hi) <==> Sheltered(intervals))
  {
    if intervals == [] {
      forall lo, hi ensures Length(intervals, 0, lo, hi) == 0 { NoLength(intervals, lo, hi); }
      return 0;
    }
    var ivs := Sort(intervals);
    assert forall iv :: iv in ivs <==> iv in multiset(ivs);
    assert forall iv :: iv in intervals <==> iv in multiset(intervals);
    assert ivs != [] by { assert intervals[0] in intervals; }
    total := Merge(ivs);
    hide Covered, Deficit, Length, Sheltered, Sorted;
    forall lo, hi | Within(intervals, lo, hi)
      ensures total <= Length(intervals, |intervals|, lo, hi)
      ensures total == Length(intervals, |intervals|, lo, hi) <==> Sheltered(intervals)
    {
      UnionMeans(intervals, ivs, lo, hi);
    }
  }

  /** One inverted interval is enough: it holds no instant, and by MergeIntervals its total falls below 0. */
  lemma InvertedGoesWrong()
    ensures Within([(5, 3)], 3, 5) && Length([(5, 3)], 1, 3, 5) == 0 && !Sheltered([(5, 3)])
  {
    assert Length([(5, 3)], 1, 3, 4) == 0;
    assert !ShelteredAt([(5, 3)], 0);
  }
}
