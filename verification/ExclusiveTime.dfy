/** ExclusiveTime of src/analysis/activity_buckets.py: one sweep per thread, then the samples. */
module ExclusiveTime {
  import opened ExclusiveOwner
  import opened ExclusiveSweep

  /** The positions below n of the measured spans of one thread, in list order. */
  function Members(spans: seq<Span>, n: nat, key: (int, int)): (ids: seq<nat>)
    requires n <= |spans|
    ensures forall j: nat :: j in ids <==> j < n && Host(spans[j]) && !spans[j].sampled && Key(spans[j]) == key
    ensures IdsOk(spans, ids)
  {
    if n == 0 then []
    else if Host(spans[n-1]) && !spans[n-1].sampled && Key(spans[n-1]) == key then Members(spans, n - 1, key) + [n - 1]
    else Members(spans, n - 1, key)
  }

  function Thread(spans: seq<Span>, key: (int, int)): (ids: seq<nat>)
    ensures IdsOk(spans, ids)
  {
    Members(spans, |spans|, key)
  }

  predicate Within(spans: seq<Span>, lo: int, hi: int) {
    forall j :: 0 <= j < |spans| && spans[j].duration > 0 ==> lo <= spans[j].start && End(spans[j]) <= hi
  }

  /** The time span i is to own: the instants of its thread of which it is the innermost measured span; a sample
      keeps its nominal weight unless a measured span covers its start. */
  function Due(spans: seq<Span>, i: nat, lo: int, hi: int): int {
    if i >= |spans| || !Host(spans[i]) then 0
    else if !spans[i].sampled then OwnedIn(spans, Thread(spans, Key(spans[i])), i, lo, hi)
    else if Busy(spans, Thread(spans, Key(spans[i])), spans[i].start) then 0
    else spans[i].duration
  }

  // ---- one thread ----

  /** Before the first and after the last boundary nobody owns anything. */
  lemma OutsideUnowned(spans: seq<Span>, ids: seq<nat>, bs: seq<Boundary>, k: nat, x: int)
    requires IdsOk(spans, ids) && BoundariesOf(spans, ids, bs)
    requires bs == [] || x < bs[0].time || bs[|bs|-1].time <= x
    ensures !Owns(spans, ids, k, x)
  {
    if k in ids {
      var o :| 0 <= o < |bs| && bs[o] == Opening(spans, k);
      var c :| 0 <= c < |bs| && bs[c] == Closing(spans, k);
      TimesAscend(bs, 0, o);
      TimesAscend(bs, c, |bs| - 1);
    }
    hide BoundariesOf;
  }

  lemma OutsideBoundaries(spans: seq<Span>, ids: seq<nat>, bs: seq<Boundary>, lo: int, hi: int, k: nat)
    requires IdsOk(spans, ids) && BoundariesOf(spans, ids, bs) && Within(spans, lo, hi)
    ensures bs == [] ==> OwnedIn(spans, ids, k, lo, hi) == 0
    ensures bs != [] ==> OwnedIn(spans, ids, k, lo, hi) == OwnedIn(spans, ids, k, bs[0].time, bs[|bs|-1].time)
  {
    forall x | bs == [] || x < bs[0].time || bs[|bs|-1].time <= x ensures !Owns(spans, ids, k, x) {
      OutsideUnowned(spans, ids, bs, k, x);
    }
    if bs == [] {
      hide Owns, BoundariesOf, IdsOk;
      if lo <= hi { OwnedUniform(spans, ids, k, lo, hi, false); }
    } else {
      var first, last := bs[0].time, bs[|bs|-1].time;
      assert IsBoundary(spans, ids, bs[0]) && IsBoundary(spans, ids, bs[|bs|-1]);
      TimesAscend(bs, 0, |bs| - 1);
      assert lo <= first <= last <= hi;
      hide Owns, BoundariesOf, IdsOk, OwnedIn;
      OwnedSplits(spans, ids, k, lo, first, hi);
      OwnedSplits(spans, ids, k, first, last, hi);
      OwnedUniform(spans, ids, k, lo, first, false);
      OwnedUniform(spans, ids, k, last, hi, false);
    }
  }

  method SweepThread(spans: seq<Span>, ids: seq<nat>, before: map<nat, int>) returns (owned: map<nat, int>)
    requires IdsOk(spans, ids) && Positive(before)
    ensures forall lo, hi :: Within(spans, lo, hi) ==> Credited(spans, ids, before, owned, lo, hi)
    ensures Positive(owned)
  {
    var bs := Boundaries(spans, ids);
    owned := SweepBoundaries(spans, ids, bs, before);
    forall lo, hi, k: nat | Within(spans, lo, hi)
      ensures Owned(owned, k) == Owned(before, k) + OwnedIn(spans, ids, k, lo, hi)
    {
      OutsideBoundaries(spans, ids, bs, lo, hi, k);
      hide BoundariesOf, Within, IdsOk, OwnedIn;
    }
  }

  // ---- coverage ----

  predicate SortedPairs(ivs: seq<(int, int)>) {
    forall a, b :: 0 <= a < b < |ivs| ==> ivs[a].0 < ivs[b].0 || (ivs[a].0 == ivs[b].0 && ivs[a].1 <= ivs[b].1)
  }

  predicate InPair(iv: (int, int), x: int) {
    iv.0 <= x < iv.1
  }

  /** One of the first n pairs holds the instant. */
  predicate AnyPair(ivs: seq<(int, int)>, n: nat, x: int)
    requires n <= |ivs|
  {
    exists a :: 0 <= a < n && InPair(ivs[a], x)
  }

  method SortPairs(spans: seq<Span>, ids: seq<nat>) returns (ivs: seq<(int, int)>)
    requires IdsOk(spans, ids)
    ensures SortedPairs(ivs)
    ensures forall iv :: iv in ivs <==> exists j :: j in ids && iv == (spans[j].start, End(spans[j]))
  {
    ivs := [];
    var n := 0;
    while n < |ids|
      invariant 0 <= n <= |ids|
      invariant SortedPairs(ivs)
      invariant forall iv :: iv in ivs <==> exists j :: j in ids[..n] && iv == (spans[j].start, End(spans[j]))
    {
      var iv := (spans[ids[n]].start, End(spans[ids[n]]));
      var p := 0;
      while p < |ivs| && (ivs[p].0 < iv.0 || (ivs[p].0 == iv.0 && ivs[p].1 <= iv.1))
        invariant 0 <= p <= |ivs|
        invariant forall a :: 0 <= a < p ==> ivs[a].0 < iv.0 || (ivs[a].0 == iv.0 && ivs[a].1 <= iv.1)
      {
        p := p + 1;
      }
      assert ids[..n+1] == ids[..n] + [ids[n]];
      assert forall j :: j in ids[..n+1] <==> j in ids[..n] || j == ids[n];
      ghost var was := ivs;
      ivs := ivs[..p] + [iv] + ivs[p..];
      assert forall v :: v in ivs <==> v in was || v == iv;
      n := n + 1;
    }
  }

  /** Disjoint, in order, with gaps between them. */
  predicate Merged(starts: seq<int>, ends: seq<int>) {
    && |starts| == |ends|
    && (forall a :: 0 <= a < |starts| ==> starts[a] < ends[a])
    && (forall a, b :: 0 <= a < b < |starts| ==> ends[a] < starts[b])
  }

  predicate InMerged(starts: seq<int>, ends: seq<int>, x: int)
    requires |starts| == |ends|
  {
    exists a :: 0 <= a < |starts| && InPair((starts[a], ends[a]), x)
  }

  /** What folding one more interval into the merged ones does to coverage. */
  predicate Folds(starts: seq<int>, ends: seq<int>, starts': seq<int>, ends': seq<int>, lo: int, hi: int) {
    if ends != [] && lo <= ends[|ends|-1] then
      starts' == starts && ends' == ends[|ends|-1 := if ends[|ends|-1] >= hi then ends[|ends|-1] else hi]
    else
      starts' == starts + [lo] && ends' == ends + [hi]
  }

  lemma FoldCovers(starts: seq<int>, ends: seq<int>, starts': seq<int>, ends': seq<int>, lo: int, hi: int, x: int)
    requires Merged(starts, ends) && Folds(starts, ends, starts', ends', lo, hi)
    requires starts != [] ==> starts[|starts|-1] <= lo
    requires |starts'| == |ends'|
    ensures InMerged(starts', ends', x) <==> InMerged(starts, ends, x) || InPair((lo, hi), x)
  {
    var z := |starts| - 1;
    if a :| 0 <= a < |starts'| && InPair((starts'[a], ends'[a]), x) {
      if a < |starts| && !InPair((starts[a], ends[a]), x) { assert InPair((lo, hi), x); }
    }
    if a :| 0 <= a < |starts| && InPair((starts[a], ends[a]), x) {
      assert InPair((starts'[a], ends'[a]), x);
    }
    if InPair((lo, hi), x) {
      assert InPair((starts'[|starts'|-1], ends'[|starts'|-1]), x);
    }
  }

  method Merge(ivs: seq<(int, int)>) returns (starts: seq<int>, ends: seq<int>)
    requires SortedPairs(ivs) && forall iv :: iv in ivs ==> iv.0 < iv.1
    ensures Merged(starts, ends)
    ensures forall x :: InMerged(starts, ends, x) <==> AnyPair(ivs, |ivs|, x)
  {
    starts, ends := [], [];
    var n := 0;
    while n < |ivs|
      invariant 0 <= n <= |ivs|
      invariant Merged(starts, ends)
      invariant if n == 0 then starts == [] else starts != [] && starts[|starts|-1] <= ivs[n-1].0
      invariant forall x :: InMerged(starts, ends, x) <==> AnyPair(ivs, n, x)
    {
      assert ivs[n] in ivs;
      assert n > 0 ==> ivs[n-1].0 <= ivs[n].0;
      var (lo, hi) := ivs[n];
      ghost var starts0, ends0 := starts, ends;
      if ends != [] && lo <= ends[|ends|-1] {
        ends := ends[|ends|-1 := if ends[|ends|-1] >= hi then ends[|ends|-1] else hi];
      } else {
        starts, ends := starts + [lo], ends + [hi];
      }
      forall x ensures InMerged(starts, ends, x) <==> AnyPair(ivs, n + 1, x) {
        FoldCovers(starts0, ends0, starts, ends, lo, hi, x);
        hide Merged, InMerged, InPair;
      }
      n := n + 1;
    }
  }

  /** bisect.bisect_right */
  method Bisect(xs: seq<int>, x: int) returns (k: nat)
    requires forall a, b :: 0 <= a < b < |xs| ==> xs[a] <= xs[b]
    ensures k <= |xs| && (forall a :: 0 <= a < k ==> xs[a] <= x) && forall a :: k <= a < |xs| ==> x < xs[a]
  {
    var hi := |xs|;
    k := 0;
    while k < hi
      invariant k <= hi <= |xs|
      invariant forall a :: 0 <= a < k ==> xs[a] <= x
      invariant forall a :: hi <= a < |xs| ==> x < xs[a]
    {
      var mid := (k + hi) / 2;
      if x < xs[mid] { hi := mid; } else { k := mid + 1; }
    }
  }

  /** One bisect decides whether the merged intervals cover an instant. */
  method IsCovered(starts: seq<int>, ends: seq<int>, x: int) returns (covered: bool)
    requires Merged(starts, ends)
    ensures covered <==> InMerged(starts, ends, x)
  {
    forall a, b | 0 <= a < b < |starts| ensures starts[a] <= starts[b] {
      assert starts[a] < ends[a] < starts[b];
    }
    var k := Bisect(starts, x);
    covered := k >= 1 && x < ends[k-1];
    if covered { assert InPair((starts[k-1], ends[k-1]), x); }
    if a :| 0 <= a < |starts| && InPair((starts[a], ends[a]), x) {
      assert a < k;
      assert a < k - 1 ==> ends[a] < starts[k-1];
    }
  }

  datatype Coverage = Coverage(starts: seq<int>, ends: seq<int>)

  /** The coverage describes the measured spans of a thread. */
  ghost predicate CoversThread(spans: seq<Span>, ids: seq<nat>, c: Coverage)
    requires IdsOk(spans, ids)
  {
    Merged(c.starts, c.ends) && forall x :: InMerged(c.starts, c.ends, x) <==> Busy(spans, ids, x)
  }

  method Cover(spans: seq<Span>, ids: seq<nat>) returns (c: Coverage)
    requires IdsOk(spans, ids)
    ensures CoversThread(spans, ids, c)
  {
    var ivs := SortPairs(spans, ids);
    var starts, ends := Merge(ivs);
    c := Coverage(starts, ends);
    forall x ensures InMerged(starts, ends, x) <==> Busy(spans, ids, x) {
      if a :| 0 <= a < |ivs| && InPair(ivs[a], x) {
        var iv := ivs[a];
        assert iv in ivs;
        var j :| j in ids && iv == (spans[j].start, End(spans[j]));
        assert Covers(spans[j], x);
      }
      if j :| j in ids && Covers(spans[j], x) {
        assert (spans[j].start, End(spans[j])) in ivs;
        var a :| 0 <= a < |ivs| && ivs[a] == (spans[j].start, End(spans[j]));
        assert InPair(ivs[a], x);
      }
    }
  }

  // ---- grouping by thread ----

  /** by_thread as a dict: its keys in insertion order, and the measured spans of each thread. */
  ghost predicate GroupedTo(spans: seq<Span>, n: nat, order: seq<(int, int)>, byThread: map<(int, int), seq<nat>>)
    requires n <= |spans|
  {
    && (forall a :: 0 <= a < |order| ==> order[a] in byThread)
    && (forall a, b :: 0 <= a < b < |order| ==> order[a] != order[b])
    && (forall key :: key in byThread ==> key in order && byThread[key] == Members(spans, n, key))
    && (forall key :: key !in byThread ==> Members(spans, n, key) == [])
  }

  /** The sampled spans below n, in list order. */
  function Samples(spans: seq<Span>, n: nat): (ids: seq<nat>)
    requires n <= |spans|
    ensures forall j: nat :: j in ids <==> j < n && Host(spans[j]) && spans[j].sampled
    ensures forall a :: 0 <= a < |ids| ==> ids[a] < n
    ensures forall a, b :: 0 <= a < b < |ids| ==> ids[a] != ids[b]
  {
    if n == 0 then []
    else if Host(spans[n-1]) && spans[n-1].sampled then Samples(spans, n - 1) + [n - 1]
    else Samples(spans, n - 1)
  }

  /** Every span has been given its due, with the instants counted over any window that holds all spans. */
  ghost predicate Exclusive(spans: seq<Span>, owned: map<nat, int>) {
    forall lo, hi, i: nat :: Within(spans, lo, hi) ==> Owned(owned, i) == Due(spans, i, lo, hi)
  }

  /** After the first n threads. */
  ghost predicate SweptTo(spans: seq<Span>, order: seq<(int, int)>, n: nat, owned: map<nat, int>)
    requires n <= |order|
  {
    forall lo, hi, i: nat :: Within(spans, lo, hi) ==>
      var swept := i < |spans| && Host(spans[i]) && !spans[i].sampled && Key(spans[i]) in order[..n];
      Owned(owned, i) == if swept then Due(spans, i, lo, hi) else 0
  }

  lemma {:induction false} OwnsOnlyMembers(spans: seq<Span>, ids: seq<nat>, k: nat, lo: int, hi: int)
    requires IdsOk(spans, ids) && k !in ids
    ensures OwnedIn(spans, ids, k, lo, hi) == 0
    decreases hi - lo
  {
    if lo < hi { OwnsOnlyMembers(spans, ids, k, lo, hi - 1); }
  }

  lemma SweptOneMore(spans: seq<Span>, order: seq<(int, int)>, n: nat, before: map<nat, int>, owned: map<nat, int>)
    requires n < |order| && SweptTo(spans, order, n, before)
    requires forall a, b :: 0 <= a < b < |order| ==> order[a] != order[b]
    requires forall lo, hi :: Within(spans, lo, hi) ==> Credited(spans, Thread(spans, order[n]), before, owned, lo, hi)
    ensures SweptTo(spans, order, n + 1, owned)
  {
    var ids := Thread(spans, order[n]);
    assert order[..n+1] == order[..n] + [order[n]];
    assert order[n] !in order[..n];
    forall lo, hi, i: nat | Within(spans, lo, hi)
      ensures
        var swept := i < |spans| && Host(spans[i]) && !spans[i].sampled && Key(spans[i]) in order[..n+1];
        Owned(owned, i) == if swept then Due(spans, i, lo, hi) else 0
    {
      assert Owned(owned, i) == Owned(before, i) + OwnedIn(spans, ids, i, lo, hi);
      if i !in ids { OwnsOnlyMembers(spans, ids, i, lo, hi); }
      hide OwnedIn, Within, Host, Credited;
    }
  }

  /** Where one more span goes: to the samples, to its thread, or nowhere. */
  lemma GroupOne(spans: seq<Span>, i: nat, order: seq<(int, int)>, byThread: map<(int, int), seq<nat>>)
    requires i < |spans| && GroupedTo(spans, i, order, byThread)
    ensures !Host(spans[i]) || spans[i].sampled ==> GroupedTo(spans, i + 1, order, byThread)
    ensures Host(spans[i]) && !spans[i].sampled ==>
      var key := Key(spans[i]);
      if key in byThread then GroupedTo(spans, i + 1, order, byThread[key := byThread[key] + [i]])
      else GroupedTo(spans, i + 1, order + [key], byThread[key := [i]])
    ensures Samples(spans, i + 1) == Samples(spans, i) + if Host(spans[i]) && spans[i].sampled then [i] else []
  {
    hide IdsOk, Host;
  }

  lemma GroupNone(spans: seq<Span>)
    ensures GroupedTo(spans, 0, [], map[]) && Samples(spans, 0) == []
  {
  }

  method Group(spans: seq<Span>)
    returns (order: seq<(int, int)>, byThread: map<(int, int), seq<nat>>, sampled: seq<nat>)
    ensures GroupedTo(spans, |spans|, order, byThread) && sampled == Samples(spans, |spans|)
  {
    hide *;
    GroupNone(spans);
    order, byThread, sampled := [], map[], [];
    var i := 0;
    while i < |spans|
      invariant 0 <= i <= |spans|
      invariant GroupedTo(spans, i, order, byThread) && sampled == Samples(spans, i)
    {
      var s := spans[i];
      GroupOne(spans, i, order, byThread);
      if Host(s) {
        var key := Key(s);
        if s.sampled {
          sampled := sampled + [i];
        } else if key in byThread {
          byThread := byThread[key := byThread[key] + [i]];
        } else {
          byThread := byThread[key := [i]];
          order := order + [key];
        }
      }
      i := i + 1;
    }
  }

  method SweepThreads(spans: seq<Span>, order: seq<(int, int)>, byThread: map<(int, int), seq<nat>>)
    returns (owned: map<nat, int>)
    requires GroupedTo(spans, |spans|, order, byThread)
    ensures SweptTo(spans, order, |order|, owned) && Positive(owned)
  {
    owned := map[];
    var n := 0;
    while n < |order|
      invariant 0 <= n <= |order|
      invariant SweptTo(spans, order, n, owned) && Positive(owned)
    {
      ghost var before := owned;
      assert byThread[order[n]] == Thread(spans, order[n]);
      hide SweptTo, Credited, Within, Positive;
      owned := SweepThread(spans, byThread[order[n]], owned);
      SweptOneMore(spans, order, n, before, owned);
      n := n + 1;
    }
  }

  // ---- samples ----

  function CoverageOf(covered: map<(int, int), Coverage>, key: (int, int)): Coverage {
    if key in covered then covered[key] else Coverage([], [])
  }

  method CoverThreads(spans: seq<Span>, order: seq<(int, int)>, byThread: map<(int, int), seq<nat>>)
    returns (covered: map<(int, int), Coverage>)
    requires GroupedTo(spans, |spans|, order, byThread)
    ensures forall key :: CoversThread(spans, Thread(spans, key), CoverageOf(covered, key))
  {
    hide *;
    covered := map[];
    var n := 0;
    while n < |order|
      invariant 0 <= n <= |order|
      invariant forall key :: key in covered ==> CoversThread(spans, Thread(spans, key), covered[key])
      invariant forall a :: 0 <= a < n ==> order[a] in covered
    {
      GroupFacts(spans, order, byThread, order[n]);
      var c := Cover(spans, byThread[order[n]]);
      covered := covered[order[n] := c];
      n := n + 1;
    }
    forall key ensures CoversThread(spans, Thread(spans, key), CoverageOf(covered, key)) {
      GroupFacts(spans, order, byThread, key);
      NoCoverage(spans, covered, key);
    }
  }

  lemma GroupFacts(spans: seq<Span>, order: seq<(int, int)>, byThread: map<(int, int), seq<nat>>, key: (int, int))
    requires GroupedTo(spans, |spans|, order, byThread)
    ensures key in order <==> key in byThread
    ensures if key in byThread then byThread[key] == Thread(spans, key) else Thread(spans, key) == []
  {
  }

  lemma NoCoverage(spans: seq<Span>, covered: map<(int, int), Coverage>, key: (int, int))
    requires key !in covered ==> Thread(spans, key) == []
    requires key in covered ==> CoversThread(spans, Thread(spans, key), covered[key])
    ensures CoversThread(spans, Thread(spans, key), CoverageOf(covered, key))
  {
    hide CoversThread, Thread, IdsOk;
    if key !in covered { EmptyCoverage(spans); }
  }

  lemma EmptyCoverage(spans: seq<Span>)
    ensures IdsOk(spans, []) && CoversThread(spans, [], Coverage([], []))
  {
  }

  /** After the first n samples. */
  ghost predicate SampledTo(spans: seq<Span>, n: nat, owned: map<nat, int>)
    requires n <= |Samples(spans, |spans|)|
  {
    forall lo, hi, i: nat :: Within(spans, lo, hi) ==>
      Owned(owned, i) == if i in Samples(spans, |spans|)[n..] then 0 else Due(spans, i, lo, hi)
  }

  lemma SweptAll(spans: seq<Span>, order: seq<(int, int)>, byThread: map<(int, int), seq<nat>>, owned: map<nat, int>)
    requires GroupedTo(spans, |spans|, order, byThread) && SweptTo(spans, order, |order|, owned)
    ensures SampledTo(spans, 0, owned)
  {
    assert order[..|order|] == order;
    var samples := Samples(spans, |spans|);
    assert samples[0..] == samples;
    forall lo, hi, i: nat | Within(spans, lo, hi)
      ensures Owned(owned, i) == if i in samples then 0 else Due(spans, i, lo, hi)
    {
      if i < |spans| && Host(spans[i]) && !spans[i].sampled {
        GroupFacts(spans, order, byThread, Key(spans[i]));
        assert i in Thread(spans, Key(spans[i]));
      }
      hide GroupedTo, Within, OwnedIn, Busy, Thread;
    }
    SampledIntro(spans, 0, owned);
  }

  lemma SampleOneMore(spans: seq<Span>, n: nat, before: map<nat, int>, owned: map<nat, int>)
    requires n < |Samples(spans, |spans|)| && SampledTo(spans, n, before)
    requires var i := Samples(spans, |spans|)[n];
      var s := spans[i];
      owned == if Busy(spans, Thread(spans, Key(s)), s.start) then before else before[i := s.duration]
    ensures SampledTo(spans, n + 1, owned)
  {
    var samples := Samples(spans, |spans|);
    var k := samples[n];
    Tail(samples, n);
    hide SampledTo, Samples, Thread, Within, Due, Busy;
    forall lo, hi, i: nat | Within(spans, lo, hi)
      ensures Owned(owned, i) == if i in samples[n+1..] then 0 else Due(spans, i, lo, hi)
    {
      SampleDue(spans, k, lo, hi);
      SampledFacts(spans, n, before, lo, hi, i);
    }
    SampledIntro(spans, n + 1, owned);
  }

  lemma Tail(s: seq<nat>, n: nat)
    requires n < |s| && forall a, b :: 0 <= a < b < |s| ==> s[a] != s[b]
    ensures s[n] in s && s[n] !in s[n+1..] && forall i :: i in s[n..] <==> i == s[n] || i in s[n+1..]
  {
    assert s[n..] == [s[n]] + s[n+1..];
  }

  lemma SampleDue(spans: seq<Span>, k: nat, lo: int, hi: int)
    requires k in Samples(spans, |spans|)
    ensures Due(spans, k, lo, hi)
      == if Busy(spans, Thread(spans, Key(spans[k])), spans[k].start) then 0 else spans[k].duration
  {
  }

  lemma SampledFacts(spans: seq<Span>, n: nat, owned: map<nat, int>, lo: int, hi: int, i: nat)
    requires n <= |Samples(spans, |spans|)| && SampledTo(spans, n, owned) && Within(spans, lo, hi)
    ensures Owned(owned, i) == if i in Samples(spans, |spans|)[n..] then 0 else Due(spans, i, lo, hi)
  {
  }

  lemma SampledIntro(spans: seq<Span>, n: nat, owned: map<nat, int>)
    requires n <= |Samples(spans, |spans|)|
    requires forall lo, hi, i: nat :: Within(spans, lo, hi) ==>
      Owned(owned, i) == if i in Samples(spans, |spans|)[n..] then 0 else Due(spans, i, lo, hi)
    ensures SampledTo(spans, n, owned)
  {
  }

  method AddSamples(spans: seq<Span>, sampled: seq<nat>, covered: map<(int, int), Coverage>, before: map<nat, int>)
    returns (owned: map<nat, int>)
    requires sampled == Samples(spans, |spans|) && SampledTo(spans, 0, before) && Positive(before)
    requires forall key :: CoversThread(spans, Thread(spans, key), CoverageOf(covered, key))
    ensures Exclusive(spans, owned) && Positive(owned)
  {
    hide SampledTo, CoversThread, Samples, Thread, IdsOk, Host, Exclusive, Busy, CoverageOf, Key;
    owned := before;
    var n := 0;
    while n < |sampled|
      invariant 0 <= n <= |sampled|
      invariant SampledTo(spans, n, owned) && Positive(owned)
    {
      var i := sampled[n];
      assert sampled[n] in sampled;
      SampleFacts(spans, i);
      var c := CoverageOf(covered, Key(spans[i]));
      CoverageFacts(spans, Thread(spans, Key(spans[i])), c, spans[i].start);
      var skip := IsCovered(c.starts, c.ends, spans[i].start);
      ghost var was := owned;
      if !skip {
        owned := owned[i := spans[i].duration];
      }
      SampleOneMore(spans, n, was, owned);
      n := n + 1;
    }
    AllSampled(spans, owned);
  }

  class ExclusiveTime {
    const spans: seq<Span>
    var owned: map<nat, int>

    ghost predicate Valid()
      reads this
    {
      Exclusive(spans, owned) && Positive(owned)
    }

    constructor (spans: seq<Span>)
      ensures Valid() && this.spans == spans
    {
      this.spans := spans;
      new;
      var order, byThread, sampled := Group(spans);
      owned := SweepThreads(spans, order, byThread);
      var covered := CoverThreads(spans, order, byThread);
      SweptAll(spans, order, byThread, owned);
      owned := AddSamples(spans, sampled, covered, owned);
    }

    /** What one span adds to a total: host spans what they own, device-timed spans their full duration. */
    function Contribution(i: nat, includeDevice: bool): int
      requires i < |spans|
      reads this
    {
      if spans[i].duration <= 0 || spans[i].annotation then 0
      else if spans[i].device then (if includeDevice then spans[i].duration else 0)
      else Owned(owned, i)
    }

    function SumOf<K(==)>(key: seq<K>, k: K, n: nat, includeDevice: bool): int
      requires n <= |spans| == |key|
      reads this
    {
      if n == 0 then 0
      else SumOf(key, k, n - 1, includeDevice) + if key[n-1] == k then Contribution(n - 1, includeDevice) else 0
    }

    /** key holds the key of each span. */
    method Totals<K(==)>(key: seq<K>, includeDevice: bool) returns (out: map<K, int>)
      requires Valid() && |key| == |spans|
      ensures forall k :: (if k in out then out[k] else 0) == SumOf(key, k, |spans|, includeDevice)
      ensures forall k :: k in out ==> out[k] > 0
    {
      out := map[];
      var i := 0;
      while i < |spans|
        invariant 0 <= i <= |spans|
        invariant forall k :: (if k in out then out[k] else 0) == SumOf(key, k, i, includeDevice)
        invariant forall k :: k in out ==> out[k] > 0
      {
        var s := spans[i];
        if s.duration > 0 && !s.annotation && (includeDevice || !s.device) {
          var ns := if s.device then s.duration else Owned(owned, i);
          if ns > 0 {
            out := out[key[i] := (if key[i] in out then out[key[i]] else 0) + ns];
          }
        }
        i := i + 1;
      }
    }
  }

  lemma SampleFacts(spans: seq<Span>, i: nat)
    requires i in Samples(spans, |spans|)
    ensures i < |spans| && spans[i].duration > 0
  {
  }

  lemma CoverageFacts(spans: seq<Span>, ids: seq<nat>, c: Coverage, x: int)
    requires IdsOk(spans, ids) && CoversThread(spans, ids, c)
    ensures Merged(c.starts, c.ends) && (InMerged(c.starts, c.ends, x) <==> Busy(spans, ids, x))
  {
  }

  lemma AllSampled(spans: seq<Span>, owned: map<nat, int>)
    requires SampledTo(spans, |Samples(spans, |spans|)|, owned)
    ensures Exclusive(spans, owned)
  {
  }

  // ---- what the attribution means for a thread ----

  function SumOwned(owned: map<nat, int>, ids: seq<nat>, n: nat): int
    requires n <= |ids|
  {
    if n == 0 then 0 else SumOwned(owned, ids, n - 1) + Owned(owned, ids[n-1])
  }

  lemma {:induction false} SumOwnedIsShare(spans: seq<Span>, owned: map<nat, int>, key: (int, int), n: nat, lo: int,
        hi: int)
    requires Exclusive(spans, owned) && Within(spans, lo, hi) && n <= |Thread(spans, key)|
    ensures SumOwned(owned, Thread(spans, key), n) == OwnedByAll(spans, Thread(spans, key), n, lo, hi)
  {
    if n > 0 {
      SumOwnedIsShare(spans, owned, key, n - 1, lo, hi);
      var k := Thread(spans, key)[n-1];
      assert k in Thread(spans, key);
      assert Owned(owned, k) == Due(spans, k, lo, hi);
    }
  }

  /** The measured spans of a thread are given the union of their extents, so never more than wall time. */
  lemma MeasuredTotal(spans: seq<Span>, owned: map<nat, int>, key: (int, int), lo: int, hi: int)
    requires Exclusive(spans, owned) && Within(spans, lo, hi) && lo <= hi
    ensures SumOwned(owned, Thread(spans, key), |Thread(spans, key)|)
      == BusyIn(spans, Thread(spans, key), lo, hi) <= hi - lo
  {
    SumOwnedIsShare(spans, owned, key, |Thread(spans, key)|, lo, hi);
    OwnedIsUnion(spans, Thread(spans, key), lo, hi);
    BusyAtMostWall(spans, Thread(spans, key), lo, hi);
  }
}
