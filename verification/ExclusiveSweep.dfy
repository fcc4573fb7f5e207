/** The boundary sweep over one thread's spans with a lazily cleaned heap. */
module ExclusiveSweep {
  import opened ExclusiveOwner

  datatype Boundary = Boundary(time: int, opens: bool, id: nat)
  datatype Moment = Never | At(time: int)

  /** The order of the tuples (time, kind, index); ends sort before starts. */
  predicate Before(a: Boundary, b: Boundary) {
    a.time < b.time || (a.time == b.time && if a.opens == b.opens then a.id < b.id else b.opens)
  }

  predicate Sorted(bs: seq<Boundary>) {
    forall i, j :: 0 <= i < j < |bs| ==> Before(bs[i], bs[j])
  }

  function Opening(spans: seq<Span>, i: nat): Boundary
    requires i < |spans|
  {
    Boundary(spans[i].start, true, i)
  }

  function Closing(spans: seq<Span>, i: nat): Boundary
    requires i < |spans|
  {
    Boundary(End(spans[i]), false, i)
  }

  predicate IsBoundary(spans: seq<Span>, ids: seq<nat>, b: Boundary)
    requires IdsOk(spans, ids)
  {
    b.id in ids && (b == Opening(spans, b.id) || b == Closing(spans, b.id))
  }

  /** Exactly the boundaries of the given spans, in order. */
  ghost predicate BoundariesOf(spans: seq<Span>, ids: seq<nat>, bs: seq<Boundary>)
    requires IdsOk(spans, ids)
  {
    && Sorted(bs)
    && (forall i :: 0 <= i < |bs| ==> IsBoundary(spans, ids, bs[i]))
    && (forall j :: j in ids ==> Opening(spans, j) in bs && Closing(spans, j) in bs)
  }

  method Insert(bs: seq<Boundary>, b: Boundary) returns (out: seq<Boundary>)
    requires Sorted(bs) && b !in bs
    ensures Sorted(out) && forall c :: c in out <==> c in bs || c == b
  {
    var p := 0;
    while p < |bs| && Before(bs[p], b)
      invariant 0 <= p <= |bs|
      invariant forall i :: 0 <= i < p ==> Before(bs[i], b)
    {
      p := p + 1;
    }
    out := bs[..p] + [b] + bs[p..];
    if p < |bs| {
      assert Before(b, bs[p]);
      forall i | p <= i < |bs| ensures Before(b, bs[i]) {}
    }
  }

  method Boundaries(spans: seq<Span>, ids: seq<nat>) returns (bs: seq<Boundary>)
    requires IdsOk(spans, ids)
    ensures BoundariesOf(spans, ids, bs)
  {
    bs := [];
    var n := 0;
    while n < |ids|
      invariant 0 <= n <= |ids|
      invariant Sorted(bs)
      invariant forall b :: b in bs ==> IsBoundary(spans, ids, b) && b.id in ids[..n]
      invariant forall a :: 0 <= a < n ==> Opening(spans, ids[a]) in bs && Closing(spans, ids[a]) in bs
    {
      var more := Insert(bs, Opening(spans, ids[n]));
      bs := Insert(more, Closing(spans, ids[n]));
      assert ids[..n+1] == ids[..n] + [ids[n]];
      n := n + 1;
    }
  }

  // ---- the heap ----

  /** The heap as a list in ascending order of (-start, end, index); position 0 is its top. */
  predicate HeapOk(spans: seq<Span>, ids: seq<nat>, heap: seq<nat>)
    requires IdsOk(spans, ids)
  {
    && (forall a :: 0 <= a < |heap| ==> heap[a] in ids)
    && (forall a, b :: 0 <= a < b < |heap| ==> Inner(spans, heap[a], heap[b]))
  }

  method HeapPush(spans: seq<Span>, ids: seq<nat>, heap: seq<nat>, i: nat) returns (out: seq<nat>)
    requires IdsOk(spans, ids) && HeapOk(spans, ids, heap) && i in ids && i !in heap
    ensures HeapOk(spans, ids, out) && forall j :: j in out <==> j in heap || j == i
  {
    var p := 0;
    while p < |heap| && Inner(spans, heap[p], i)
      invariant 0 <= p <= |heap|
      invariant forall a :: 0 <= a < p ==> Inner(spans, heap[a], i)
    {
      p := p + 1;
    }
    out := heap[..p] + [i] + heap[p..];
    if p < |heap| {
      InnerTotal(spans, i, heap[p]);
      forall a | p <= a < |heap| ensures Inner(spans, i, heap[a]) {
        if a != p { InnerTransitive(spans, i, heap[p], heap[a]); }
      }
    }
  }

  // ---- the sweep ----

  function Owned(owned: map<nat, int>, k: nat): int {
    if k in owned then owned[k] else 0
  }

  predicate Opened(bs: seq<Boundary>, p: nat, j: nat)
    requires p <= |bs|
  {
    exists q :: 0 <= q < p && bs[q].opens && bs[q].id == j
  }

  predicate Closed(bs: seq<Boundary>, p: nat, j: nat)
    requires p <= |bs|
  {
    exists q :: 0 <= q < p && !bs[q].opens && bs[q].id == j
  }

  lemma TimesAscend(bs: seq<Boundary>, i: nat, j: nat)
    requires Sorted(bs) && i <= j < |bs|
    ensures bs[i].time <= bs[j].time
  {
    assert i < j ==> Before(bs[i], bs[j]);
  }

  /** The boundaries before p are those at or before its predecessor's time. */
  lemma BoundaryBefore(bs: seq<Boundary>, p: nat, i: nat)
    requires Sorted(bs) && 0 < p < |bs| && bs[p-1].time < bs[p].time && i < |bs|
    ensures i < p <==> bs[i].time <= bs[p-1].time
  {
    if i < p { TimesAscend(bs, i, p - 1); } else { TimesAscend(bs, p, i); }
  }

  lemma OpenedByTime(spans: seq<Span>, ids: seq<nat>, bs: seq<Boundary>, p: nat, j: nat)
    requires IdsOk(spans, ids) && BoundariesOf(spans, ids, bs) && 0 < p < |bs| && bs[p-1].time < bs[p].time && j in ids
    ensures Opened(bs, p, j) <==> spans[j].start <= bs[p-1].time
    ensures Closed(bs, p, j) <==> End(spans[j]) <= bs[p-1].time
  {
    var o :| 0 <= o < |bs| && bs[o] == Opening(spans, j);
    var c :| 0 <= c < |bs| && bs[c] == Closing(spans, j);
    BoundaryBefore(bs, p, o);
    BoundaryBefore(bs, p, c);
    forall q | 0 <= q < p && bs[q].id == j
      ensures bs[q].time <= bs[p-1].time && bs[q].time == TimeOf(spans, j, bs[q].opens)
    {
      BoundaryTime(spans, ids, bs, q);
      TimesAscend(bs, q, p - 1);
    }
    hide BoundariesOf, IdsOk, Sorted;
  }

  function TimeOf(spans: seq<Span>, j: nat, opens: bool): int
    requires j < |spans|
  {
    if opens then spans[j].start else End(spans[j])
  }

  lemma BoundaryTime(spans: seq<Span>, ids: seq<nat>, bs: seq<Boundary>, q: nat)
    requires IdsOk(spans, ids) && BoundariesOf(spans, ids, bs) && q < |bs|
    ensures bs[q].id < |spans| && bs[q].time == TimeOf(spans, bs[q].id, bs[q].opens)
  {
    assert IsBoundary(spans, ids, bs[q]);
  }

  /** Between two consecutive boundary times exactly the opened and not yet closed spans cover an instant. */
  lemma CoverBetween(spans: seq<Span>, ids: seq<nat>, bs: seq<Boundary>, p: nat, x: int, j: nat)
    requires IdsOk(spans, ids) && BoundariesOf(spans, ids, bs) && 0 < p < |bs| && bs[p-1].time <= x < bs[p].time
    requires j in ids
    ensures Covers(spans[j], x) <==> Opened(bs, p, j) && !Closed(bs, p, j)
  {
    OpenedByTime(spans, ids, bs, p, j);
    var o :| 0 <= o < |bs| && bs[o] == Opening(spans, j);
    var c :| 0 <= c < |bs| && bs[c] == Closing(spans, j);
    BoundaryBefore(bs, p, o);
    BoundaryBefore(bs, p, c);
    if c >= p { TimesAscend(bs, p, c); }
    if o >= p { TimesAscend(bs, p, o); }
    hide BoundariesOf, Opened, Closed, IdsOk;
  }

  /** What the heap must hold before boundary p. */
  ghost predicate HeapHolds(bs: seq<Boundary>, p: nat, heap: seq<nat>, ended: set<nat>)
    requires p <= |bs|
  {
    && (forall j :: j in heap ==> Opened(bs, p, j))
    && (forall j :: Opened(bs, p, j) ==> j in heap || j in ended)
    && (forall j :: j in ended <==> Closed(bs, p, j))
  }

  /** The top of the heap, once ended spans are popped off it, owns every instant up to the next boundary. */
  lemma TopOwns(spans: seq<Span>, ids: seq<nat>, bs: seq<Boundary>, p: nat, heap: seq<nat>, ended: set<nat>, x: int,
        k: nat)
    requires IdsOk(spans, ids) && BoundariesOf(spans, ids, bs) && 0 < p < |bs| && bs[p-1].time <= x < bs[p].time
    requires HeapOk(spans, ids, heap) && HeapHolds(bs, p, heap, ended) && (heap != [] ==> heap[0] !in ended)
    ensures Owns(spans, ids, k, x) <==> heap != [] && k == heap[0]
  {
    forall j | j in ids ensures Covers(spans[j], x) <==> Opened(bs, p, j) && !Closed(bs, p, j) {
      CoverBetween(spans, ids, bs, p, x, j);
    }
    hide BoundariesOf, Covers, Opened, Closed, Inner;
    if heap != [] {
      assert heap[0] in ids && Covers(spans[heap[0]], x);
      forall j | j in ids && j != heap[0] && Covers(spans[j], x) ensures Inner(spans, heap[0], j) {
        assert j in heap;
      }
      assert Owns(spans, ids, heap[0], x);
      if Owns(spans, ids, k, x) { OneOwner(spans, ids, x, k, heap[0]); }
    }
  }

  /** The account up to boundary p: each span has been credited with what it owns so far. */
  ghost predicate Credited(spans: seq<Span>, ids: seq<nat>, before: map<nat, int>, owned: map<nat, int>, lo: int,
        hi: int)
    requires IdsOk(spans, ids)
  {
    forall k :: Owned(owned, k) == Owned(before, k) + OwnedIn(spans, ids, k, lo, hi)
  }

  lemma CreditStretch(spans: seq<Span>, ids: seq<nat>, bs: seq<Boundary>, p: nat, heap: seq<nat>, ended: set<nat>,
                      before: map<nat, int>, owned: map<nat, int>, lo: int)
    requires IdsOk(spans, ids) && BoundariesOf(spans, ids, bs) && 0 < p < |bs| && lo <= bs[p-1].time < bs[p].time
    requires HeapOk(spans, ids, heap) && HeapHolds(bs, p, heap, ended) && (heap != [] ==> heap[0] !in ended)
    requires Credited(spans, ids, before, owned, lo, bs[p-1].time)
    ensures heap != [] ==>
      Credited(spans, ids, before, owned[heap[0] := Owned(owned, heap[0]) + (bs[p].time - bs[p-1].time)], lo,
        bs[p].time)
    ensures heap == [] ==> Credited(spans, ids, before, owned, lo, bs[p].time)
  {
    forall k: nat
      ensures OwnedIn(spans, ids, k, lo, bs[p].time)
           == OwnedIn(spans, ids, k, lo, bs[p-1].time)
             + if heap != [] && k == heap[0] then bs[p].time - bs[p-1].time else 0
    {
      hide BoundariesOf, HeapOk, HeapHolds, Owns, OwnedIn;
      OwnedSplits(spans, ids, k, lo, bs[p-1].time, bs[p].time);
      forall x | bs[p-1].time <= x < bs[p].time ensures Owns(spans, ids, k, x) == (heap != [] && k == heap[0]) {
        TopOwns(spans, ids, bs, p, heap, ended, x, k);
      }
      OwnedUniform(spans, ids, k, bs[p-1].time, bs[p].time, heap != [] && k == heap[0]);
    }
    hide BoundariesOf, HeapOk, HeapHolds, OwnedIn;
  }

  /** Popping ended spans off the top. */
  method PopEnded(spans: seq<Span>, ids: seq<nat>, heap: seq<nat>, ended: set<nat>) returns (out: seq<nat>)
    requires IdsOk(spans, ids) && HeapOk(spans, ids, heap)
    ensures HeapOk(spans, ids, out) && (out != [] ==> out[0] !in ended)
    ensures forall j :: j in out ==> j in heap
    ensures forall j :: j in heap ==> j in out || j in ended
  {
    out := heap;
    while out != [] && out[0] in ended
      invariant HeapOk(spans, ids, out)
      invariant forall j :: j in out ==> j in heap
      invariant forall j :: j in heap ==> j in out || j in ended
      decreases |out|
    {
      assert out == [out[0]] + out[1..];
      out := out[1..];
    }
  }

  lemma OneMore(bs: seq<Boundary>, p: nat, j: nat)
    requires p < |bs|
    ensures Opened(bs, p + 1, j) <==> Opened(bs, p, j) || (bs[p].opens && bs[p].id == j)
    ensures Closed(bs, p + 1, j) <==> Closed(bs, p, j) || (!bs[p].opens && bs[p].id == j)
  {
    if Opened(bs, p + 1, j) {
      var q :| 0 <= q < p + 1 && bs[q].opens && bs[q].id == j;
    }
    if Closed(bs, p + 1, j) {
      var q :| 0 <= q < p + 1 && !bs[q].opens && bs[q].id == j;
    }
  }

  /** A span opens once. */
  lemma OpensOnce(spans: seq<Span>, ids: seq<nat>, bs: seq<Boundary>, p: nat)
    requires IdsOk(spans, ids) && BoundariesOf(spans, ids, bs) && p < |bs| && bs[p].opens
    ensures !Opened(bs, p, bs[p].id)
  {
    assert IsBoundary(spans, ids, bs[p]);
    forall q | 0 <= q < p && bs[q].opens ensures bs[q].id != bs[p].id {
      assert IsBoundary(spans, ids, bs[q]);
      assert Before(bs[q], bs[p]);
    }
  }

  /** Processing boundary p. */
  lemma HeapStep(bs: seq<Boundary>, p: nat, heap: seq<nat>, heap': seq<nat>, ended: set<nat>)
    requires p < |bs| && HeapHolds(bs, p, heap, ended)
    requires forall j :: j in heap' <==> j in heap || (bs[p].opens && j == bs[p].id)
    ensures HeapHolds(bs, p + 1, heap', if bs[p].opens then ended else ended + {bs[p].id})
  {
    forall j: nat
      ensures Opened(bs, p + 1, j) <==> Opened(bs, p, j) || (bs[p].opens && bs[p].id == j)
      ensures Closed(bs, p + 1, j) <==> Closed(bs, p, j) || (!bs[p].opens && bs[p].id == j)
    {
      OneMore(bs, p, j);
    }
    hide Opened, Closed;
  }

  predicate Positive(owned: map<nat, int>) {
    forall k :: k in owned ==> owned[k] > 0
  }

  lemma PoppedHolds(bs: seq<Boundary>, p: nat, heap: seq<nat>, popped: seq<nat>, ended: set<nat>)
    requires p <= |bs| && HeapHolds(bs, p, heap, ended)
    requires forall j :: j in popped ==> j in heap
    requires forall j :: j in heap ==> j in popped || j in ended
    ensures HeapHolds(bs, p, popped, ended)
  {
  }

  lemma NothingCredited(spans: seq<Span>, ids: seq<nat>, owned: map<nat, int>, lo: int)
    requires IdsOk(spans, ids)
    ensures Credited(spans, ids, owned, owned, lo, lo)
  {
  }

  /** The stretch up to boundary p, when time has passed since the previous one. */
  method CreditTop(spans: seq<Span>, ids: seq<nat>, ghost bs: seq<Boundary>, ghost p: nat, heap: seq<nat>,
        ended: set<nat>, ghost before: map<nat, int>, owned: map<nat, int>, ns: int)
    returns (heap': seq<nat>, owned': map<nat, int>)
    requires IdsOk(spans, ids) && BoundariesOf(spans, ids, bs) && 0 < p < |bs|
    requires bs[0].time <= bs[p-1].time < bs[p].time
    requires HeapOk(spans, ids, heap) && HeapHolds(bs, p, heap, ended) && Positive(owned)
    requires ns == bs[p].time - bs[p-1].time
    requires Credited(spans, ids, before, owned, bs[0].time, bs[p-1].time)
    ensures HeapOk(spans, ids, heap') && HeapHolds(bs, p, heap', ended) && Positive(owned')
    ensures Credited(spans, ids, before, owned', bs[0].time, bs[p].time)
  {
    heap' := PopEnded(spans, ids, heap, ended);
    PoppedHolds(bs, p, heap, heap', ended);
    hide BoundariesOf, HeapOk, HeapHolds, Credited;
    CreditStretch(spans, ids, bs, p, heap', ended, before, owned, bs[0].time);
    owned' := if heap' != [] then owned[heap'[0] := Owned(owned, heap'[0]) + ns] else owned;
  }

  /** One thread: every span is credited with the instants it owns between the first and the last boundary. */
  method SweepBoundaries(spans: seq<Span>, ids: seq<nat>, bs: seq<Boundary>, before: map<nat, int>)
    returns (owned: map<nat, int>)
    requires IdsOk(spans, ids) && BoundariesOf(spans, ids, bs) && Positive(before)
    ensures bs == [] ==> owned == before
    ensures bs != [] ==> Credited(spans, ids, before, owned, bs[0].time, bs[|bs|-1].time)
    ensures Positive(owned)
  {
    owned := before;
    var heap: seq<nat> := [];
    var ended: set<nat> := {};
    var prev := Never;
    var p := 0;
    hide BoundariesOf, HeapOk, Credited, Opened, Closed, IdsOk, Positive;
    assert HeapOk(spans, ids, []) by { HeapEmpty(spans, ids); }
    assert HeapHolds(bs, 0, [], {}) by { NothingOpened(bs); }
    while p < |bs|
      invariant 0 <= p <= |bs|
      invariant HeapOk(spans, ids, heap) && HeapHolds(bs, p, heap, ended) && Positive(owned)
      invariant if p == 0 then prev == Never && owned == before
                else prev == At(bs[p-1].time) && Credited(spans, ids, before, owned, bs[0].time, bs[p-1].time)
    {
      var b := bs[p];
      assert Sorted(bs) && IsBoundary(spans, ids, b) by { BoundariesFacts(spans, ids, bs, p); }
      if p == 0 {
        NothingCredited(spans, ids, owned, b.time);
      } else {
        TimesAscend(bs, 0, p - 1);
        TimesAscend(bs, p - 1, p);
      }
      if prev.At? && b.time > prev.time {
        heap, owned := CreditTop(spans, ids, bs, p, heap, ended, before, owned, b.time - prev.time);
      }
      prev := At(b.time);
      ghost var heap0, ended0 := heap, ended;
      if b.opens {
        OpensOnce(spans, ids, bs, p);
        heap := HeapPush(spans, ids, heap, b.id);
      } else {
        ended := ended + {b.id};
      }
      HeapStep(bs, p, heap0, heap, ended0);
      p := p + 1;
    }
  }

  lemma HeapEmpty(spans: seq<Span>, ids: seq<nat>)
    requires IdsOk(spans, ids)
    ensures HeapOk(spans, ids, [])
  {
  }

  lemma NothingOpened(bs: seq<Boundary>)
    ensures HeapHolds(bs, 0, [], {})
  {
  }

  lemma BoundariesFacts(spans: seq<Span>, ids: seq<nat>, bs: seq<Boundary>, p: nat)
    requires IdsOk(spans, ids) && BoundariesOf(spans, ids, bs) && p < |bs|
    ensures Sorted(bs) && IsBoundary(spans, ids, bs[p])
  {
  }
}
