/** What shortest distances from the reference say about every feasible
    assignment: the intervals of src/analysis/cp_clock.py, `solve`, are exact. */
module ClockBounds {
  import opened ClockGraph

  /** Meets every edge, with the reference at 0. */
  ghost predicate Anchored(x: seq<int>, n: nat, edges: seq<Edge>, s: nat)
    requires InRange(n, edges) && s < n
  {
    |x| == n && Satisfies(x, edges) && x[s] == 0
  }

  function Reversed(edges: seq<Edge>): (r: seq<Edge>)
    ensures |r| == |edges|
  {
    seq(|edges|, k requires 0 <= k < |edges| => Edge(edges[k].v, edges[k].u, edges[k].w))
  }

  function Negated(x: seq<int>): (r: seq<int>)
    ensures |r| == |x|
  {
    seq(|x|, i requires 0 <= i < |x| => -x[i])
  }

  /** Negating an assignment reverses its constraints. */
  lemma ReversedAnchored(x: seq<int>, n: nat, edges: seq<Edge>, s: nat)
    requires InRange(n, edges) && s < n && |x| == n
    ensures InRange(n, Reversed(edges))
    ensures Anchored(Negated(x), n, Reversed(edges), s) <==> Anchored(x, n, edges, s)
  {
    var r, y := Reversed(edges), Negated(x);
    forall k | 0 <= k < |edges|
      ensures y[r[k].v] <= y[r[k].u] + r[k].w <==> x[edges[k].v] <= x[edges[k].u] + edges[k].w
    {}
  }

  lemma {:induction false} WalkBoundsAssignment(x: seq<int>, n: nat, edges: seq<Edge>, a: nat, p: seq<nat>, b: nat,
        w: int)
    requires InRange(n, edges) && |x| == n && a < n && b < n && Satisfies(x, edges) && WalkOf(edges, a, p, b, w)
    ensures x[b] <= x[a] + w
  {
    if p != [] {
      var k := p[|p|-1];
      WalkBoundsAssignment(x, n, edges, a, p[..|p|-1], edges[k].u, w - edges[k].w);
    }
  }

  /** Every feasible assignment stays below the distances. */
  lemma UpperSound(x: seq<int>, n: nat, edges: seq<Edge>, s: nat, d: seq<Ns>)
    requires InRange(n, edges) && s < n && |d| == n && ShortestFrom(edges, s, d)
    requires Anchored(x, n, edges, s)
    ensures forall i :: 0 <= i < n && d[i].Fin? ==> x[i] <= d[i].val
  {
    forall i | 0 <= i < n && d[i].Fin? ensures x[i] <= d[i].val {
      var p :| WalkOf(edges, s, p, i, d[i].val);
      WalkBoundsAssignment(x, n, edges, s, p, i, d[i].val);
    }
  }

  /** An offset that lifts f above every finite distance by any edge, and above `floor`. */
  lemma {:induction false} Lift(n: nat, edges: seq<Edge>, f: seq<int>, d: seq<Ns>, floor: int, m: nat)
    returns (big: int)
    requires InRange(n, edges) && |f| == |d| == n && m <= n
    ensures forall k :: 0 <= k < |edges| && d[edges[k].v].Fin? ==> d[edges[k].v].val <= f[edges[k].u] + big + edges[k].w
    ensures forall i :: 0 <= i < m ==> floor <= f[i] + big
    decreases |edges| + m
  {
    if edges != [] {
      var last := |edges| - 1;
      var e := edges[last];
      var b := Lift(n, edges[..last], f, d, floor, m);
      var need := if d[e.v].Fin? then d[e.v].val - f[e.u] - e.w else b;
      big := if need > b then need else b;
      forall k | 0 <= k < |edges| && d[edges[k].v].Fin?
        ensures d[edges[k].v].val <= f[edges[k].u] + big + edges[k].w
      { assert k < last ==> edges[k] == edges[..last][k]; }
    } else if m > 0 {
      var b := Lift(n, edges, f, d, floor, m - 1);
      big := if floor - f[m-1] > b then floor - f[m-1] else b;
    } else {
      big := 0;
    }
  }

  /** The distances are attained, all at once, and an infinite one is no bound at all. */
  lemma UpperTight(n: nat, edges: seq<Edge>, s: nat, d: seq<Ns>, floor: int) returns (x: seq<int>)
    requires InRange(n, edges) && s < n && |d| == n && ShortestFrom(edges, s, d) && d[s] == Fin(0)
    requires forall k :: 0 <= k < |edges| ==> !Relaxable(d, edges[k])
    requires Feasible(n, edges)
    ensures Anchored(x, n, edges, s)
    ensures forall i :: 0 <= i < n ==> if d[i].Fin? then x[i] == d[i].val else x[i] >= floor
  {
    var f: seq<int> :| |f| == n && Satisfies(f, edges);
    var big := Lift(n, edges, f, d, floor, n);
    x := seq(n, i requires 0 <= i < n => if d[i].Fin? then d[i].val else f[i] + big);
    forall k | 0 <= k < |edges| ensures x[edges[k].v] <= x[edges[k].u] + edges[k].w {
      assert f[edges[k].v] <= f[edges[k].u] + edges[k].w && !Relaxable(d, edges[k]);
    }
  }

  // ---- exact intervals ----

  function NegatedNs(d: seq<Ns>): (r: seq<Ns>)
    ensures |r| == |d|
  {
    seq(|d|, i requires 0 <= i < |d| => if d[i].Fin? then Fin(-d[i].val) else Inf)
  }

  /** x lies between the ends; an infinite end does not bound. */
  ghost predicate Between(x: seq<int>, lo: seq<Ns>, hi: seq<Ns>) {
    forall i :: 0 <= i < |x| && i < |lo| && i < |hi| ==>
      (hi[i].Fin? ==> x[i] <= hi[i].val) && (lo[i].Fin? ==> lo[i].val <= x[i])
  }

  /** x is at every finite upper end at once, and beyond `far` where there is none. */
  ghost predicate AtUpper(x: seq<int>, hi: seq<Ns>, far: int) {
    |x| == |hi| && forall i :: 0 <= i < |x| ==> if hi[i].Fin? then x[i] == hi[i].val else x[i] >= far
  }

  ghost predicate AtLower(x: seq<int>, lo: seq<Ns>, far: int) {
    |x| == |lo| && forall i :: 0 <= i < |x| ==> if lo[i].Fin? then x[i] == lo[i].val else x[i] <= -far
  }

  ghost predicate UpperReached(n: nat, edges: seq<Edge>, s: nat, hi: seq<Ns>, far: int)
    requires InRange(n, edges) && s < n
  {
    exists x :: Anchored(x, n, edges, s) && AtUpper(x, hi, far)
  }

  ghost predicate LowerReached(n: nat, edges: seq<Edge>, s: nat, lo: seq<Ns>, far: int)
    requires InRange(n, edges) && s < n
  {
    exists x :: Anchored(x, n, edges, s) && AtLower(x, lo, far)
  }

  /** Every solution lies between the ends, and both ends are tight. */
  ghost predicate Exact(n: nat, edges: seq<Edge>, s: nat, lo: seq<Ns>, hi: seq<Ns>)
    requires InRange(n, edges) && s < n
  {
    && |lo| == |hi| == n
    && (forall x :: Anchored(x, n, edges, s) ==> Between(x, lo, hi))
    && (forall far: int :: UpperReached(n, edges, s, hi, far))
    && (forall far: int :: LowerReached(n, edges, s, lo, far))
  }

  lemma ReversedFeasible(n: nat, edges: seq<Edge>)
    requires InRange(n, edges) && Feasible(n, edges)
    ensures InRange(n, Reversed(edges)) && Feasible(n, Reversed(edges))
  {
    var x: seq<int> :| |x| == n && Satisfies(x, edges);
    var r, y := Reversed(edges), Negated(x);
    forall k | 0 <= k < |r| ensures y[r[k].v] <= y[r[k].u] + r[k].w {
      assert x[edges[k].v] <= x[edges[k].u] + edges[k].w;
    }
    assert Satisfies(y, r);
  }

  /** No edge improves the distances. */
  ghost predicate Closed(n: nat, edges: seq<Edge>, d: seq<Ns>)
    requires InRange(n, edges) && |d| == n
  {
    forall k :: 0 <= k < |edges| ==> !Relaxable(d, edges[k])
  }

  /** Distances from the reference, and to it, are the ends. */
  lemma ShortestExact(n: nat, edges: seq<Edge>, s: nat, d: seq<Ns>, back: seq<Ns>)
    requires InRange(n, edges) && InRange(n, Reversed(edges)) && s < n && |d| == |back| == n && Feasible(n, edges)
    requires ShortestFrom(edges, s, d) && Closed(n, edges, d) && d[s] == Fin(0)
    requires ShortestFrom(Reversed(edges), s, back) && Closed(n, Reversed(edges), back) && back[s] == Fin(0)
    ensures Exact(n, edges, s, NegatedNs(back), d)
  {
    var rev, lo := Reversed(edges), NegatedNs(back);
    ReversedFeasible(n, edges);
    forall x | Anchored(x, n, edges, s) ensures Between(x, lo, d) {
      UpperSound(x, n, edges, s, d);
      ReversedAnchored(x, n, edges, s);
      UpperSound(Negated(x), n, rev, s, back);
      assert forall i :: 0 <= i < n ==> Negated(x)[i] == -x[i];
    }
    forall far: int ensures UpperReached(n, edges, s, d, far) {
      var x := UpperTight(n, edges, s, d, far);
      assert AtUpper(x, d, far);
    }
    forall far: int ensures LowerReached(n, edges, s, lo, far) {
      var y := UpperTight(n, rev, s, back, far);
      var x := Negated(y);
      assert Negated(x) == y;
      ReversedAnchored(x, n, edges, s);
      assert AtLower(x, lo, far);
    }
  }
}
