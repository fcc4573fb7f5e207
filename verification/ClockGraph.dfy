/** Difference constraints between clock domains as a weighted graph, and the
    shortest-path search over them: src/analysis/cp_clock.py, `_shortest`.

    Weights are integer nanoseconds, so the source's half-nanosecond tolerance
    is exactly the strict comparison used here. */
module ClockGraph {

  /** A nanosecond quantity that may be infinite. */
  datatype Ns = Inf | Fin(val: int)

  /** The constraint x[v] <= x[u] + w. */
  datatype Edge = Edge(u: nat, v: nat, w: int)

  /** What a search returns: distances, or the edge indices of a cycle. */
  datatype Outcome = Distances(d: seq<Ns>) | Cycle(ks: seq<nat>)

  ghost predicate InRange(n: nat, edges: seq<Edge>) {
    forall k :: 0 <= k < |edges| ==> edges[k].u < n && edges[k].v < n
  }

  ghost predicate Satisfies(x: seq<int>, edges: seq<Edge>)
    requires InRange(|x|, edges)
  {
    forall k :: 0 <= k < |edges| ==> x[edges[k].v] <= x[edges[k].u] + edges[k].w
  }

  ghost predicate Feasible(n: nat, edges: seq<Edge>)
    requires InRange(n, edges)
  {
    exists x: seq<int> :: |x| == n && Satisfies(x, edges)
  }

  predicate Relaxable(d: seq<Ns>, e: Edge)
    requires e.u < |d| && e.v < |d|
  {
    d[e.u].Fin? && (d[e.v].Inf? || d[e.u].val + e.w < d[e.v].val)
  }

  // ---- walks ----

  ghost function Weight(edges: seq<Edge>, p: seq<nat>): int
    requires forall i :: 0 <= i < |p| ==> p[i] < |edges|
  {
    if p == [] then 0 else Weight(edges, p[..|p|-1]) + edges[p[|p|-1]].w
  }

  /** The edge indices p lead from a to b. */
  ghost predicate IsWalk(edges: seq<Edge>, a: nat, p: seq<nat>, b: nat) {
    if p == [] then a == b
    else
      var k := p[|p|-1];
      k < |edges| && edges[k].v == b && IsWalk(edges, a, p[..|p|-1], edges[k].u)
  }

  /** A walk only uses indices of edges. */
  lemma {:induction false} WalkIndices(edges: seq<Edge>, a: nat, p: seq<nat>, b: nat)
    requires IsWalk(edges, a, p, b)
    ensures forall i :: 0 <= i < |p| ==> p[i] < |edges|
  {
    if p != [] { WalkIndices(edges, a, p[..|p|-1], edges[p[|p|-1]].u); }
  }

  /** A walk of the given weight. */
  ghost predicate WalkOf(edges: seq<Edge>, a: nat, p: seq<nat>, b: nat, w: int) {
    IsWalk(edges, a, p, b) && (WalkIndices(edges, a, p, b); Weight(edges, p) == w)
  }

  ghost predicate Reaches(edges: seq<Edge>, a: nat, b: nat) {
    exists p :: IsWalk(edges, a, p, b)
  }

  /** d[b] is the weight of the lightest walk from s to b, infinite where there is none. */
  ghost predicate ShortestFrom(edges: seq<Edge>, s: nat, d: seq<Ns>) {
    forall b :: 0 <= b < |d| ==>
      && (d[b].Inf? ==> !Reaches(edges, s, b))
      && (d[b].Fin? ==>
            && (exists p :: WalkOf(edges, s, p, b, d[b].val))
            && (forall p, w :: WalkOf(edges, s, p, b, w) ==> d[b].val <= w))
  }

  /** Distances no edge can improve bound every walk from a finite node. */
  lemma {:induction false} ClosedBoundsWalks(n: nat, edges: seq<Edge>, d: seq<Ns>, a: nat, p: seq<nat>, b: nat, w: int)
    requires InRange(n, edges) && |d| == n && a < n && b < n
    requires forall k :: 0 <= k < |edges| ==> !Relaxable(d, edges[k])
    requires d[a].Fin? && WalkOf(edges, a, p, b, w)
    ensures d[b].Fin? && d[b].val <= d[a].val + w
  {
    if p != [] {
      var k := p[|p|-1];
      ClosedBoundsWalks(n, edges, d, a, p[..|p|-1], edges[k].u, w - edges[k].w);
      assert !Relaxable(d, edges[k]);
    }
  }

  // ---- cycles, listed backwards as the search collects them ----

  function Next(L: nat, i: nat): nat
    requires i < L
  {
    if i + 1 == L then 0 else i + 1
  }

  /** Edge indices that close up: each edge starts where the next one in the list ends, and no
      node is passed twice. */
  ghost predicate IsCycle(edges: seq<Edge>, ks: seq<nat>) {
    && |ks| > 0
    && (forall i :: 0 <= i < |ks| ==> ks[i] < |edges|)
    && (forall i, j :: 0 <= i < |ks| && 0 <= j < |ks| && j == Next(|ks|, i) ==> edges[ks[i]].u == edges[ks[j]].v)
    && (forall i, j :: 0 <= i < j < |ks| ==> edges[ks[i]].v != edges[ks[j]].v)
  }

  /** Each edge starts where the next one in the list ends. */
  ghost predicate Linear(edges: seq<Edge>, ks: seq<nat>)
    requires forall i :: 0 <= i < |ks| ==> ks[i] < |edges|
  {
    forall i, j :: 0 <= i < |ks| && 0 <= j < |ks| && j == i + 1 ==> edges[ks[i]].u == edges[ks[j]].v
  }

  ghost predicate NegativeCycle(edges: seq<Edge>, ks: seq<nat>) {
    IsCycle(edges, ks) && Weight(edges, ks) < 0
  }

  /** Summing the slack of each edge in turn: x telescopes. */
  lemma {:induction false} Telescope(edges: seq<Edge>, ks: seq<nat>, x: seq<int>, m: nat)
    requires InRange(|x|, edges) && 0 < m <= |ks|
    requires forall i :: 0 <= i < |ks| ==> ks[i] < |edges|
    requires Linear(edges, ks)
    requires forall i :: 0 <= i < m ==> x[edges[ks[i]].v] <= x[edges[ks[i]].u] + edges[ks[i]].w
    ensures x[edges[ks[0]].v] <= x[edges[ks[m-1]].u] + Weight(edges, ks[..m])
  {
    assert ks[..m][..m-1] == ks[..m-1];
    if m > 1 { Telescope(edges, ks, x, m - 1); }
  }

  /** A negative cycle refutes every assignment. */
  lemma NegativeCycleInfeasible(n: nat, edges: seq<Edge>, ks: seq<nat>)
    requires InRange(n, edges) && NegativeCycle(edges, ks)
    ensures !Feasible(n, edges)
  {
    forall x: seq<int> | |x| == n && Satisfies(x, edges) ensures false {
      assert ks[..|ks|] == ks && edges[ks[|ks|-1]].u == edges[ks[0]].v;
      Telescope(edges, ks, x, |ks|);
    }
  }
}
