/** The event-point graph of src/analysis/cp_model.py as src/analysis/cp_attribution.py reads it: node 2i is the
    start and 2i+1 the end of span i; edges are listed in arrays, with the edges into each node in one row. */
module EventGraph {
  import opened Options
  import opened ClockGraph

  datatype Mode = Busy | Wait | Gap | Idle | Dep | Unknown

  /** lane: the edge's kind is a thread's, a device operation's own or its stream's order. owner: the span whose
      time the edge is, -1 for none. uncertainty: the largest clock offset between two domains, when clocks were
      analyzed. */
  datatype Graph = Graph(
    n: nat, t: seq<int>,
    src: seq<nat>, dst: seq<nat>, mode: seq<Mode>, lane: seq<bool>, owner: seq<int>, d: seq<int>, enabled: seq<bool>,
    inPtr: seq<nat>, inIdx: seq<nat>, order: seq<nat>,
    release: seq<int>, gated: seq<bool>, excluded: seq<bool>, domain: seq<nat>,
    uncertainty: Option<map<(nat, nat), Ns>>)

  predicate RowOk(g: Graph, v: nat) {
    v + 1 < |g.inPtr| && g.inPtr[v] <= g.inPtr[v + 1] <= |g.inIdx|
  }

  /** The edges into a node. */
  function In(g: Graph, v: nat): seq<nat>
    requires RowOk(g, v)
  {
    g.inIdx[g.inPtr[v]..g.inPtr[v + 1]]
  }

  predicate EdgeOk(g: Graph, e: nat) {
    && e < |g.src| && e < |g.dst| && e < |g.mode| && e < |g.lane| && e < |g.owner| && e < |g.d| && e < |g.enabled|
    && g.src[e] < 2 * g.n && g.dst[e] < 2 * g.n
    && (g.mode[e] == Busy || g.mode[e] == Wait ==> 0 <= g.owner[e] < g.n)
  }

  ghost predicate WellFormed(g: Graph) {
    && |g.t| == 2 * g.n && |g.release| == |g.gated| == |g.excluded| == |g.domain| == g.n
    && (forall v :: 0 <= v < 2 * g.n ==> RowOk(g, v))
    && (forall v, k :: 0 <= v < 2 * g.n && RowOk(g, v) && 0 <= k < |In(g, v)| ==>
      EdgeOk(g, In(g, v)[k]) && g.dst[In(g, v)[k]] == v)
    && (forall p :: 0 <= p < |g.order| ==> g.order[p] < 2 * g.n)
  }

  ghost predicate EdgesOk(g: Graph, es: seq<nat>) {
    forall k :: 0 <= k < |es| ==> EdgeOk(g, es[k])
  }

  function Row(g: Graph, v: nat): (es: seq<nat>)
    requires WellFormed(g) && v < 2 * g.n
    ensures EdgesOk(g, es) && forall k :: 0 <= k < |es| ==> g.dst[es[k]] == v
  {
    In(g, v)
  }
}
