/** Replaying a recording with some busy time scaled: `residuals` and `replay` of src/analysis/cp_attribution.py. */
module Replay {
  import opened Options
  import opened EventGraph

  /** A span's factor; a span without one keeps its durations. */
  function Factor(scale: map<int, real>, j: int): real {
    if j in scale then scale[j] else 1.0
  }

  /** The time an edge needs (`_delta`). */
  function Delta(g: Graph, e: nat, scale: map<int, real>): real
    requires EdgeOk(g, e)
  {
    match g.mode[e]
    case Busy => g.d[e] as real * Factor(scale, g.owner[e])
    case Gap => g.d[e] as real
    case Unknown => g.d[e] as real
    case _ => 0.0
  }

  /** The same as recorded. */
  function Recorded(g: Graph, e: nat): int
    requires EdgeOk(g, e)
  {
    if g.mode[e] in {Busy, Gap, Unknown} then g.d[e] else 0
  }

  lemma DeltaRecorded(g: Graph, e: nat)
    requires EdgeOk(g, e)
    ensures Delta(g, e, map[]) == Recorded(g, e) as real
  {
  }

  /** The latest time the first k of the edges allow, if any is enabled. */
  function Latest(g: Graph, scale: map<int, real>, tp: seq<real>, es: seq<nat>, k: nat): Option<real>
    requires EdgesOk(g, es) && |tp| == 2 * g.n && k <= |es|
  {
    if k == 0 then None else
    var before := Latest(g, scale, tp, es, k - 1);
    if !g.enabled[es[k-1]] then before else
    var y := tp[g.src[es[k-1]]] + Delta(g, es[k-1], scale);
    if before.None? || y > before.value then Some(y) else before
  }

  /** The same in recorded time. */
  function LatestRecorded(g: Graph, es: seq<nat>, k: nat): Option<int>
    requires EdgesOk(g, es) && |g.t| == 2 * g.n && k <= |es|
  {
    if k == 0 then None else
    var before := LatestRecorded(g, es, k - 1);
    if !g.enabled[es[k-1]] then before else
    var y := g.t[g.src[es[k-1]]] + Recorded(g, es[k-1]);
    if before.None? || y > before.value then Some(y) else before
  }

  function Residual(g: Graph, v: nat): int
    requires WellFormed(g) && v < 2 * g.n
  {
    var best := LatestRecorded(g, Row(g, v), |Row(g, v)|);
    if best.None? then -1 else if g.t[v] > best.value then g.t[v] - best.value else 0
  }

  ghost predicate AreResiduals(g: Graph, res: seq<int>)
    requires WellFormed(g)
  {
    |res| == 2 * g.n && forall v :: 0 <= v < 2 * g.n ==> res[v] == if v in g.order then Residual(g, v) else -1
  }

  method Residuals(g: Graph) returns (out: array<int>)
    requires WellFormed(g)
    ensures fresh(out) && AreResiduals(g, out[..])
  {
    out := new int[2 * g.n](_ => -1);
    var p := 0;
    while p < |g.order|
      invariant 0 <= p <= |g.order| && fresh(out)
      invariant forall v :: 0 <= v < 2 * g.n ==> out[v] == if v in g.order[..p] then Residual(g, v) else -1
    {
      var v := g.order[p];
      var es := Row(g, v);
      var best: Option<int> := None;
      var k := 0;
      while k < |es|
        invariant 0 <= k <= |es| && best == LatestRecorded(g, es, k)
      {
        var e := es[k];
        if g.enabled[e] {
          var x := g.t[g.src[e]] + Recorded(g, e);
          if best.None? || x > best.value { best := Some(x); }
        }
        k := k + 1;
      }
      if best.Some? {
        out[v] := if g.t[v] - best.value > 0 then g.t[v] - best.value else 0;
      }
      assert g.order[..p+1] == g.order[..p] + [v];
      p := p + 1;
    }
    assert g.order[..p] == g.order;
  }

  // ---- replay ----

  /** Nodes in an order in which every enabled edge points forward. */
  ghost predicate Topological(g: Graph)
    requires WellFormed(g)
  {
    && (forall p, q :: 0 <= p < q < |g.order| ==> g.order[p] != g.order[q])
    && (forall p, k :: 0 <= p < |g.order| && 0 <= k < |Row(g, g.order[p])| && g.enabled[Row(g, g.order[p])[k]] ==>
          g.src[Row(g, g.order[p])[k]] in g.order[..p])
  }

  /** An event happens when its latest predecessor allows, plus its residual. */
  function NodeTime(g: Graph, scale: map<int, real>, res: seq<int>, tp: seq<real>, v: nat): real
    requires WellFormed(g) && |res| == |tp| == 2 * g.n && v < 2 * g.n
  {
    if res[v] < 0 then g.t[v] as real else
    var x := Latest(g, scale, tp, Row(g, v), |Row(g, v)|);
    (if x.None? then 0.0 else x.value) + res[v] as real
  }

  ghost predicate IsReplay(g: Graph, scale: map<int, real>, res: seq<int>, tp: seq<real>)
    requires WellFormed(g)
  {
    |res| == |tp| == 2 * g.n
      && forall p :: 0 <= p < |g.order| ==> tp[g.order[p]] == NodeTime(g, scale, res, tp, g.order[p])
  }

  /** The end of the run: the latest event, or 0. */
  function End(g: Graph, tp: seq<real>, n: nat): real
    requires WellFormed(g) && |tp| == 2 * g.n && n <= |g.order|
  {
    if n == 0 then 0.0 else if tp[g.order[n-1]] > End(g, tp, n - 1) then tp[g.order[n-1]] else End(g, tp, n - 1)
  }

  lemma {:induction false} LatestFrame(g: Graph, scale: map<int, real>, tp: seq<real>, tq: seq<real>, es: seq<nat>,
        k: nat)
    requires EdgesOk(g, es) && |tp| == |tq| == 2 * g.n && k <= |es|
    requires forall j :: 0 <= j < k && g.enabled[es[j]] ==> tp[g.src[es[j]]] == tq[g.src[es[j]]]
    ensures Latest(g, scale, tp, es, k) == Latest(g, scale, tq, es, k)
  {
    if k > 0 { LatestFrame(g, scale, tp, tq, es, k - 1); }
  }

  /** Settling a later event leaves the earlier ones settled. */
  lemma SettledStays(g: Graph, scale: map<int, real>, res: seq<int>, tp: seq<real>, p: nat, q: nat, x: real)
    requires WellFormed(g) && Topological(g) && |res| == |tp| == 2 * g.n && q <= p < |g.order|
    ensures NodeTime(g, scale, res, tp[g.order[p] := x], g.order[q]) == NodeTime(g, scale, res, tp, g.order[q])
  {
    var v, w := g.order[p], g.order[q];
    var es := Row(g, w);
    forall j | 0 <= j < |es| && g.enabled[es[j]] ensures tp[v := x][g.src[es[j]]] == tp[g.src[es[j]]] {
      assert g.src[es[j]] in g.order[..q];
    }
    LatestFrame(g, scale, tp[v := x], tp, es, |es|);
  }

  lemma {:induction false} EndFrame(g: Graph, tp: seq<real>, tq: seq<real>, n: nat)
    requires WellFormed(g) && |tp| == |tq| == 2 * g.n && n <= |g.order|
    requires forall q :: 0 <= q < n ==> tp[g.order[q]] == tq[g.order[q]]
    ensures End(g, tp, n) == End(g, tq, n)
  {
    if n > 0 { EndFrame(g, tp, tq, n - 1); }
  }

  lemma SettleOne(g: Graph, scale: map<int, real>, res: seq<int>, tp: seq<real>, p: nat, x: real)
    requires WellFormed(g) && Topological(g) && |res| == |tp| == 2 * g.n && p < |g.order|
    requires forall q :: 0 <= q < p ==> tp[g.order[q]] == NodeTime(g, scale, res, tp, g.order[q])
    requires x == NodeTime(g, scale, res, tp, g.order[p])
    ensures forall q :: 0 <= q < p + 1 ==>
      tp[g.order[p] := x][g.order[q]] == NodeTime(g, scale, res, tp[g.order[p] := x], g.order[q])
    ensures End(g, tp[g.order[p] := x], p) == End(g, tp, p)
  {
    var tq := tp[g.order[p] := x];
    hide WellFormed, NodeTime;
    forall q | 0 <= q < p + 1 ensures tq[g.order[q]] == NodeTime(g, scale, res, tq, g.order[q]) {
      SettledStays(g, scale, res, tp, p, q, x);
    }
    EndFrame(g, tq, tp, p);
  }

  method LatestNow(g: Graph, scale: map<int, real>, tp: array<real>, es: seq<nat>) returns (best: Option<real>)
    requires EdgesOk(g, es) && tp.Length == 2 * g.n
    ensures best == Latest(g, scale, tp[..], es, |es|)
  {
    best := None;
    var k := 0;
    while k < |es|
      invariant 0 <= k <= |es| && best == Latest(g, scale, tp[..], es, k)
    {
      var e := es[k];
      if g.enabled[e] {
        var y := tp[g.src[e]] + Delta(g, e, scale);
        if best.None? || y > best.value { best := Some(y); }
      }
      k := k + 1;
    }
  }

  method TimeOf(g: Graph, scale: map<int, real>, res: array<int>, tp: array<real>, v: nat) returns (x: real)
    requires WellFormed(g) && v < 2 * g.n && res.Length == tp.Length == 2 * g.n
    ensures x == NodeTime(g, scale, res[..], tp[..], v)
  {
    x := g.t[v] as real;
    if res[v] >= 0 {
      var best := LatestNow(g, scale, tp, Row(g, v));
      x := (if best.None? then 0.0 else best.value) + res[v] as real;
    }
  }

  method Run(g: Graph, scale: map<int, real>, res: array<int>) returns (tp: array<real>, end: real)
    requires WellFormed(g) && Topological(g) && res.Length == 2 * g.n
    ensures fresh(tp) && IsReplay(g, scale, res[..], tp[..]) && end == End(g, tp[..], |g.order|)
  {
    tp := new real[2 * g.n](_ => 0.0);
    end := 0.0;
    var p := 0;
    forall q | 0 <= q < |g.order| ensures g.order[q] < 2 * g.n {}
    hide WellFormed, NodeTime, Topological;
    while p < |g.order|
      invariant 0 <= p <= |g.order| && fresh(tp) && tp.Length == 2 * g.n
      invariant forall q :: 0 <= q < p ==> tp[g.order[q]] == NodeTime(g, scale, res[..], tp[..], g.order[q])
      invariant end == End(g, tp[..], p)
    {
      var v := g.order[p];
      var x := TimeOf(g, scale, res, tp, v);
      ghost var tp0 := tp[..];
      tp[v] := x;
      assert tp[..] == tp0[v := x];
      SettleOne(g, scale, res[..], tp0, p, x);
      if x > end { end := x; }
      p := p + 1;
    }
  }

  // ---- what a replay keeps ----

  /** Every enabled edge into v fits between its recorded ends. */
  ghost predicate Fits(g: Graph, v: nat)
    requires WellFormed(g) && v < 2 * g.n
  {
    forall k :: 0 <= k < |Row(g, v)| && g.enabled[Row(g, v)[k]] ==>
      g.t[g.src[Row(g, v)[k]]] + Recorded(g, Row(g, v)[k]) <= g.t[v]
  }

  lemma {:induction false} LatestOfRecorded(g: Graph, tp: seq<real>, es: seq<nat>, k: nat)
    requires EdgesOk(g, es) && |tp| == |g.t| == 2 * g.n && k <= |es|
    requires forall j :: 0 <= j < k && g.enabled[es[j]] ==> tp[g.src[es[j]]] == g.t[g.src[es[j]]] as real
    ensures match LatestRecorded(g, es, k)
      case None => Latest(g, map[], tp, es, k) == None
      case Some(b) => Latest(g, map[], tp, es, k) == Some(b as real)
  {
    if k > 0 {
      LatestOfRecorded(g, tp, es, k - 1);
      DeltaRecorded(g, es[k-1]);
    }
  }

  /** The latest of the recorded arrivals bounds each of them and is one of them. */
  lemma {:induction false} LatestRecordedMeans(g: Graph, es: seq<nat>, k: nat, x: int)
    requires EdgesOk(g, es) && |g.t| == 2 * g.n && k <= |es|
    ensures LatestRecorded(g, es, k).None? <==> forall j :: 0 <= j < k ==> !g.enabled[es[j]]
    ensures LatestRecorded(g, es, k).Some? ==>
      (LatestRecorded(g, es, k).value <= x <==>
       forall j :: 0 <= j < k && g.enabled[es[j]] ==> g.t[g.src[es[j]]] + Recorded(g, es[j]) <= x)
  {
    if k > 0 { LatestRecordedMeans(g, es, k - 1, x); }
  }

  /** One event replays at its recorded time, its predecessors having done so, exactly when its edges fit. */
  lemma NodeReproduced(g: Graph, res: seq<int>, tp: seq<real>, v: nat)
    requires WellFormed(g) && AreResiduals(g, res) && |tp| == 2 * g.n && v in g.order && v < 2 * g.n
    requires forall k :: 0 <= k < |Row(g, v)| && g.enabled[Row(g, v)[k]] ==>
      tp[g.src[Row(g, v)[k]]] == g.t[g.src[Row(g, v)[k]]] as real
    ensures NodeTime(g, map[], res, tp, v) == g.t[v] as real <==> Fits(g, v)
  {
    var es := Row(g, v);
    LatestOfRecorded(g, tp, es, |es|);
    LatestRecordedMeans(g, es, |es|, g.t[v]);
    hide WellFormed, Recorded, Latest, LatestRecorded;
  }

  lemma Predecessors(g: Graph, tp: seq<real>, p: nat)
    requires WellFormed(g) && Topological(g) && |tp| == 2 * g.n && p < |g.order|
    requires forall q :: 0 <= q < p ==> tp[g.order[q]] == g.t[g.order[q]] as real
    ensures var es := Row(g, g.order[p]);
      forall k :: 0 <= k < |es| && g.enabled[es[k]] ==> tp[g.src[es[k]]] == g.t[g.src[es[k]]] as real
  {
    var es := Row(g, g.order[p]);
    forall k | 0 <= k < |es| && g.enabled[es[k]] ensures tp[g.src[es[k]]] == g.t[g.src[es[k]]] as real {
      assert g.src[es[k]] in g.order[..p];
    }
  }

  lemma OrderInRange(g: Graph, p: nat)
    requires WellFormed(g) && p < |g.order|
    ensures g.order[p] < 2 * g.n && |g.t| == 2 * g.n
  {
  }

  ghost predicate AsRecorded(g: Graph, tp: seq<real>, p: nat) {
    p <= |g.order|
      && forall q :: 0 <= q < p ==> g.order[q] < |tp| && g.order[q] < |g.t| && tp[g.order[q]] == g.t[g.order[q]] as real
  }

  ghost predicate PrefixFits(g: Graph, p: nat)
    requires WellFormed(g)
  {
    p <= |g.order| && forall q :: 0 <= q < p ==> Fits(g, g.order[q])
  }

  lemma NextReproduced(g: Graph, res: seq<int>, tp: seq<real>, p: nat)
    requires WellFormed(g) && Topological(g) && AreResiduals(g, res) && IsReplay(g, map[], res, tp) && p < |g.order|
    requires AsRecorded(g, tp, p)
    ensures tp[g.order[p]] == g.t[g.order[p]] as real <==> Fits(g, g.order[p])
  {
    OrderInRange(g, p);
    Predecessors(g, tp, p);
    NodeReproduced(g, res, tp, g.order[p]);
    assert tp[g.order[p]] == NodeTime(g, map[], res, tp, g.order[p]);
  }

  /** With nothing scaled the first p events replay as recorded exactly when the edges into them fit. */
  lemma {:induction false} PrefixReproduced(g: Graph, res: seq<int>, tp: seq<real>, p: nat)
    requires WellFormed(g) && Topological(g) && AreResiduals(g, res) && IsReplay(g, map[], res, tp) && p <= |g.order|
    ensures AsRecorded(g, tp, p) <==> PrefixFits(g, p)
  {
    hide WellFormed, Topological, AreResiduals, Fits;
    if p > 0 {
      OrderInRange(g, p - 1);
      PrefixReproduced(g, res, tp, p - 1);
      if AsRecorded(g, tp, p - 1) { NextReproduced(g, res, tp, p - 1); }
    }
  }

  /** Unchanged inputs reproduce the recording exactly when every enabled edge fits between its ends. */
  lemma ReplayReproduces(g: Graph, res: seq<int>, tp: seq<real>)
    requires WellFormed(g) && Topological(g) && AreResiduals(g, res) && IsReplay(g, map[], res, tp)
    ensures (forall v :: v in g.order ==> tp[v] == g.t[v] as real) <==> forall v :: v in g.order ==> Fits(g, v)
  {
    PrefixReproduced(g, res, tp, |g.order|);
    forall p | 0 <= p < |g.order| ensures g.order[p] in g.order && g.order[p] < 2 * g.n {}
    hide Fits, WellFormed, Topological, AreResiduals, NodeTime;
  }

  /** Two busy spans, [0, 5] and [3, 9], the second of which depends on the end of the first: the dependency's source
      lies after its destination, within the tolerance between clocks. */
  function ToleratedGraph(): Graph {
    Graph(2, [0, 5, 3, 9], [0, 2, 1], [1, 3, 2], [Busy, Busy, Dep], [true, true, false], [0, 1, -1], [5, 6, 0],
          [true, true, true], [0, 0, 1, 2, 3], [0, 2, 1], [0, 1, 2, 3], [-1, -1], [false, false], [false, false],
          [0, 1], None)
  }

  lemma ToleratedEdges()
    ensures var g := ToleratedGraph();
      && EdgeOk(g, 0) && EdgeOk(g, 1) && EdgeOk(g, 2) && g.dst[0] == 1 && g.dst[1] == 3 && g.dst[2] == 2
      && g.src[0] == 0 && g.src[1] == 2 && g.src[2] == 1
  {
  }

  function ToleratedIn(v: nat): seq<nat> {
    if v == 0 then [] else if v == 1 then [0] else if v == 2 then [2] else [1]
  }

  lemma ToleratedRow(v: nat)
    requires v < 4
    ensures RowOk(ToleratedGraph(), v) && In(ToleratedGraph(), v) == ToleratedIn(v)
  {
  }

  lemma ToleratedShape()
    ensures var g := ToleratedGraph();
      && g.n == 2 && |g.t| == 4 && |g.release| == |g.gated| == |g.excluded| == |g.domain| == 2 && |g.order| == 4
      && (forall p :: 0 <= p < 4 ==> g.order[p] == p)
      && g.order[..0] == [] && g.order[..1] == [0] && g.order[..2] == [0, 1] && g.order[..3] == [0, 1, 2]
  {
    forall p | 0 <= p < 4 ensures ToleratedGraph().order[p] == p { assert p == 0 || p == 1 || p == 2 || p == 3; }
  }

  lemma ToleratedRows()
    ensures WellFormed(ToleratedGraph()) && forall v: nat :: v < 4 ==> Row(ToleratedGraph(), v) == ToleratedIn(v)
  {
    ToleratedShape();
    ToleratedEdges();
    forall v: nat | v < 4
      ensures RowOk(ToleratedGraph(), v) && In(ToleratedGraph(), v) == ToleratedIn(v)
    {
      ToleratedRow(v);
    }
    hide ToleratedGraph, RowOk, In, EdgeOk;
  }

  lemma ToleratedOrder()
    requires WellFormed(ToleratedGraph())
    ensures Topological(ToleratedGraph()) && ToleratedGraph().order == [0, 1, 2, 3]
  {
    ToleratedShape();
    ToleratedEdges();
    ToleratedRows();
    hide ToleratedGraph, Row, WellFormed, EdgeOk;
  }

  lemma ToleratedMisfit()
    requires WellFormed(ToleratedGraph())
    ensures !Fits(ToleratedGraph(), 2)
  {
    ToleratedEdges();
    ToleratedRows();
    hide Row, WellFormed, EdgeOk;
    assert Row(ToleratedGraph(), 2)[0] == 2;
  }

  /** The dependency does not fit, so the replay moves the second span's start to 5: an unchanged replay is not always
      the recording. */
  lemma ToleratedEdgeMovesEvents(res: seq<int>, tp: seq<real>)
    requires WellFormed(ToleratedGraph()) && AreResiduals(ToleratedGraph(), res)
    requires IsReplay(ToleratedGraph(), map[], res, tp)
    ensures Topological(ToleratedGraph())
    ensures exists v :: v in ToleratedGraph().order && tp[v] != ToleratedGraph().t[v] as real
  {
    var g := ToleratedGraph();
    ToleratedOrder();
    ToleratedMisfit();
    assert g.order[2] == 2;
    hide ToleratedGraph, Row, WellFormed, IsReplay, AreResiduals;
    ReplayReproduces(g, res, tp);
  }

  // ---- less work never takes longer ----

  ghost predicate NoLarger(a: map<int, real>, b: map<int, real>) {
    forall j :: Factor(a, j) <= Factor(b, j)
  }

  lemma DeltaMonotone(g: Graph, e: nat, a: map<int, real>, b: map<int, real>)
    requires EdgeOk(g, e) && NoLarger(a, b) && (g.mode[e] == Busy ==> g.d[e] >= 0)
    ensures Delta(g, e, a) <= Delta(g, e, b)
  {
    if g.mode[e] == Busy {
      var x, y := Factor(a, g.owner[e]), Factor(b, g.owner[e]);
      Scaled(g.d[e] as real, x, y);
    }
  }

  lemma Scaled(d: real, x: real, y: real)
    requires d >= 0.0 && x <= y
    ensures d * x <= d * y
  {
    assert d * (y - x) >= 0.0;
  }

  lemma {:induction false} LatestMonotone(g: Graph, a: map<int, real>, b: map<int, real>, tp: seq<real>, tq: seq<real>,
        es: seq<nat>, k: nat)
    requires EdgesOk(g, es) && |tp| == |tq| == 2 * g.n && k <= |es| && NoLarger(a, b)
    requires forall j :: 0 <= j < k && g.mode[es[j]] == Busy ==> g.d[es[j]] >= 0
    requires forall j :: 0 <= j < k && g.enabled[es[j]] ==> tp[g.src[es[j]]] <= tq[g.src[es[j]]]
    ensures Latest(g, a, tp, es, k).Some? == Latest(g, b, tq, es, k).Some?
    ensures Latest(g, a, tp, es, k).Some? ==> Latest(g, a, tp, es, k).value <= Latest(g, b, tq, es, k).value
  {
    if k > 0 {
      LatestMonotone(g, a, b, tp, tq, es, k - 1);
      DeltaMonotone(g, es[k-1], a, b);
    }
  }

  /** add() never records a negative duration. */
  ghost predicate Durations(g: Graph) {
    forall e :: 0 <= e < |g.d| ==> g.d[e] >= 0
  }

  lemma {:induction false} PrefixMonotone(g: Graph, a: map<int, real>, b: map<int, real>, res: seq<int>, tp: seq<real>,
        tq: seq<real>, p: nat)
    requires WellFormed(g) && Topological(g) && Durations(g) && NoLarger(a, b) && p <= |g.order|
    requires IsReplay(g, a, res, tp) && IsReplay(g, b, res, tq)
    ensures forall q :: 0 <= q < p ==> tp[g.order[q]] <= tq[g.order[q]]
    ensures End(g, tp, p) <= End(g, tq, p)
  {
    if p > 0 {
      PrefixMonotone(g, a, b, res, tp, tq, p - 1);
      var v := g.order[p-1];
      var es := Row(g, v);
      forall j | 0 <= j < |es| && g.enabled[es[j]] ensures tp[g.src[es[j]]] <= tq[g.src[es[j]]] {
        assert g.src[es[j]] in g.order[..p-1];
      }
      LatestMonotone(g, a, b, tp, tq, es, |es|);
      assert tp[v] == NodeTime(g, a, res, tp, v) && tq[v] == NodeTime(g, b, res, tq, v);
      hide WellFormed, Topological, IsReplay, Latest;
    }
  }

  /** With pointwise smaller factors no event, and not the end of the run, comes later. */
  lemma ReplayMonotone(g: Graph, a: map<int, real>, b: map<int, real>, res: seq<int>, tp: seq<real>, tq: seq<real>,
        v: nat)
    requires WellFormed(g) && Topological(g) && Durations(g) && NoLarger(a, b)
    requires IsReplay(g, a, res, tp) && IsReplay(g, b, res, tq)
    ensures v in g.order ==> tp[v] <= tq[v]
    ensures End(g, tp, |g.order|) <= End(g, tq, |g.order|)
  {
    PrefixMonotone(g, a, b, res, tp, tq, |g.order|);
  }

  // ---- when an event happens ----

  /** How long after its source an edge lets its destination happen, when its span's busy time has factor f: busy time
      is scaled, gaps and unknown time are kept, waiting, idling and dependencies take none. */
  function Takes(g: Graph, e: nat, f: real): real
    requires EdgeOk(g, e)
  {
    if g.mode[e] == Busy then f * g.d[e] as real
    else if g.mode[e] == Gap || g.mode[e] == Unknown then g.d[e] as real
    else 0.0
  }

  /** When an edge lets its destination happen: a span without a factor keeps its busy time. */
  function Arrival(g: Graph, scale: map<int, real>, tp: seq<real>, e: nat): real
    requires EdgeOk(g, e) && |tp| == 2 * g.n
  {
    tp[g.src[e]] + Takes(g, e, if g.owner[e] in scale.Keys then scale[g.owner[e]] else 1.0)
  }

  lemma DeltaTakes(g: Graph, scale: map<int, real>, tp: seq<real>, e: nat)
    requires EdgeOk(g, e) && |tp| == 2 * g.n
    ensures tp[g.src[e]] + Delta(g, e, scale) == Arrival(g, scale, tp, e)
  {
  }

  lemma {:induction false} LatestMeans(g: Graph, scale: map<int, real>, tp: seq<real>, es: seq<nat>, k: nat)
    requires EdgesOk(g, es) && |tp| == 2 * g.n && k <= |es|
    ensures var x := Latest(g, scale, tp, es, k);
      && (x.None? <==> forall j :: 0 <= j < k ==> !g.enabled[es[j]])
      && (x.Some? ==>
           && (forall j :: 0 <= j < k && g.enabled[es[j]] ==> Arrival(g, scale, tp, es[j]) <= x.value)
           && (exists j :: 0 <= j < k && g.enabled[es[j]] && Arrival(g, scale, tp, es[j]) == x.value))
  {
    if k > 0 {
      LatestMeans(g, scale, tp, es, k - 1);
      DeltaTakes(g, scale, tp, es[k-1]);
      hide Delta, Arrival;
    }
  }

  /** v happens no earlier than any enabled edge into it lets it, plus its residual, and exactly that much after one of
      them. */
  ghost predicate HappensAt(g: Graph, scale: map<int, real>, tp: seq<real>, v: nat, slack: int)
    requires WellFormed(g) && |tp| == 2 * g.n && v < 2 * g.n
  {
    && (forall k :: 0 <= k < |Row(g, v)| && g.enabled[Row(g, v)[k]] ==>
          tp[v] >= Arrival(g, scale, tp, Row(g, v)[k]) + slack as real)
    && (exists k :: 0 <= k < |Row(g, v)| && g.enabled[Row(g, v)[k]]
          && tp[v] == Arrival(g, scale, tp, Row(g, v)[k]) + slack as real)
  }

  ghost predicate HasPredecessor(g: Graph, v: nat)
    requires WellFormed(g) && v < 2 * g.n
  {
    exists k :: 0 <= k < |Row(g, v)| && g.enabled[Row(g, v)[k]]
  }

  /** Every replayed event: its latest predecessor, its residual and the factors decide when it happens. An event that
      keeps its recorded time is marked by a residual of -1. */
  lemma EventTime(g: Graph, scale: map<int, real>, res: seq<int>, tp: seq<real>, v: nat)
    requires WellFormed(g) && IsReplay(g, scale, res, tp) && v in g.order && v < 2 * g.n
    ensures res[v] >= 0 && HasPredecessor(g, v) ==> HappensAt(g, scale, tp, v, res[v])
    ensures res[v] >= 0 && !HasPredecessor(g, v) ==> tp[v] == res[v] as real
    ensures res[v] < 0 ==> tp[v] == g.t[v] as real
  {
    var p :| 0 <= p < |g.order| && g.order[p] == v;
    assert tp[g.order[p]] == NodeTime(g, scale, res, tp, g.order[p]);
    LatestMeans(g, scale, tp, Row(g, v), |Row(g, v)|);
    hide Latest, Arrival, WellFormed, IsReplay;
  }

  /** The end is the latest event of the run, or 0. */
  lemma {:induction false} EndMeans(g: Graph, tp: seq<real>, n: nat)
    requires WellFormed(g) && |tp| == 2 * g.n && n <= |g.order|
    ensures End(g, tp, n) >= 0.0 && forall p :: 0 <= p < n ==> tp[g.order[p]] <= End(g, tp, n)
    ensures End(g, tp, n) == 0.0 || exists p :: 0 <= p < n && tp[g.order[p]] == End(g, tp, n)
  {
    hide WellFormed;
    if n > 0 {
      OrderInRange(g, n - 1);
      EndMeans(g, tp, n - 1);
    }
  }

  /** A residual is the time left over after every enabled edge, and after one of them exactly unless it would be
      negative. */
  lemma ResidualMeans(g: Graph, v: nat)
    requires WellFormed(g) && v < 2 * g.n
    ensures Residual(g, v) == -1 <==> !HasPredecessor(g, v)
    ensures HasPredecessor(g, v) ==>
      && Residual(g, v) >= 0
      && (forall k :: 0 <= k < |Row(g, v)| && g.enabled[Row(g, v)[k]] && Residual(g, v) > 0 ==>
            (g.t[v] - Residual(g, v)) as real >= g.t[g.src[Row(g, v)[k]]] as real + Takes(g, Row(g, v)[k], 1.0))
      && (exists k :: 0 <= k < |Row(g, v)| && g.enabled[Row(g, v)[k]] &&
            (g.t[v] - Residual(g, v)) as real <= g.t[g.src[Row(g, v)[k]]] as real + Takes(g, Row(g, v)[k], 1.0))
  {
    var es := Row(g, v);
    var best := LatestRecorded(g, es, |es|);
    LatestRecordedMeans(g, es, |es|, if best.Some? then best.value else 0);
    if best.Some? { LatestRecordedMeans(g, es, |es|, best.value - 1); }
    forall k | 0 <= k < |es| ensures Takes(g, es[k], 1.0) == Recorded(g, es[k]) as real {
      assert g.mode[es[k]] == Busy ==> 1.0 * g.d[es[k]] as real == g.d[es[k]] as real;
    }
    hide WellFormed, LatestRecorded, Takes, Recorded;
  }

  // ---- an intervention ----

  /** A busy edge that alone decides when its end happens. */
  ghost predicate Decides(g: Graph, res: seq<int>, e: nat)
    requires WellFormed(g) && |res| == 2 * g.n
  {
    && EdgeOk(g, e) && g.enabled[e] && g.mode[e] == Busy && g.dst[e] in g.order && res[g.dst[e]] >= 0
    && e in Row(g, g.dst[e]) && forall x :: x in Row(g, g.dst[e]) && EdgeOk(g, x) && g.enabled[x] ==> x == e
  }

  /** Such edges, one after the other. */
  ghost predicate BusyChain(g: Graph, res: seq<int>, es: seq<nat>)
    requires WellFormed(g) && |res| == 2 * g.n
  {
    && (forall i :: 0 <= i < |es| ==> Decides(g, res, es[i]))
    && (forall i, j :: 0 <= i && j == i + 1 && j < |es| ==>
          es[j] < |g.src| && es[i] < |g.dst| && g.src[es[j]] == g.dst[es[i]])
  }

  /** What an edge's end moves by, between two replays. */
  function Moved(g: Graph, tp: seq<real>, tq: seq<real>, v: nat): real
    requires v < |tp| == |tq|
  {
    tp[v] - tq[v]
  }

  /** The busy time of an edge times what the first factor is ahead of the second. */
  function Added(g: Graph, a: map<int, real>, b: map<int, real>, e: nat): real
    requires EdgeOk(g, e)
  {
    (Factor(a, g.owner[e]) - Factor(b, g.owner[e])) * g.d[e] as real
  }

  function AddedUp(g: Graph, a: map<int, real>, b: map<int, real>, es: seq<nat>, n: nat): real
    requires EdgesOk(g, es) && n <= |es|
  {
    if n == 0 then 0.0 else AddedUp(g, a, b, es, n - 1) + Added(g, a, b, es[n-1])
  }

  lemma DecidedTime(g: Graph, scale: map<int, real>, res: seq<int>, tp: seq<real>, e: nat)
    requires WellFormed(g) && IsReplay(g, scale, res, tp) && Decides(g, res, e)
    ensures tp[g.dst[e]] == tp[g.src[e]] + Factor(scale, g.owner[e]) * g.d[e] as real + res[g.dst[e]] as real
  {
    var v := g.dst[e];
    EventTime(g, scale, res, tp, v);
    var k :| 0 <= k < |Row(g, v)| && Row(g, v)[k] == e;
    assert HasPredecessor(g, v);
    assert Arrival(g, scale, tp, e) == tp[g.src[e]] + Factor(scale, g.owner[e]) * g.d[e] as real;
    var l :| 0 <= l < |Row(g, v)| && g.enabled[Row(g, v)[l]]
      && tp[v] == Arrival(g, scale, tp, Row(g, v)[l]) + res[v] as real;
    assert EdgeOk(g, Row(g, v)[l]) && Row(g, v)[l] in Row(g, v);
    hide WellFormed, IsReplay, Arrival, Row;
  }

  lemma LinkMoves(g: Graph, a: map<int, real>, b: map<int, real>, res: seq<int>, tp: seq<real>, tq: seq<real>, e: nat)
    requires WellFormed(g) && IsReplay(g, a, res, tp) && IsReplay(g, b, res, tq) && Decides(g, res, e)
    ensures Moved(g, tp, tq, g.dst[e]) == Moved(g, tp, tq, g.src[e]) + Added(g, a, b, e)
  {
    DecidedTime(g, a, res, tp, e);
    DecidedTime(g, b, res, tq, e);
    hide WellFormed, IsReplay, Decides, Factor;
  }

  /** Along a chain of busy edges that decide when its events happen, each event moves by the time added to the chain
      before it, on top of what the chain's start moves by. */
  lemma {:induction false} ChainMoves(g: Graph, a: map<int, real>, b: map<int, real>, res: seq<int>, tp: seq<real>,
        tq: seq<real>, es: seq<nat>, n: nat)
    requires WellFormed(g) && IsReplay(g, a, res, tp) && IsReplay(g, b, res, tq) && BusyChain(g, res, es)
    requires 0 < n <= |es|
    ensures EdgesOk(g, es)
    ensures Moved(g, tp, tq, g.dst[es[n-1]]) == Moved(g, tp, tq, g.src[es[0]]) + AddedUp(g, a, b, es, n)
  {
    hide WellFormed, IsReplay, Moved, Added;
    LinkMoves(g, a, b, res, tp, tq, es[n-1]);
    if n > 1 {
      ChainMoves(g, a, b, res, tp, tq, es, n - 1);
    } else {
      assert AddedUp(g, a, b, es, 0) == 0.0;
    }
  }
}
