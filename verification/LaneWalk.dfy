/** The lanes of an event graph and what released a gated call: `_lane_pred`, `_sources`, `_joint` and the walk in
    `charge` of src/analysis/cp_attribution.py. */
module LaneWalk {
  import opened Options
  import opened ClockGraph
  import opened EventGraph

  // ---- what the graph says ----

  predicate OnLane(g: Graph, e: nat)
    requires EdgeOk(g, e)
  {
    g.enabled[e] && g.lane[e]
  }

  /** The first enabled lane edge from position k of the row into v on, if any. */
  function LaneFrom(g: Graph, v: nat, k: nat): (r: Option<nat>)
    requires WellFormed(g) && v < 2 * g.n && k <= |Row(g, v)|
    ensures r.Some? ==> EdgeOk(g, r.value) && g.dst[r.value] == v && OnLane(g, r.value)
    ensures r.None? ==> forall l :: k <= l < |Row(g, v)| ==> !OnLane(g, Row(g, v)[l])
    decreases |Row(g, v)| - k
  {
    if k == |Row(g, v)| then None else if OnLane(g, Row(g, v)[k]) then Some(Row(g, v)[k]) else LaneFrom(g, v, k + 1)
  }

  method LanePred(g: Graph, v: nat) returns (r: Option<nat>)
    requires WellFormed(g) && v < 2 * g.n
    ensures r == LaneFrom(g, v, 0)
  {
    var es := Row(g, v);
    var k := 0;
    while k < |es|
      invariant 0 <= k <= |es| && LaneFrom(g, v, 0) == LaneFrom(g, v, k)
    {
      if g.enabled[es[k]] && g.lane[es[k]] { return Some(es[k]); }
      k := k + 1;
    }
    r := None;
  }

  /** The dependencies that gate the end of span j, among the first k edges into it. */
  function Gates(g: Graph, j: nat, k: nat): (srcs: seq<nat>)
    requires WellFormed(g) && j < g.n && k <= |Row(g, 2 * j + 1)|
    ensures forall i :: 0 <= i < |srcs| ==>
      EdgeOk(g, srcs[i]) && g.enabled[srcs[i]] && g.mode[srcs[i]] == Dep && g.dst[srcs[i]] == 2 * j + 1
  {
    if k == 0 then [] else
    var e := Row(g, 2 * j + 1)[k-1];
    Gates(g, j, k - 1) + if g.enabled[e] && g.mode[e] == Dep then [e] else []
  }

  function Sources(g: Graph, j: nat): (srcs: seq<nat>)
    requires WellFormed(g) && j < g.n
    ensures forall i :: 0 <= i < |srcs| ==>
      EdgeOk(g, srcs[i]) && g.enabled[srcs[i]] && g.mode[srcs[i]] == Dep && g.dst[srcs[i]] == 2 * j + 1
  {
    Gates(g, j, |Row(g, 2 * j + 1)|)
  }

  /** They are exactly the enabled dependencies in the row of the span's end. */
  lemma {:induction false} GatesMean(g: Graph, j: nat, k: nat)
    requires WellFormed(g) && j < g.n && k <= |Row(g, 2 * j + 1)|
    ensures forall e ::
      e in Gates(g, j, k) <==> e in Row(g, 2 * j + 1)[..k] && EdgeOk(g, e) && g.enabled[e] && g.mode[e] == Dep
  {
    if k > 0 {
      GatesMean(g, j, k - 1);
      var es := Row(g, 2 * j + 1);
      assert es[..k] == es[..k-1] + [es[k-1]];
      assert EdgeOk(g, es[k-1]);
    }
  }

  /** A call waits for exactly the enabled dependencies into its end. */
  lemma SourcesMean(g: Graph, j: nat)
    requires WellFormed(g) && j < g.n
    ensures forall e ::
      e in Sources(g, j) <==> e in Row(g, 2 * j + 1) && EdgeOk(g, e) && g.enabled[e] && g.mode[e] == Dep
  {
    var es := Row(g, 2 * j + 1);
    GatesMean(g, j, |es|);
    assert es[..|es|] == es;
  }

  /** Position of the first edge with the latest source. */
  function LatestAt(g: Graph, es: seq<nat>): (i: nat)
    requires WellFormed(g) && EdgesOk(g, es) && es != []
    ensures i < |es| && forall k :: 0 <= k < |es| ==> g.t[g.src[es[k]]] <= g.t[g.src[es[i]]]
  {
    if |es| == 1 then 0 else
    var i := LatestAt(g, es[..|es|-1]);
    if g.t[g.src[es[|es|-1]]] > g.t[g.src[es[i]]] then |es| - 1 else i
  }

  /** On ties it is the first of them. */
  lemma {:induction false} LatestFirst(g: Graph, es: seq<nat>)
    requires WellFormed(g) && EdgesOk(g, es) && es != []
    ensures forall k :: 0 <= k < LatestAt(g, es) ==> g.t[g.src[es[k]]] < g.t[g.src[es[LatestAt(g, es)]]]
  {
    if |es| > 1 {
      LatestFirst(g, es[..|es|-1]);
      assert forall k :: 0 <= k < |es| - 1 ==> es[..|es|-1][k] == es[k];
    }
  }

  /** Whether the clocks of two domains cannot tell the order of two events a gap apart. */
  predicate Untold(g: Graph, a: nat, b: nat, gap: int) {
    g.uncertainty.Some? && a != b && (a, b) in g.uncertainty.value && NsAtLeast(g.uncertainty.value[(a, b)], gap)
  }

  predicate NsAtLeast(x: Ns, gap: int) {
    x.Inf? || x.val >= gap
  }

  predicate Jointly(g: Graph, e: nat, latest: nat, jointNs: nat)
    requires WellFormed(g) && EdgeOk(g, e) && EdgeOk(g, latest)
  {
    var gap := g.t[g.src[latest]] - g.t[g.src[e]];
    gap <= jointNs || Untold(g, g.domain[g.src[e] / 2], g.domain[g.src[latest] / 2], gap)
  }

  /** Of the first k sources, those that released jointly with the latest of all. */
  function JointOf(g: Graph, srcs: seq<nat>, jointNs: nat, k: nat): (out: seq<nat>)
    requires WellFormed(g) && EdgesOk(g, srcs) && srcs != [] && k <= |srcs|
    ensures EdgesOk(g, out)
  {
    if k == 0 then []
    else if Jointly(g, srcs[k-1], srcs[LatestAt(g, srcs)], jointNs) then JointOf(g, srcs, jointNs, k - 1) + [srcs[k-1]]
    else JointOf(g, srcs, jointNs, k - 1)
  }

  /** The sources that released jointly are those within reach of the latest, which is always one of them. */
  lemma {:induction false} JointMeans(g: Graph, srcs: seq<nat>, jointNs: nat, k: nat)
    requires WellFormed(g) && EdgesOk(g, srcs) && srcs != [] && k <= |srcs|
    ensures forall e :: e in JointOf(g, srcs, jointNs, k) <==>
      e in srcs[..k] && EdgeOk(g, e) && Jointly(g, e, srcs[LatestAt(g, srcs)], jointNs)
    ensures k == |srcs| ==> JointOf(g, srcs, jointNs, k) != []
  {
    if k > 0 {
      JointMeans(g, srcs, jointNs, k - 1);
      assert srcs[..k] == srcs[..k-1] + [srcs[k-1]];
      if k == |srcs| {
        assert srcs[..k] == srcs;
        assert srcs[LatestAt(g, srcs)] in JointOf(g, srcs, jointNs, k);
      }
    }
  }

  method Joint(g: Graph, srcs: seq<nat>, jointNs: nat) returns (out: seq<nat>)
    requires WellFormed(g) && EdgesOk(g, srcs) && srcs != []
    ensures out == JointOf(g, srcs, jointNs, |srcs|) && out != []
  {
    var latest := srcs[LatestAt(g, srcs)];
    out := [];
    var k := 0;
    while k < |srcs|
      invariant 0 <= k <= |srcs| && out == JointOf(g, srcs, jointNs, k)
    {
      if Jointly(g, srcs[k], latest, jointNs) { out := out + [srcs[k]]; }
      k := k + 1;
    }
    JointMeans(g, srcs, jointNs, |srcs|);
  }

  // ---- walking a lane back through a window ----

  lemma SourceOk(g: Graph, e: nat)
    requires WellFormed(g) && EdgeOk(g, e)
    ensures g.src[e] < 2 * g.n == |g.t|
  {
  }

  /** A stretch of an edge inside the window. */
  datatype Piece = Piece(edge: nat, overlap: int)

  function Max(a: int, b: int): int { if a >= b then a else b }
  function Min(a: int, b: int): int { if a <= b then a else b }

  /** The part of an edge's time that lies in the window [a, b]. */
  function Overlap(g: Graph, e: nat, a: int, b: int): int
    requires WellFormed(g) && EdgeOk(g, e)
  {
    Min(b, g.t[g.dst[e]]) - Max(a, g.t[g.src[e]])
  }

  predicate PieceOk(g: Graph, p: Piece, a: int, b: int)
    requires WellFormed(g)
  {
    EdgeOk(g, p.edge) && g.enabled[p.edge] && g.lane[p.edge] && p.overlap == Overlap(g, p.edge, a, b) > 0
  }

  ghost predicate PiecesOk(g: Graph, ps: seq<Piece>, a: int, b: int)
    requires WellFormed(g)
  {
    forall k :: 0 <= k < |ps| ==> PieceOk(g, ps[k], a, b)
  }

  function Covered(ps: seq<Piece>): int {
    if ps == [] then 0 else Covered(ps[..|ps|-1]) + ps[|ps|-1].overlap
  }

  lemma {:induction false} CoveredPositive(g: Graph, ps: seq<Piece>, a: int, b: int)
    requires WellFormed(g) && PiecesOk(g, ps, a, b)
    ensures Covered(ps) >= 0 && (ps != [] ==> Covered(ps) > 0)
  {
    if ps != [] { CoveredPositive(g, ps[..|ps|-1], a, b); }
  }

  /** The pieces so far and, if the edge has a part in the window, that part. */
  function WithPiece(g: Graph, ps: seq<Piece>, e: nat, a: int, b: int): seq<Piece>
    requires WellFormed(g) && EdgeOk(g, e)
  {
    if Overlap(g, e, a, b) > 0 then ps + [Piece(e, Overlap(g, e, a, b))] else ps
  }

  lemma WithPieceOk(g: Graph, ps: seq<Piece>, e: nat, a: int, b: int)
    requires WellFormed(g) && EdgeOk(g, e) && OnLane(g, e) && PiecesOk(g, ps, a, b)
    ensures PiecesOk(g, WithPiece(g, ps, e, a, b), a, b)
  {
  }

  /** What the lane did in the window, after the pieces already found: its edges back from v, until one starts at or
      before the window. */
  function Pieces(g: Graph, v: nat, a: int, b: int, steps: nat, ps: seq<Piece>): (all: seq<Piece>)
    requires WellFormed(g) && v < 2 * g.n && PiecesOk(g, ps, a, b)
    ensures PiecesOk(g, all, a, b)
    decreases steps
  {
    var e := LaneFrom(g, v, 0);
    if steps == 0 || e.None? then ps
    else if g.t[g.src[e.value]] <= a then WithPiece(g, ps, e.value, a, b)
    else Pieces(g, g.src[e.value], a, b, steps - 1, WithPiece(g, ps, e.value, a, b))
  }

  /** Where that walk ends, and whether it ran out of steps. */
  function WalkEnd(g: Graph, v: nat, a: int, steps: nat): (nat, bool)
    requires WellFormed(g) && v < 2 * g.n
    decreases steps
  {
    var e := LaneFrom(g, v, 0);
    if steps == 0 then (v, true) else if e.None? then (v, false)
    else if g.t[g.src[e.value]] <= a then (g.src[e.value], false)
    else WalkEnd(g, g.src[e.value], a, steps - 1)
  }

  /** The walk has reached v with these pieces and steps left, and is on the way to what it is to find. */
  ghost predicate OnTrack(g: Graph, v: nat, a: int, b: int, left: nat, ps: seq<Piece>, goal: seq<Piece>, cut: bool) {
    && WellFormed(g) && v < 2 * g.n && PiecesOk(g, ps, a, b)
    && goal == Pieces(g, v, a, b, left, ps) && cut == WalkEnd(g, v, a, left).1
  }

  /** What Back finds. */
  ghost predicate IsBack(g: Graph, v: nat, a: int, b: int, ps: seq<Piece>, out: seq<Piece>, next: Option<nat>)
    requires WellFormed(g) && v < 2 * g.n
  {
    var e := LaneFrom(g, v, 0);
    && out == (if e.None? then ps else WithPiece(g, ps, e.value, a, b))
    && next == if e.None? || g.t[g.src[e.value]] <= a then None else Some(g.src[e.value])
  }

  lemma StaysOnTrack(g: Graph, v: nat, a: int, b: int, left: nat, ps: seq<Piece>, goal: seq<Piece>, cut: bool,
        out: seq<Piece>, next: Option<nat>)
    requires OnTrack(g, v, a, b, left, ps, goal, cut) && left > 0 && IsBack(g, v, a, b, ps, out, next)
    requires PiecesOk(g, out, a, b)
    ensures if next.None? then out == goal && !cut else OnTrack(g, next.value, a, b, left - 1, out, goal, cut)
  {
  }

  lemma TrackFacts(g: Graph, v: nat, a: int, b: int, left: nat, ps: seq<Piece>, goal: seq<Piece>, cut: bool)
    requires OnTrack(g, v, a, b, left, ps, goal, cut)
    ensures WellFormed(g) && v < 2 * g.n && PiecesOk(g, ps, a, b)
  {
  }

  lemma OutOfSteps(g: Graph, v: nat, a: int, b: int, ps: seq<Piece>, goal: seq<Piece>, cut: bool)
    requires OnTrack(g, v, a, b, 0, ps, goal, cut)
    ensures ps == goal && cut
  {
  }

  /** One edge back: the pieces with its part added, and where the walk goes on, if it does. */
  method Back(g: Graph, v: nat, a: int, b: int, ps: seq<Piece>) returns (out: seq<Piece>, next: Option<nat>)
    requires WellFormed(g) && v < 2 * g.n && PiecesOk(g, ps, a, b)
    ensures IsBack(g, v, a, b, ps, out, next) && PiecesOk(g, out, a, b)
  {
    var e := LanePred(g, v);
    out, next := ps, None;
    if e.Some? {
      WithPieceOk(g, ps, e.value, a, b);
      var u := g.src[e.value];
      var lo, hi := Max(a, g.t[u]), Min(b, g.t[v]);
      if hi > lo { out := out + [Piece(e.value, hi - lo)]; }
      if g.t[u] > a { next := Some(u); }
    }
  }

  method Walk(g: Graph, node: nat, a: int, b: int, maxSteps: nat) returns (ps: seq<Piece>, cut: bool)
    requires WellFormed(g) && node < 2 * g.n
    ensures ps == Pieces(g, node, a, b, maxSteps, []) && cut == WalkEnd(g, node, a, maxSteps).1
  {
    ps, cut := WalkTo(g, node, a, b, maxSteps, Pieces(g, node, a, b, maxSteps, []), WalkEnd(g, node, a, maxSteps).1);
  }

  /** The walk itself, towards what it is to find. */
  method WalkTo(g: Graph, node: nat, a: int, b: int, maxSteps: nat, ghost goal: seq<Piece>, ghost end: bool)
    returns (ps: seq<Piece>, cut: bool)
    requires OnTrack(g, node, a, b, maxSteps, [], goal, end)
    ensures ps == goal && cut == end
  {
    hide *;
    ps, cut := [], false;
    var v, steps := node, 0;
    while steps < maxSteps
      invariant steps <= maxSteps && OnTrack(g, v, a, b, maxSteps - steps, ps, goal, end)
    {
      TrackFacts(g, v, a, b, maxSteps - steps, ps, goal, end);
      ghost var was := ps;
      var next;
      ps, next := Back(g, v, a, b, ps);
      StaysOnTrack(g, v, a, b, maxSteps - steps, was, goal, end, ps, next);
      if next.None? { return; }
      v := next.value;
      steps := steps + 1;
    }
    OutOfSteps(g, v, a, b, ps, goal, end);
    cut := true;
  }

  /** A lane runs forward in time. */
  ghost predicate LaneForward(g: Graph)
    requires WellFormed(g)
  {
    forall e: nat :: EdgeOk(g, e) && OnLane(g, e) ==> g.t[g.src[e]] <= g.t[g.dst[e]]
  }

  lemma NodesTimed(g: Graph)
    requires WellFormed(g)
    ensures |g.t| == 2 * g.n
  {
  }

  lemma PieceCovers(g: Graph, ps: seq<Piece>, e: nat, a: int, b: int)
    requires WellFormed(g) && EdgeOk(g, e)
    ensures Covered(WithPiece(g, ps, e, a, b)) == Covered(ps) + Max(0, Overlap(g, e, a, b))
  {
    assert (ps + [Piece(e, Overlap(g, e, a, b))])[..|ps|] == ps;
  }

  /** One edge of the walk. */
  lemma PiecesStep(g: Graph, v: nat, a: int, b: int, steps: nat, ps: seq<Piece>, e: nat)
    requires WellFormed(g) && LaneForward(g) && v < 2 * g.n == |g.t| && PiecesOk(g, ps, a, b) && steps > 0
    requires LaneFrom(g, v, 0) == Some(e)
    ensures EdgeOk(g, e) && e < |g.src| && g.src[e] < 2 * g.n && g.t[g.src[e]] <= g.t[v]
    ensures var more := WithPiece(g, ps, e, a, b);
      && PiecesOk(g, more, a, b)
      && Covered(more) == Covered(ps) + Max(0, Min(b, g.t[v]) - Max(a, g.t[g.src[e]]))
      && Pieces(g, v, a, b, steps, ps)
        == (if g.t[g.src[e]] <= a then more else Pieces(g, g.src[e], a, b, steps - 1, more))
      && WalkEnd(g, v, a, steps).0 == if g.t[g.src[e]] <= a then g.src[e] else WalkEnd(g, g.src[e], a, steps - 1).0
  {
    WithPieceOk(g, ps, e, a, b);
    PieceCovers(g, ps, e, a, b);
    hide WithPiece, Covered, PiecesOk;
  }

  lemma PiecesStop(g: Graph, v: nat, a: int, b: int, steps: nat, ps: seq<Piece>)
    requires WellFormed(g) && v < 2 * g.n == |g.t| && PiecesOk(g, ps, a, b) && (steps == 0 || LaneFrom(g, v, 0).None?)
    ensures Pieces(g, v, a, b, steps, ps) == ps && WalkEnd(g, v, a, steps).0 == v
  {
  }

  /** The pieces tile the window from where the walk ended, or from the window's start, up to the event. */
  lemma {:induction false} PiecesTile(g: Graph, v: nat, a: int, b: int, steps: nat, ps: seq<Piece>)
    requires WellFormed(g) && LaneForward(g) && v < 2 * g.n == |g.t| && a <= b && PiecesOk(g, ps, a, b)
    ensures WalkEnd(g, v, a, steps).0 < 2 * g.n && g.t[WalkEnd(g, v, a, steps).0] <= g.t[v]
    ensures Covered(Pieces(g, v, a, b, steps, ps))
      == Covered(ps) + Max(0, Min(b, g.t[v]) - Max(a, g.t[WalkEnd(g, v, a, steps).0]))
    decreases steps
  {
    hide Pieces, WalkEnd, WithPiece, LaneFrom, OnLane, EdgeOk, PiecesOk, PieceOk, WellFormed, Covered, LaneForward;
    var e := LaneFrom(g, v, 0);
    if steps == 0 || e.None? {
      PiecesStop(g, v, a, b, steps, ps);
    } else {
      PiecesStep(g, v, a, b, steps, ps, e.value);
      if g.t[g.src[e.value]] > a {
        PiecesTile(g, g.src[e.value], a, b, steps - 1, WithPiece(g, ps, e.value, a, b));
      }
    }
  }

  // ---- sums of overlaps ----

  /** sum(o for _, o in pieces) */
  method Sumof(ps: seq<Piece>) returns (covered: int)
    ensures covered == Covered(ps)
  {
    covered := 0;
    var k := 0;
    while k < |ps|
      invariant 0 <= k <= |ps| && covered == Covered(ps[..k])
    {
      assert ps[..k+1][..k] == ps[..k];
      covered := covered + ps[k].overlap;
      k := k + 1;
    }
    assert ps[..k] == ps;
  }

  lemma {:induction false} CoveredWithin(g: Graph, ps: seq<Piece>, k: nat, a: int, b: int)
    requires WellFormed(g) && PiecesOk(g, ps, a, b) && k < |ps|
    ensures 0 <= ps[k].overlap <= Covered(ps)
  {
    var n := |ps| - 1;
    CoveredPositive(g, ps[..n], a, b);
    if k < n { CoveredWithin(g, ps[..n], k, a, b); }
  }
}
