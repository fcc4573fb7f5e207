/** What `blame` of src/analysis/cp_attribution.py charges to whom, as a journal of entries in the order they are made,
    and that every journal adds up to the waiting time it was opened for. Nanoseconds are integers, shares of them
    reals. */
module BlameJournal {
  import opened EventGraph
  import opened LaneWalk

  datatype Cause = Unrecorded | UnknownWork | DeviceIdle

  /** Time charged to a span or to a cause; waiting a span passed on to what released it; a charge cut short. */
  datatype Entry =
    | ToSpan(span: nat, ns: real)
    | ToCause(cause: Cause, ns: real)
    | PassedOn(waiter: nat, amount: real)
    | CutShort

  datatype Rules = Rules(g: Graph, jointNs: nat, depth: nat, maxSteps: nat)

  // ---- shares ----

  /** The share of a whole that falls to o of c parts. */
  function Share(whole: real, o: int, c: int): real
    requires c > 0
  {
    whole * o as real / c as real
  }

  lemma ShareAdds(whole: real, o: int, p: int, c: int)
    requires c > 0
    ensures Share(whole, o + p, c) == Share(whole, o, c) + Share(whole, p, c)
  {
    Distribute(whole, o as real, p as real, c as real);
  }

  lemma Distribute(w: real, x: real, y: real, c: real)
    requires c > 0.0
    ensures w * (x + y) / c == w * x / c + w * y / c
  {
    assert w * (x + y) == w * x + w * y;
    Halves(w * x, w * y, c);
  }

  lemma Halves(x: real, y: real, c: real)
    requires c > 0.0
    ensures (x + y) / c == x / c + y / c
  {
    assert c * (x / c + y / c) == x + y;
  }

  lemma ShareAll(whole: real, c: int)
    requires c > 0
    ensures Share(whole, c, c) == whole && Share(whole, 0, c) == 0.0
  {
  }

  lemma ShareWithin(whole: real, o: int, c: int)
    requires c > 0 && 0 <= o <= c && whole >= 0.0
    ensures 0.0 <= Share(whole, o, c) <= whole
  {
    var r := o as real / c as real;
    Ratio(o as real, c as real, r);
    assert Share(whole, o, c) == whole * r;
    assert whole * r >= 0.0;
    assert whole * (1.0 - r) >= 0.0;
  }

  lemma Ratio(o: real, c: real, r: real)
    requires c > 0.0 && 0.0 <= o <= c && r == o / c
    ensures 0.0 <= r <= 1.0
  {
    assert r * c == o;
    assert (1.0 - r) * c == c - o;
    SignOf(r, c);
    SignOf(1.0 - r, c);
  }

  lemma SignOf(x: real, c: real)
    requires c > 0.0
    ensures x * c >= 0.0 <==> x >= 0.0
  {
  }

  /** n equal shares make the whole. */
  lemma EqualShares(whole: real, k: nat, n: nat)
    requires n > 0
    ensures Share(whole, k + 1, n) == Share(whole, k, n) + whole / n as real
  {
    ShareAdds(whole, k, 1, n);
  }

  // ---- waiting ----

  /** When span j is released: the latest source event of its gates. */
  function ReleasedAt(g: Graph, j: nat): int
    requires WellFormed(g) && j < g.n && Sources(g, j) != []
  {
    g.t[g.src[Sources(g, j)[LatestAt(g, Sources(g, j))]]]
  }

  /** The waiting time of span j: from its start to its release, if it is gated. */
  function Waiting(g: Graph, j: nat): int
    requires WellFormed(g) && j < g.n
  {
    if !g.gated[j] || g.excluded[j] || Sources(g, j) == [] then 0
    else Max(0, Min(ReleasedAt(g, j), g.t[2 * j + 1]) - g.t[2 * j])
  }

  function AllWaiting(g: Graph, n: nat): int
    requires WellFormed(g) && n <= g.n
  {
    if n == 0 then 0 else AllWaiting(g, n - 1) + Waiting(g, n - 1)
  }

  // ---- the journal ----

  /** Who answers for time no span worked in. */
  function CauseOf(m: Mode): Cause {
    match m
    case Idle => DeviceIdle
    case Unknown => UnknownWork
    case _ => Unrecorded
  }

  /** The part of a piece of a gated call's time that lies before the call's own release. */
  function WaitPart(g: Graph, p: Piece, a: int, b: int, part: real): real
    requires WellFormed(g) && PieceOk(g, p, a, b) && g.mode[p.edge] == Wait
  {
    var lo, hi := Max(a, g.t[g.src[p.edge]]), Min(b, g.t[g.dst[p.edge]]);
    Share(part, Max(0, Min(hi, g.release[g.owner[p.edge]]) - lo), hi - lo)
  }

  /** A share for the window [a, b] that ended at event `node`: to what the node's lane did in it. */
  ghost function ForWindow(r: Rules, node: nat, a: int, b: int, share: real, level: nat): seq<Entry>
    requires WellFormed(r.g) && node < 2 * r.g.n && level <= r.depth
    decreases r.depth - level, 3, 0
  {
    if share <= 0.0 then [] else if b <= a then [ToSpan(node / 2, share)] else
    var ps := Pieces(r.g, node, a, b, r.maxSteps, []);
    var found := if Covered(ps) <= 0 then [ToCause(Unrecorded, share)] else ForPieces(r, ps, |ps|, a, b, share, level);
    if WalkEnd(r.g, node, a, r.maxSteps).1 then [CutShort] + found else found
  }

  /** The first k pieces, each with its part of the share in proportion to its overlap. */
  ghost function ForPieces(r: Rules, ps: seq<Piece>, k: nat, a: int, b: int, share: real, level: nat): seq<Entry>
    requires WellFormed(r.g) && PiecesOk(r.g, ps, a, b) && k <= |ps| && Covered(ps) > 0 && level <= r.depth
    decreases r.depth - level, 2, k
  {
    if k == 0 then []
    else
      ForPieces(r, ps, k - 1, a, b, share, level)
      + ForPiece(r, ps[k-1], a, b, Share(share, ps[k-1].overlap, Covered(ps)), level)
  }

  ghost function ForPiece(r: Rules, p: Piece, a: int, b: int, part: real, level: nat): seq<Entry>
    requires WellFormed(r.g) && PieceOk(r.g, p, a, b) && level <= r.depth
    decreases r.depth - level, 1, 0
  {
    match r.g.mode[p.edge]
    case Busy => [ToSpan(r.g.owner[p.edge], part)]
    case Wait => ForWait(r, p, a, b, part, level)
    case mode => [ToCause(CauseOf(mode), part)]
  }

  /** Inside a gated call: what came before the call's own release goes to what released it, the rest is the call's. */
  ghost function ForWait(r: Rules, p: Piece, a: int, b: int, part: real, level: nat): seq<Entry>
    requires WellFormed(r.g) && PieceOk(r.g, p, a, b) && r.g.mode[p.edge] == Wait && level <= r.depth
    decreases r.depth - level, 0, 1
  {
    var j, waited := r.g.owner[p.edge], WaitPart(r.g, p, a, b, part);
    [ToSpan(j, part - waited)] + ForWaited(r, p, a, b, waited, level)
  }

  ghost function ForWaited(r: Rules, p: Piece, a: int, b: int, waited: real, level: nat): seq<Entry>
    requires WellFormed(r.g) && PieceOk(r.g, p, a, b) && r.g.mode[p.edge] == Wait && level <= r.depth
    decreases r.depth - level, 0, 0
  {
    var j := r.g.owner[p.edge];
    var srcs := Sources(r.g, j);
    if waited <= 0.0 then []
    else if level == r.depth then [CutShort, ToSpan(j, waited)]
    else if srcs == [] then [ToCause(UnknownWork, waited)]
    else
      var joint := JointOf(r.g, srcs, r.jointNs, |srcs|);
      [PassedOn(j, waited)]
        + ForJoint(r, joint, |joint|, Max(a, r.g.t[r.g.src[p.edge]]), Min(b, r.g.t[r.g.dst[p.edge]]), waited, level + 1)
  }

  /** Equal shares to the lanes of the first k that released jointly, each up to its own release. */
  ghost function ForJoint(r: Rules, joint: seq<nat>, k: nat, lo: int, hi: int, whole: real, level: nat): seq<Entry>
    requires WellFormed(r.g) && EdgesOk(r.g, joint) && k <= |joint| && level <= r.depth
    decreases r.depth - level, 4, k
  {
    if k == 0 then [] else
    var u := r.g.src[joint[k-1]];
    ForJoint(r, joint, k - 1, lo, hi, whole, level)
      + ForWindow(r, u, lo, Min(hi, Max(lo, r.g.t[u])), whole / |joint| as real, level)
  }

  /** The waiting of span j, to what released it. */
  ghost function ForSpan(r: Rules, j: nat): seq<Entry>
    requires WellFormed(r.g) && j < r.g.n
  {
    if Waiting(r.g, j) == 0 then [] else
    var joint := ReleasedBy(r, j);
    ForJoint(r, joint, |joint|, r.g.t[2 * j], r.g.t[2 * j + 1], Waiting(r.g, j) as real, 0)
  }

  function ReleasedBy(r: Rules, j: nat): (joint: seq<nat>)
    requires WellFormed(r.g) && j < r.g.n && Sources(r.g, j) != []
    ensures EdgesOk(r.g, joint)
  {
    JointOf(r.g, Sources(r.g, j), r.jointNs, |Sources(r.g, j)|)
  }

  ghost function ForSpans(r: Rules, n: nat): seq<Entry>
    requires WellFormed(r.g) && n <= r.g.n
  {
    if n == 0 then [] else ForSpans(r, n - 1) + ForSpan(r, n - 1)
  }

  // ---- a journal adds up ----

  ghost function Charged(es: seq<Entry>): real {
    if es == [] then 0.0 else
    Charged(es[..|es|-1]) + match es[|es|-1] case ToSpan(_, ns) => ns case ToCause(_, ns) => ns case _ => 0.0
  }

  predicate EntryOk(g: Graph, e: Entry) {
    match e
    case ToSpan(j, ns) => j < g.n && ns >= 0.0
    case ToCause(_, ns) => ns >= 0.0
    case PassedOn(j, amount) => j < g.n && amount > 0.0
    case CutShort => true
  }

  /** Every charge goes to a span of the graph or to a cause, none is negative, and together they are `whole`. */
  ghost predicate AddsUp(g: Graph, es: seq<Entry>, whole: real) {
    (forall k :: 0 <= k < |es| ==> EntryOk(g, es[k])) && Charged(es) == whole
  }

  lemma {:induction false} ChargedConcat(xs: seq<Entry>, ys: seq<Entry>)
    ensures Charged(xs + ys) == Charged(xs) + Charged(ys)
  {
    if ys == [] {
      assert xs + ys == xs;
    } else {
      assert (xs + ys)[..|xs + ys|-1] == xs + ys[..|ys|-1];
      ChargedConcat(xs, ys[..|ys|-1]);
    }
  }

  lemma AddsUpConcat(g: Graph, xs: seq<Entry>, ys: seq<Entry>, x: real, y: real)
    requires AddsUp(g, xs, x) && AddsUp(g, ys, y)
    ensures AddsUp(g, xs + ys, x + y)
  {
    ChargedConcat(xs, ys);
  }

  lemma AddsUpOne(g: Graph, e: Entry)
    requires EntryOk(g, e)
    ensures AddsUp(g, [e], match e case ToSpan(_, ns) => ns case ToCause(_, ns) => ns case _ => 0.0)
  {
    assert [e][..0] == [];
  }

  lemma NothingAddsUp(g: Graph)
    ensures AddsUp(g, [], 0.0)
  {
  }

  /** Whatever the lanes did and however often waiting is passed on, a share is charged in full and no more. */
  lemma {:induction false} WindowAddsUp(r: Rules, node: nat, a: int, b: int, share: real, level: nat)
    requires WellFormed(r.g) && node < 2 * r.g.n && level <= r.depth
    ensures AddsUp(r.g, ForWindow(r, node, a, b, share, level), if share > 0.0 then share else 0.0)
    decreases r.depth - level, 3, 0
  {
    hide AddsUp, WellFormed, Share;
    NothingAddsUp(r.g);
    if share > 0.0 && b <= a {
      AddsUpOne(r.g, ToSpan(node / 2, share));
    } else if share > 0.0 {
      var ps := Pieces(r.g, node, a, b, r.maxSteps, []);
      if Covered(ps) <= 0 {
        AddsUpOne(r.g, ToCause(Unrecorded, share));
      } else {
        PiecesAddUp(r, ps, |ps|, a, b, share, level);
        assert ps[..|ps|] == ps;
        ShareAll(share, Covered(ps));
      }
      AddsUpOne(r.g, CutShort);
      var found := if Covered(ps) <= 0 then [ToCause(Unrecorded, share)]
        else ForPieces(r, ps, |ps|, a, b, share, level);
      AddsUpConcat(r.g, [CutShort], found, 0.0, share);
    }
  }

  lemma {:induction false} PiecesAddUp(r: Rules, ps: seq<Piece>, k: nat, a: int, b: int, share: real, level: nat)
    requires WellFormed(r.g) && PiecesOk(r.g, ps, a, b) && k <= |ps| && Covered(ps) > 0 && level <= r.depth
    requires share > 0.0
    ensures AddsUp(r.g, ForPieces(r, ps, k, a, b, share, level), Share(share, Covered(ps[..k]), Covered(ps)))
    decreases r.depth - level, 2, k
  {
    hide AddsUp, WellFormed, Share;
    var all := Covered(ps);
    if k == 0 {
      ShareAll(share, all);
      NothingAddsUp(r.g);
    } else {
      var p := ps[k-1];
      PiecesAddUp(r, ps, k - 1, a, b, share, level);
      assert ps[..k][..k-1] == ps[..k-1];
      ShareAdds(share, Covered(ps[..k-1]), p.overlap, all);
      CoveredWithin(r.g, ps, k - 1, a, b);
      ShareWithin(share, p.overlap, all);
      PieceAddsUp(r, p, a, b, Share(share, p.overlap, all), level);
      AddsUpConcat(r.g, ForPieces(r, ps, k - 1, a, b, share, level),
        ForPiece(r, p, a, b, Share(share, p.overlap, all), level),
                   Share(share, Covered(ps[..k-1]), all), Share(share, p.overlap, all));
    }
  }

  lemma {:induction false} PieceAddsUp(r: Rules, p: Piece, a: int, b: int, part: real, level: nat)
    requires WellFormed(r.g) && PieceOk(r.g, p, a, b) && level <= r.depth && part >= 0.0
    ensures AddsUp(r.g, ForPiece(r, p, a, b, part, level), part)
    decreases r.depth - level, 1, 0
  {
    hide AddsUp, WellFormed, Share;
    var mode := r.g.mode[p.edge];
    if mode == Wait {
      var j, waited := r.g.owner[p.edge], WaitPart(r.g, p, a, b, part);
      WaitWithin(r.g, p, a, b, part);
      AddsUpOne(r.g, ToSpan(j, part - waited));
      WaitedAddsUp(r, p, a, b, waited, level);
      AddsUpConcat(r.g, [ToSpan(j, part - waited)], ForWaited(r, p, a, b, waited, level), part - waited, waited);
    } else if mode == Busy {
      AddsUpOne(r.g, ToSpan(r.g.owner[p.edge], part));
    } else {
      AddsUpOne(r.g, ToCause(CauseOf(mode), part));
    }
  }

  lemma WaitWithin(g: Graph, p: Piece, a: int, b: int, part: real)
    requires WellFormed(g) && PieceOk(g, p, a, b) && g.mode[p.edge] == Wait && part >= 0.0
    ensures 0.0 <= WaitPart(g, p, a, b, part) <= part
  {
    hide Share;
    var lo, hi := Max(a, g.t[g.src[p.edge]]), Min(b, g.t[g.dst[p.edge]]);
    ShareWithin(part, Max(0, Min(hi, g.release[g.owner[p.edge]]) - lo), hi - lo);
  }

  lemma {:induction false} WaitedAddsUp(r: Rules, p: Piece, a: int, b: int, waited: real, level: nat)
    requires WellFormed(r.g) && PieceOk(r.g, p, a, b) && r.g.mode[p.edge] == Wait && level <= r.depth && waited >= 0.0
    ensures AddsUp(r.g, ForWaited(r, p, a, b, waited, level), waited)
    decreases r.depth - level, 0, 0
  {
    SourceOk(r.g, p.edge);
    hide AddsUp, WellFormed, LatestAt, Gates, JointOf;
    var j := r.g.owner[p.edge];
    var srcs := Sources(r.g, j);
    NothingAddsUp(r.g);
    if waited > 0.0 && level == r.depth {
      AddsUpOne(r.g, CutShort);
      AddsUpOne(r.g, ToSpan(j, waited));
      AddsUpConcat(r.g, [CutShort], [ToSpan(j, waited)], 0.0, waited);
      assert [CutShort] + [ToSpan(j, waited)] == [CutShort, ToSpan(j, waited)];
    } else if waited > 0.0 && srcs == [] {
      AddsUpOne(r.g, ToCause(UnknownWork, waited));
    } else if waited > 0.0 {
      var lo, hi := Max(a, r.g.t[r.g.src[p.edge]]), Min(b, r.g.t[r.g.dst[p.edge]]);
      JointMeans(r.g, srcs, r.jointNs, |srcs|);
      var joint := JointOf(r.g, srcs, r.jointNs, |srcs|);
      JointAddsUp(r, joint, |joint|, lo, hi, waited, level + 1);
      PassedAddsUp(r, j, joint, lo, hi, waited, level);
    }
  }

  /** Passing on is noted, and what is passed on is charged in full. */
  lemma PassedAddsUp(r: Rules, j: nat, joint: seq<nat>, lo: int, hi: int, waited: real, level: nat)
    requires WellFormed(r.g) && EdgesOk(r.g, joint) && joint != [] && level < r.depth && waited > 0.0 && j < r.g.n
    requires AddsUp(r.g, ForJoint(r, joint, |joint|, lo, hi, waited, level + 1), Share(waited, |joint|, |joint|))
    ensures AddsUp(r.g, [PassedOn(j, waited)] + ForJoint(r, joint, |joint|, lo, hi, waited, level + 1), waited)
  {
    hide AddsUp, WellFormed;
    ShareAll(waited, |joint|);
    AddsUpOne(r.g, PassedOn(j, waited));
    AddsUpConcat(r.g, [PassedOn(j, waited)], ForJoint(r, joint, |joint|, lo, hi, waited, level + 1), 0.0, waited);
  }

  lemma {:induction false} JointAddsUp(r: Rules, joint: seq<nat>, k: nat, lo: int, hi: int, whole: real, level: nat)
    requires WellFormed(r.g) && EdgesOk(r.g, joint) && k <= |joint| && joint != [] && level <= r.depth && whole > 0.0
    ensures AddsUp(r.g, ForJoint(r, joint, k, lo, hi, whole, level), Share(whole, k, |joint|))
    decreases r.depth - level, 4, k
  {
    hide AddsUp, WellFormed, Share;
    if k == 0 {
      ShareAll(whole, |joint|);
      NothingAddsUp(r.g);
    } else {
      var one := whole / |joint| as real;
      EqualPositive(whole, |joint|);
      JointAddsUp(r, joint, k - 1, lo, hi, whole, level);
      assert EdgeOk(r.g, joint[k-1]);
      SourceOk(r.g, joint[k-1]);
      var u := r.g.src[joint[k-1]];
      WindowAddsUp(r, u, lo, Min(hi, Max(lo, r.g.t[u])), one, level);
      EqualShares(whole, k - 1, |joint|);
      AddsUpConcat(r.g, ForJoint(r, joint, k - 1, lo, hi, whole, level),
        ForWindow(r, u, lo, Min(hi, Max(lo, r.g.t[u])), one, level),
                   Share(whole, k - 1, |joint|), one);
    }
  }

  lemma SpanAddsUp(r: Rules, j: nat)
    requires WellFormed(r.g) && j < r.g.n
    ensures AddsUp(r.g, ForSpan(r, j), Waiting(r.g, j) as real)
  {
    NodesTimed(r.g);
    hide AddsUp, WellFormed, Share;
    NothingAddsUp(r.g);
    if Waiting(r.g, j) != 0 {
      var srcs, joint := Sources(r.g, j), ReleasedBy(r, j);
      JointMeans(r.g, srcs, r.jointNs, |srcs|);
      JointAddsUp(r, joint, |joint|, r.g.t[2 * j], r.g.t[2 * j + 1], Waiting(r.g, j) as real, 0);
      ShareAll(Waiting(r.g, j) as real, |joint|);
    }
  }

  /** Blame is conserved: the charges over all gated calls are exactly all their waiting. */
  lemma {:induction false} BlameAddsUp(r: Rules, n: nat)
    requires WellFormed(r.g) && n <= r.g.n
    ensures AddsUp(r.g, ForSpans(r, n), AllWaiting(r.g, n) as real)
  {
    hide AddsUp, WellFormed, ForSpan, Waiting;
    NothingAddsUp(r.g);
    if n > 0 {
      BlameAddsUp(r, n - 1);
      SpanAddsUp(r, n - 1);
      AddsUpConcat(r.g, ForSpans(r, n - 1), ForSpan(r, n - 1), AllWaiting(r.g, n - 1) as real,
        Waiting(r.g, n - 1) as real);
    }
  }

  lemma EqualPositive(whole: real, n: nat)
    requires whole > 0.0 && n > 0
    ensures whole / n as real > 0.0
  {
  }
}
