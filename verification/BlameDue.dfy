/** Who is charged for waiting, counted instant by instant: every nanosecond of a window carries the same part of the
    share, and whoever answers for the lane at that instant takes it. The journal of BlameJournal charges everyone
    exactly that. */
module BlameDue {
  import opened ClockGraph
  import opened EventGraph
  import opened LaneWalk
  import opened BlameJournal

  /** An account: a span's, a cause's, what a span passed on, and the number of charges cut short. */
  datatype Who = OfSpan(span: nat) | OfCause(cause: Cause) | PassedBy(waiter: nat) | Shortened

  function EntryFor(e: Entry, q: Who): real {
    match e
    case ToSpan(j, ns) => if q == OfSpan(j) then ns else 0.0
    case ToCause(c, ns) => if q == OfCause(c) then ns else 0.0
    case PassedOn(j, amount) => if q == PassedBy(j) then amount else 0.0
    case CutShort => if q == Shortened then 1.0 else 0.0
  }

  /** What a journal charges to one account. */
  ghost function AmountTo(es: seq<Entry>, q: Who): real {
    if es == [] then 0.0 else AmountTo(es[..|es|-1], q) + EntryFor(es[|es|-1], q)
  }

  lemma {:induction false} AmountConcat(xs: seq<Entry>, ys: seq<Entry>, q: Who)
    ensures AmountTo(xs + ys, q) == AmountTo(xs, q) + AmountTo(ys, q)
  {
    if ys == [] {
      assert xs + ys == xs;
    } else {
      assert (xs + ys)[..|xs + ys|-1] == xs + ys[..|ys|-1];
      AmountConcat(xs, ys[..|ys|-1], q);
    }
  }

  lemma AmountOne(e: Entry, q: Who)
    ensures AmountTo([e], q) == EntryFor(e, q)
  {
    assert [e][..0] == [];
  }

  lemma AmountNone(q: Who)
    ensures AmountTo([], q) == 0.0
  {
  }

  // ---- instants ----

  /** Who answers for an instant of a lane edge; nobody yet while its gated call had not been released. */
  predicate Answers(g: Graph, e: nat, x: int, q: Who)
    requires WellFormed(g) && EdgeOk(g, e)
  {
    match g.mode[e]
    case Busy => q == OfSpan(g.owner[e])
    case Wait => q == OfSpan(g.owner[e]) && x >= g.release[g.owner[e]]
    case Idle => q == OfCause(DeviceIdle)
    case Unknown => q == OfCause(UnknownWork)
    case Gap => q == OfCause(Unrecorded)
    case Dep => q == OfCause(Unrecorded)
  }

  predicate StillWaiting(g: Graph, e: nat, x: int)
    requires WellFormed(g) && EdgeOk(g, e)
  {
    g.mode[e] == Wait && x < g.release[g.owner[e]]
  }

  /** For how many instants of [lo, hi) an account answers. */
  function Answered(g: Graph, e: nat, q: Who, lo: int, hi: int): nat
    requires WellFormed(g) && EdgeOk(g, e)
    decreases hi - lo
  {
    if hi <= lo then 0 else Answered(g, e, q, lo, hi - 1) + if Answers(g, e, hi - 1, q) then 1 else 0
  }

  /** How many instants of [lo, hi) the edge's call had not been released. */
  function Unreleased(g: Graph, e: nat, lo: int, hi: int): nat
    requires WellFormed(g) && EdgeOk(g, e)
    decreases hi - lo
  {
    if hi <= lo then 0 else Unreleased(g, e, lo, hi - 1) + if StillWaiting(g, e, hi - 1) then 1 else 0
  }

  /** Every instant is answered for by its one account or still waiting. */
  lemma {:induction false} InstantsOf(g: Graph, e: nat, q: Who, lo: int, hi: int)
    requires WellFormed(g) && EdgeOk(g, e) && lo <= hi
    ensures g.mode[e] != Wait ==> Unreleased(g, e, lo, hi) == 0
    ensures g.mode[e] == Wait ==> Unreleased(g, e, lo, hi) == Max(0, Min(hi, g.release[g.owner[e]]) - lo)
    ensures g.mode[e] == Busy ==> Answered(g, e, q, lo, hi) == if q == OfSpan(g.owner[e]) then hi - lo else 0
    ensures g.mode[e] == Wait ==>
      Answered(g, e, q, lo, hi) == if q == OfSpan(g.owner[e]) then hi - lo - Unreleased(g, e, lo, hi) else 0
    ensures g.mode[e] == Idle ==> Answered(g, e, q, lo, hi) == if q == OfCause(DeviceIdle) then hi - lo else 0
    ensures g.mode[e] == Unknown ==> Answered(g, e, q, lo, hi) == if q == OfCause(UnknownWork) then hi - lo else 0
    ensures g.mode[e] == Gap || g.mode[e] == Dep ==>
      Answered(g, e, q, lo, hi) == if q == OfCause(Unrecorded) then hi - lo else 0
    decreases hi - lo
  {
    if lo < hi {
      InstantsOf(g, e, q, lo, hi - 1);
      assert g.mode[e] == Busy || g.mode[e] == Wait || g.mode[e] == Idle || g.mode[e] == Unknown || g.mode[e] == Gap
        || g.mode[e] == Dep;
    }
  }

  // ---- what each account is due ----

  /** Two sources released together: the latest came no more than jointNs later, or the clocks cannot order them. */
  predicate Together(g: Graph, e: nat, latest: nat, jointNs: nat)
    requires WellFormed(g) && EdgeOk(g, e) && EdgeOk(g, latest)
  {
    var early, late := g.t[g.src[e]], g.t[g.src[latest]];
    var a, b := g.domain[g.src[e] / 2], g.domain[g.src[latest] / 2];
    || late <= early + jointNs
    || (g.uncertainty.Some? && a != b && (a, b) in g.uncertainty.value
        && match g.uncertainty.value[(a, b)] case Inf => true case Fin(offset) => early + offset >= late)
  }

  /** How many of the sources released together with the latest: that one at least. */
  function HowMany(g: Graph, srcs: seq<nat>, latest: nat, jointNs: nat): (n: nat)
    requires WellFormed(g) && EdgesOk(g, srcs) && EdgeOk(g, latest)
    ensures latest in srcs ==> n > 0
  {
    if srcs == [] then 0
    else HowMany(g, srcs[..|srcs|-1], latest, jointNs) + if Together(g, srcs[|srcs|-1], latest, jointNs) then 1 else 0
  }

  /** A time, or the end of [lo, hi] nearest to it. */
  function Nearest(x: int, lo: int, hi: int): int {
    if x < lo then lo else if x > hi then hi else x
  }

  function Latest(g: Graph, srcs: seq<nat>): (latest: nat)
    requires WellFormed(g) && EdgesOk(g, srcs) && srcs != []
    ensures EdgeOk(g, latest) && latest in srcs
  {
    srcs[LatestAt(g, srcs)]
  }

  /** The due of an account when `share` is charged to the window [a, b] that ended at event `node`. */
  ghost function DueWindow(r: Rules, q: Who, node: nat, a: int, b: int, share: real, level: nat): real
    requires WellFormed(r.g) && node < 2 * r.g.n && level <= r.depth
    decreases r.depth - level, 3, 0
  {
    if share <= 0.0 then 0.0
    else if b <= a then if q == OfSpan(node / 2) then share else 0.0
    else
      var ps := Pieces(r.g, node, a, b, r.maxSteps, []);
      (if q == Shortened && WalkEnd(r.g, node, a, r.maxSteps).1 then 1.0 else 0.0)
      + if Covered(ps) <= 0 then (if q == OfCause(Unrecorded) then share else 0.0)
        else DuePieces(r, q, ps, |ps|, a, b, share / Covered(ps) as real, level)
  }

  /** Of the first k stretches of the lane, at so much per nanosecond. */
  ghost function DuePieces(r: Rules, q: Who, ps: seq<Piece>, k: nat, a: int, b: int, rate: real, level: nat): real
    requires WellFormed(r.g) && PiecesOk(r.g, ps, a, b) && k <= |ps| && level <= r.depth
    decreases r.depth - level, 2, k
  {
    if k == 0 then 0.0 else DuePieces(r, q, ps, k - 1, a, b, rate, level) + DuePiece(r, q, ps[k-1], a, b, rate, level)
  }

  /** The stretch of an edge in the window. */
  function From(g: Graph, p: Piece, a: int): int
    requires WellFormed(g) && EdgeOk(g, p.edge)
  {
    Max(a, g.t[g.src[p.edge]])
  }

  function To(g: Graph, p: Piece, b: int): int
    requires WellFormed(g) && EdgeOk(g, p.edge)
  {
    Min(b, g.t[g.dst[p.edge]])
  }

  /** So much for every instant of the stretch the account answers for. */
  function Earned(g: Graph, q: Who, p: Piece, a: int, b: int, rate: real): real
    requires WellFormed(g) && EdgeOk(g, p.edge)
  {
    rate * Answered(g, p.edge, q, From(g, p, a), To(g, p, b)) as real
  }

  /** So much for every instant at which the stretch's call had not been released. */
  function Pended(g: Graph, p: Piece, a: int, b: int, rate: real): real
    requires WellFormed(g) && EdgeOk(g, p.edge)
  {
    rate * Unreleased(g, p.edge, From(g, p, a), To(g, p, b)) as real
  }

  /** Of one stretch: what its instants earn the account, and of the waiting passed on what comes back to it. */
  ghost function DuePiece(r: Rules, q: Who, p: Piece, a: int, b: int, rate: real, level: nat): real
    requires WellFormed(r.g) && PieceOk(r.g, p, a, b) && level <= r.depth
    decreases r.depth - level, 1, 0
  {
    Earned(r.g, q, p, a, b, rate)
      + if r.g.mode[p.edge] == Wait
        then DueOnwards(r, q, r.g.owner[p.edge], From(r.g, p, a), To(r.g, p, b), Pended(r.g, p, a, b, rate), level)
        else 0.0
  }

  /** The due when span j, itself waiting in [lo, hi], passes `waited` on to what released it. */
  ghost function DueOnwards(r: Rules, q: Who, j: nat, lo: int, hi: int, waited: real, level: nat): real
    requires WellFormed(r.g) && j < r.g.n && level <= r.depth
    decreases r.depth - level, 0, 0
  {
    var srcs := Sources(r.g, j);
    if waited <= 0.0 then 0.0
    else if level == r.depth then if q == OfSpan(j) then waited else if q == Shortened then 1.0 else 0.0
    else if srcs == [] then if q == OfCause(UnknownWork) then waited else 0.0
    else
      (if q == PassedBy(j) then waited else 0.0)
      + DueSources(r, q, srcs, |srcs|, Latest(r.g, srcs), lo, hi,
                   waited / HowMany(r.g, srcs, Latest(r.g, srcs), r.jointNs) as real, level + 1)
  }

  /** Each of the first k sources that released together with the latest gets as much, for the time up to its own
      release. */
  ghost function DueSources(r: Rules, q: Who, srcs: seq<nat>, k: nat, latest: nat, lo: int, hi: int, each: real,
        level: nat): real
    requires WellFormed(r.g) && EdgesOk(r.g, srcs) && EdgeOk(r.g, latest) && k <= |srcs| && level <= r.depth
    decreases r.depth - level, 4, k
  {
    if k == 0 then 0.0 else
    assert EdgeOk(r.g, srcs[k-1]);
    var u := r.g.src[srcs[k-1]];
    DueSources(r, q, srcs, k - 1, latest, lo, hi, each, level)
      + if Together(r.g, srcs[k-1], latest, r.jointNs)
        then DueWindow(r, q, u, lo, Nearest(r.g.t[u], lo, hi), each, level) else 0.0
  }

  /** The instants of [lo, hi) at which some source was still to come. */
  function Pending(g: Graph, srcs: seq<nat>, lo: int, hi: int): nat
    requires WellFormed(g) && EdgesOk(g, srcs)
    decreases hi - lo
  {
    if hi <= lo then 0
    else
      Pending(g, srcs, lo, hi - 1)
      + if exists k :: 0 <= k < |srcs| && hi - 1 < g.t[g.src[srcs[k]]] then 1 else 0
  }

  /** How long span j waited for its sources: nothing of a call that is not gated. */
  function Waited(g: Graph, j: nat): nat
    requires WellFormed(g) && j < g.n
  {
    if g.gated[j] && !g.excluded[j] then Pending(g, Sources(g, j), g.t[2 * j], g.t[2 * j + 1]) else 0
  }

  /** The due of an account for the waiting of the first n spans. */
  ghost function DueOf(r: Rules, q: Who, n: nat): real
    requires WellFormed(r.g) && n <= r.g.n
  {
    if n == 0 then 0.0 else DueOf(r, q, n - 1) + DueOfSpan(r, q, n - 1)
  }

  ghost function DueOfSpan(r: Rules, q: Who, j: nat): real
    requires WellFormed(r.g) && j < r.g.n
  {
    var srcs, w := Sources(r.g, j), Waited(r.g, j);
    if w == 0 || srcs == [] then 0.0
    else DueSources(r, q, srcs, |srcs|, Latest(r.g, srcs), r.g.t[2 * j], r.g.t[2 * j + 1],
                    w as real / HowMany(r.g, srcs, Latest(r.g, srcs), r.jointNs) as real, 0)
  }

  // ---- the journal charges what is due ----

  /** A part of a share in proportion to its length is a rate per nanosecond. */
  lemma RateOf(share: real, o: int, c: int, w: int)
    requires c > 0 && o > 0
    ensures Share(share, o, c) == share / c as real * o as real
    ensures Share(Share(share, o, c), w, o) == share / c as real * w as real
    ensures Share(share, o, c) - Share(Share(share, o, c), w, o) == share / c as real * (o - w) as real
  {
    var rate := share / c as real;
    Scaled(share, o as real, c as real);
    Cancelled(rate, o as real, w as real);
    assert rate * (o - w) as real == rate * o as real - rate * w as real;
  }

  lemma Scaled(x: real, o: real, c: real)
    requires c > 0.0
    ensures x * o / c == x / c * o
  {
    assert x / c * c == x;
    assert x / c * o * c == x / c * c * o;
  }

  lemma Cancelled(rate: real, o: real, w: real)
    requires o > 0.0
    ensures rate * o * w / o == rate * w
  {
    assert rate * o * w == rate * w * o;
  }

  lemma {:induction false} WindowDue(r: Rules, q: Who, node: nat, a: int, b: int, share: real, level: nat)
    requires WellFormed(r.g) && node < 2 * r.g.n && level <= r.depth
    ensures AmountTo(ForWindow(r, node, a, b, share, level), q) == DueWindow(r, q, node, a, b, share, level)
    decreases r.depth - level, 3, 0
  {
    hide AmountTo, WellFormed, Share;
    AmountNone(q);
    if share > 0.0 && b <= a {
      AmountOne(ToSpan(node / 2, share), q);
    } else if share > 0.0 {
      var ps := Pieces(r.g, node, a, b, r.maxSteps, []);
      var found := if Covered(ps) <= 0 then [ToCause(Unrecorded, share)]
        else ForPieces(r, ps, |ps|, a, b, share, level);
      if Covered(ps) <= 0 {
        AmountOne(ToCause(Unrecorded, share), q);
      } else {
        PiecesDue(r, q, ps, |ps|, a, b, share, level);
      }
      AmountOne(CutShort, q);
      AmountConcat([CutShort], found, q);
    }
  }

  lemma {:induction false} PiecesDue(r: Rules, q: Who, ps: seq<Piece>, k: nat, a: int, b: int, share: real, level: nat)
    requires WellFormed(r.g) && PiecesOk(r.g, ps, a, b) && k <= |ps| && Covered(ps) > 0 && level <= r.depth
    requires share > 0.0
    ensures AmountTo(ForPieces(r, ps, k, a, b, share, level), q)
         == DuePieces(r, q, ps, k, a, b, share / Covered(ps) as real, level)
    decreases r.depth - level, 2, k
  {
    hide AmountTo, WellFormed, Share;
    AmountNone(q);
    if k > 0 {
      PiecesDue(r, q, ps, k - 1, a, b, share, level);
      PieceDue(r, q, ps[k-1], a, b, share, Covered(ps), level);
      AmountConcat(ForPieces(r, ps, k - 1, a, b, share, level),
                   ForPiece(r, ps[k-1], a, b, Share(share, ps[k-1].overlap, Covered(ps)), level), q);
    }
  }

  lemma {:induction false} PieceDue(r: Rules, q: Who, p: Piece, a: int, b: int, share: real, all: int, level: nat)
    requires WellFormed(r.g) && PieceOk(r.g, p, a, b) && all > 0 && level <= r.depth
    ensures AmountTo(ForPiece(r, p, a, b, Share(share, p.overlap, all), level), q)
         == DuePiece(r, q, p, a, b, share / all as real, level)
    decreases r.depth - level, 1, 0
  {
    hide WellFormed, Share, ForWait, DueOnwards, Sources;
    if r.g.mode[p.edge] == Wait {
      var waited := WaitPart(r.g, p, a, b, Share(share, p.overlap, all));
      OnwardsDue(r, q, p, a, b, waited, level);
      WaitingPiece(r, q, p, a, b, share, all, level);
    } else {
      WorkingPiece(r, q, p, a, b, share, all, level);
    }
  }

  lemma WorkingPiece(r: Rules, q: Who, p: Piece, a: int, b: int, share: real, all: int, level: nat)
    requires WellFormed(r.g) && PieceOk(r.g, p, a, b) && all > 0 && level <= r.depth && r.g.mode[p.edge] != Wait
    ensures AmountTo(ForPiece(r, p, a, b, Share(share, p.overlap, all), level), q)
         == DuePiece(r, q, p, a, b, share / all as real, level)
  {
    var g, e := r.g, p.edge;
    InstantsOf(g, e, q, From(g, p, a), To(g, p, b));
    RateOf(share, p.overlap, all, 0);
    hide AmountTo, WellFormed, Share, Answered, Unreleased, Sources;
    if g.mode[e] == Busy {
      AmountOne(ToSpan(g.owner[e], Share(share, p.overlap, all)), q);
    } else {
      AmountOne(ToCause(CauseOf(g.mode[e]), Share(share, p.overlap, all)), q);
    }
  }

  /** Of a piece of a gated call, the part its call was not released for and the part it answers for. */
  lemma WaitingParts(g: Graph, q: Who, p: Piece, a: int, b: int, share: real, all: int)
    requires WellFormed(g) && PieceOk(g, p, a, b) && all > 0 && g.mode[p.edge] == Wait
    ensures var part, rate, j := Share(share, p.overlap, all), share / all as real, g.owner[p.edge];
      && WaitPart(g, p, a, b, part) == Pended(g, p, a, b, rate)
      && EntryFor(ToSpan(j, part - Pended(g, p, a, b, rate)), q) == Earned(g, q, p, a, b, rate)
  {
    var lo, hi := From(g, p, a), To(g, p, b);
    InstantsOf(g, p.edge, q, lo, hi);
    RateOf(share, p.overlap, all, Unreleased(g, p.edge, lo, hi));
    hide Unreleased, Answered, Share;
  }

  lemma ForPieceWaits(r: Rules, p: Piece, a: int, b: int, part: real, level: nat)
    requires WellFormed(r.g) && PieceOk(r.g, p, a, b) && level <= r.depth && r.g.mode[p.edge] == Wait
    ensures var waited := WaitPart(r.g, p, a, b, part);
      ForPiece(r, p, a, b, part, level)
      == [ToSpan(r.g.owner[p.edge], part - waited)] + ForWaited(r, p, a, b, waited, level)
  {
    hide WaitPart, WellFormed, Sources, ForJoint;
  }

  lemma DuePieceWaits(r: Rules, q: Who, p: Piece, a: int, b: int, rate: real, level: nat)
    requires WellFormed(r.g) && PieceOk(r.g, p, a, b) && level <= r.depth && r.g.mode[p.edge] == Wait
    ensures var lo, hi := From(r.g, p, a), To(r.g, p, b);
      DuePiece(r, q, p, a, b, rate, level)
      == Earned(r.g, q, p, a, b, rate) + DueOnwards(r, q, r.g.owner[p.edge], lo, hi, Pended(r.g, p, a, b, rate), level)
  {
    hide Earned, Pended, From, To, WellFormed, Sources, DueSources, HowMany, Latest;
  }

  lemma WaiterIs(g: Graph, p: Piece, a: int, b: int)
    requires WellFormed(g) && PieceOk(g, p, a, b) && g.mode[p.edge] == Wait
    ensures EdgeOk(g, p.edge) && p.edge < |g.owner| && 0 <= g.owner[p.edge] < g.n
  {
  }

  /** What the call answers for and what is waited for together are what the piece is due. */
  lemma WaitingSum(r: Rules, q: Who, p: Piece, a: int, b: int, part: real, rate: real, level: nat)
    requires WellFormed(r.g) && PieceOk(r.g, p, a, b) && level <= r.depth && r.g.mode[p.edge] == Wait
    requires var waited := WaitPart(r.g, p, a, b, part);
      && waited == Pended(r.g, p, a, b, rate)
      && EntryFor(ToSpan(r.g.owner[p.edge], part - waited), q) == Earned(r.g, q, p, a, b, rate)
      && AmountTo(ForWaited(r, p, a, b, waited, level), q)
      == DueOnwards(r, q, r.g.owner[p.edge], From(r.g, p, a), To(r.g, p, b), waited, level)
    ensures AmountTo(ForPiece(r, p, a, b, part, level), q) == DuePiece(r, q, p, a, b, rate, level)
  {
    hide *;
    WaiterIs(r.g, p, a, b);
    var j, waited := r.g.owner[p.edge], WaitPart(r.g, p, a, b, part);
    ForPieceWaits(r, p, a, b, part, level);
    DuePieceWaits(r, q, p, a, b, rate, level);
    AmountOne(ToSpan(j, part - waited), q);
    AmountConcat([ToSpan(j, part - waited)], ForWaited(r, p, a, b, waited, level), q);
  }

  lemma WaitingPiece(r: Rules, q: Who, p: Piece, a: int, b: int, share: real, all: int, level: nat)
    requires WellFormed(r.g) && PieceOk(r.g, p, a, b) && all > 0 && level <= r.depth && r.g.mode[p.edge] == Wait
    requires var waited := WaitPart(r.g, p, a, b, Share(share, p.overlap, all));
      AmountTo(ForWaited(r, p, a, b, waited, level), q)
      == DueOnwards(r, q, r.g.owner[p.edge], From(r.g, p, a), To(r.g, p, b), waited, level)
    ensures AmountTo(ForPiece(r, p, a, b, Share(share, p.overlap, all), level), q)
         == DuePiece(r, q, p, a, b, share / all as real, level)
  {
    hide *;
    WaitingParts(r.g, q, p, a, b, share, all);
    WaitingSum(r, q, p, a, b, Share(share, p.overlap, all), share / all as real, level);
  }

  lemma {:induction false} OnwardsDue(r: Rules, q: Who, p: Piece, a: int, b: int, waited: real, level: nat)
    requires WellFormed(r.g) && PieceOk(r.g, p, a, b) && r.g.mode[p.edge] == Wait && level <= r.depth
    ensures AmountTo(ForWaited(r, p, a, b, waited, level), q)
         == DueOnwards(r, q, r.g.owner[p.edge], From(r.g, p, a), To(r.g, p, b), waited, level)
    decreases r.depth - level, 0, 0
  {
    SourceOk(r.g, p.edge);
    hide AmountTo, WellFormed, Row, JointOf, ForJoint, DueSources;
    var srcs := Sources(r.g, r.g.owner[p.edge]);
    var lo, hi := From(r.g, p, a), To(r.g, p, b);
    if waited > 0.0 && level < r.depth && srcs != [] {
      SourcesDue(r, q, srcs, |srcs|, lo, hi, waited, level + 1);
      PassedDue(r, q, p, a, b, waited, level);
    } else {
      StaysDue(r, q, p, a, b, waited, level);
    }
  }

  /** Waiting that is not passed on. */
  lemma StaysDue(r: Rules, q: Who, p: Piece, a: int, b: int, waited: real, level: nat)
    requires WellFormed(r.g) && PieceOk(r.g, p, a, b) && r.g.mode[p.edge] == Wait && level <= r.depth
    requires waited <= 0.0 || level == r.depth || Sources(r.g, r.g.owner[p.edge]) == []
    ensures AmountTo(ForWaited(r, p, a, b, waited, level), q)
         == DueOnwards(r, q, r.g.owner[p.edge], From(r.g, p, a), To(r.g, p, b), waited, level)
  {
    SourceOk(r.g, p.edge);
    hide AmountTo, WellFormed, JointOf, ForJoint, DueSources, Gates;
    var j := r.g.owner[p.edge];
    AmountNone(q);
    AmountOne(CutShort, q);
    AmountOne(ToSpan(j, waited), q);
    AmountOne(ToCause(UnknownWork, waited), q);
    AmountConcat([CutShort], [ToSpan(j, waited)], q);
    assert [CutShort] + [ToSpan(j, waited)] == [CutShort, ToSpan(j, waited)];
  }

  lemma PassedDue(r: Rules, q: Who, p: Piece, a: int, b: int, waited: real, level: nat)
    requires WellFormed(r.g) && PieceOk(r.g, p, a, b) && r.g.mode[p.edge] == Wait && level < r.depth && waited > 0.0
    requires Sources(r.g, r.g.owner[p.edge]) != []
    requires var srcs := Sources(r.g, r.g.owner[p.edge]);
      var lo, hi := From(r.g, p, a), To(r.g, p, b);
      var joint := JointOf(r.g, srcs, r.jointNs, |srcs|);
      && joint != []
      && AmountTo(ForJoint(r, joint, |joint|, lo, hi, waited, level + 1), q)
      == DueSources(r, q, srcs, |srcs|, Latest(r.g, srcs), lo, hi, waited / |joint| as real, level + 1)
    ensures AmountTo(ForWaited(r, p, a, b, waited, level), q)
         == DueOnwards(r, q, r.g.owner[p.edge], From(r.g, p, a), To(r.g, p, b), waited, level)
  {
    SourceOk(r.g, p.edge);
    hide *;
    var j := r.g.owner[p.edge];
    var srcs := Sources(r.g, j);
    var lo, hi := From(r.g, p, a), To(r.g, p, b);
    var joint := JointOf(r.g, srcs, r.jointNs, |srcs|);
    JointCount(r.g, srcs, r.jointNs, |srcs|);
    ForWaitedOn(r, p, a, b, waited, level);
    DueOnwardsOn(r, q, j, lo, hi, waited, level);
    AmountOne(PassedOn(j, waited), q);
    EntryPassedOn(j, waited, q);
    AmountConcat([PassedOn(j, waited)], ForJoint(r, joint, |joint|, lo, hi, waited, level + 1), q);
  }

  lemma EntryPassedOn(j: nat, ns: real, q: Who)
    ensures EntryFor(PassedOn(j, ns), q) == if q == PassedBy(j) then ns else 0.0
  {
  }

  lemma ForWaitedOn(r: Rules, p: Piece, a: int, b: int, waited: real, level: nat)
    requires WellFormed(r.g) && PieceOk(r.g, p, a, b) && r.g.mode[p.edge] == Wait && level < r.depth && waited > 0.0
    requires Sources(r.g, r.g.owner[p.edge]) != []
    ensures var srcs := Sources(r.g, r.g.owner[p.edge]);
      var joint := JointOf(r.g, srcs, r.jointNs, |srcs|);
      ForWaited(r, p, a, b, waited, level) == [PassedOn(r.g.owner[p.edge], waited)]
        + ForJoint(r, joint, |joint|, From(r.g, p, a), To(r.g, p, b), waited, level + 1)
  {
    hide Sources, JointOf, WellFormed, Max, Min;
  }

  lemma DueOnwardsOn(r: Rules, q: Who, j: nat, lo: int, hi: int, waited: real, level: nat)
    requires WellFormed(r.g) && j < r.g.n && level < r.depth && waited > 0.0 && Sources(r.g, j) != []
    ensures var srcs := Sources(r.g, j);
      var latest := Latest(r.g, srcs);
      DueOnwards(r, q, j, lo, hi, waited, level)
      == (if q == PassedBy(j) then waited else 0.0)
         + DueSources(r, q, srcs, |srcs|, latest, lo, hi,
                      waited / HowMany(r.g, srcs, latest, r.jointNs) as real, level + 1)
  {
    hide Sources, WellFormed, Latest, HowMany;
  }

  lemma TogetherIsJointly(g: Graph, e: nat, latest: nat, jointNs: nat)
    requires WellFormed(g) && EdgeOk(g, e) && EdgeOk(g, latest)
    ensures Together(g, e, latest, jointNs) == Jointly(g, e, latest, jointNs)
  {
  }

  /** The joint sources are as many as released together. */
  lemma {:induction false} JointCount(g: Graph, srcs: seq<nat>, jointNs: nat, k: nat)
    requires WellFormed(g) && EdgesOk(g, srcs) && srcs != [] && k <= |srcs|
    ensures |JointOf(g, srcs, jointNs, k)| == HowMany(g, srcs[..k], Latest(g, srcs), jointNs)
    ensures k == |srcs| ==> srcs[..k] == srcs
  {
    hide WellFormed, Together, Jointly, LatestAt, EdgeOk;
    if k > 0 {
      JointCount(g, srcs, jointNs, k - 1);
      assert EdgeOk(g, srcs[k-1]);
      TogetherIsJointly(g, srcs[k-1], Latest(g, srcs), jointNs);
      assert srcs[..k][..k-1] == srcs[..k-1];
    }
  }

  /** The joint sources among the first k start the list of all of them. */
  lemma {:induction false} JointStarts(g: Graph, srcs: seq<nat>, jointNs: nat, k: nat)
    requires WellFormed(g) && EdgesOk(g, srcs) && srcs != [] && k <= |srcs|
    ensures JointOf(g, srcs, jointNs, k) <= JointOf(g, srcs, jointNs, |srcs|)
    decreases |srcs| - k
  {
    hide WellFormed, Jointly, LatestAt, EdgeOk;
    if k < |srcs| { JointStarts(g, srcs, jointNs, k + 1); }
  }

  /** The k-th source joins the joint ones or does not. */
  lemma JointStep(r: Rules, srcs: seq<nat>, k: nat, lo: int, hi: int, whole: real, level: nat)
    requires WellFormed(r.g) && EdgesOk(r.g, srcs) && srcs != [] && 0 < k <= |srcs| && level <= r.depth && lo <= hi
    ensures var joint := JointOf(r.g, srcs, r.jointNs, |srcs|);
      var before, now := JointOf(r.g, srcs, r.jointNs, k - 1), JointOf(r.g, srcs, r.jointNs, k);
      && joint != [] && |before| <= |now| <= |joint| && EdgeOk(r.g, srcs[k-1])
      && srcs[k-1] < |r.g.src| && r.g.src[srcs[k-1]] < 2 * r.g.n == |r.g.t|
      && if Together(r.g, srcs[k-1], Latest(r.g, srcs), r.jointNs) then
           var u := r.g.src[srcs[k-1]];
           ForJoint(r, joint, |now|, lo, hi, whole, level)
           == ForJoint(r, joint, |before|, lo, hi, whole, level)
              + ForWindow(r, u, lo, Nearest(r.g.t[u], lo, hi), whole / |joint| as real, level)
         else |now| == |before|
  {
    JointMeans(r.g, srcs, r.jointNs, |srcs|);
    JointStarts(r.g, srcs, r.jointNs, k);
    JointStarts(r.g, srcs, r.jointNs, k - 1);
    assert EdgeOk(r.g, srcs[k-1]);
    SourceOk(r.g, srcs[k-1]);
    TogetherIsJointly(r.g, srcs[k-1], Latest(r.g, srcs), r.jointNs);
    var joint := JointOf(r.g, srcs, r.jointNs, |srcs|);
    var before := JointOf(r.g, srcs, r.jointNs, k - 1);
    assert Together(r.g, srcs[k-1], Latest(r.g, srcs), r.jointNs) ==> joint[|before|] == srcs[k-1];
    hide ForWindow, WellFormed, Jointly, Together, LatestAt, EdgeOk;
  }

  lemma {:induction false} SourcesDue(r: Rules, q: Who, srcs: seq<nat>, k: nat, lo: int, hi: int, whole: real,
        level: nat)
    requires WellFormed(r.g) && EdgesOk(r.g, srcs) && srcs != [] && k <= |srcs| && level <= r.depth && lo <= hi
    ensures var joint := JointOf(r.g, srcs, r.jointNs, |srcs|);
      && joint != [] && |JointOf(r.g, srcs, r.jointNs, k)| <= |joint|
      && AmountTo(ForJoint(r, joint, |JointOf(r.g, srcs, r.jointNs, k)|, lo, hi, whole, level), q)
      == DueSources(r, q, srcs, k, Latest(r.g, srcs), lo, hi, whole / |joint| as real, level)
    decreases r.depth - level, 4, k
  {
    hide AmountTo, WellFormed, Together, LatestAt, EdgeOk, JointOf, ForWindow, DueWindow, Latest, Nearest;
    var joint := JointOf(r.g, srcs, r.jointNs, |srcs|);
    AmountNone(q);
    if k == 0 {
      JointMeans(r.g, srcs, r.jointNs, |srcs|);
      NoJointYet(r.g, srcs, r.jointNs);
    } else {
      SourcesDue(r, q, srcs, k - 1, lo, hi, whole, level);
      JointStep(r, srcs, k, lo, hi, whole, level);
      var before, u := JointOf(r.g, srcs, r.jointNs, k - 1), r.g.src[srcs[k-1]];
      hide ForJoint;
      var end, each := Nearest(r.g.t[u], lo, hi), whole / |joint| as real;
      WindowDue(r, q, u, lo, end, each, level);
      AmountConcat(ForJoint(r, joint, |before|, lo, hi, whole, level), ForWindow(r, u, lo, end, each, level), q);
    }
  }

  lemma NoJointYet(g: Graph, srcs: seq<nat>, jointNs: nat)
    requires WellFormed(g) && EdgesOk(g, srcs) && srcs != []
    ensures JointOf(g, srcs, jointNs, 0) == []
  {
  }

  // ---- all waiting ----

  lemma SourceTimes(g: Graph, srcs: seq<nat>)
    requires WellFormed(g) && EdgesOk(g, srcs)
    ensures forall k :: 0 <= k < |srcs| ==> srcs[k] < |g.src| && g.src[srcs[k]] < |g.t|
  {
  }

  /** A gated call has waited until its last source came, or to its end. */
  lemma {:induction false} PendingIs(g: Graph, srcs: seq<nat>, lo: int, hi: int)
    requires WellFormed(g) && EdgesOk(g, srcs) && lo <= hi
    ensures srcs == [] ==> Pending(g, srcs, lo, hi) == 0
    ensures srcs != [] ==> Pending(g, srcs, lo, hi) == Max(0, Min(g.t[g.src[Latest(g, srcs)]], hi) - lo)
    decreases hi - lo
  {
    SourceTimes(g, srcs);
    hide WellFormed, EdgeOk;
    if lo < hi {
      PendingIs(g, srcs, lo, hi - 1);
      if srcs != [] {
        var i := LatestAt(g, srcs);
        assert g.t[g.src[srcs[i]]] > hi - 1 ==> exists k :: 0 <= k < |srcs| && hi - 1 < g.t[g.src[srcs[k]]];
      }
    }
  }

  lemma WaitedIs(g: Graph, j: nat)
    requires WellFormed(g) && j < g.n
    ensures Waited(g, j) == Waiting(g, j)
  {
    NodesTimed(g);
    var lo, hi := g.t[2 * j], g.t[2 * j + 1];
    if lo <= hi { PendingIs(g, Sources(g, j), lo, hi); }
    hide WellFormed, Gates, LatestAt;
  }

  lemma SpanDue(r: Rules, q: Who, j: nat)
    requires WellFormed(r.g) && j < r.g.n
    ensures AmountTo(ForSpan(r, j), q) == DueOfSpan(r, q, j)
  {
    NodesTimed(r.g);
    WaitedIs(r.g, j);
    AmountNone(q);
    hide WellFormed, Waited, AmountTo, ForJoint, DueSources, Gates, LatestAt, JointOf, HowMany;
    var srcs, w := Sources(r.g, j), Waiting(r.g, j);
    if w != 0 {
      SourcesDue(r, q, srcs, |srcs|, r.g.t[2 * j], r.g.t[2 * j + 1], w as real, 0);
      JointCount(r.g, srcs, r.jointNs, |srcs|);
    }
  }

  /** The journal of all waiting charges every account exactly its due. */
  lemma {:induction false} JournalIsDue(r: Rules, q: Who, n: nat)
    requires WellFormed(r.g) && n <= r.g.n
    ensures AmountTo(ForSpans(r, n), q) == DueOf(r, q, n)
  {
    hide WellFormed, AmountTo, ForSpan, DueOfSpan;
    AmountNone(q);
    if n > 0 {
      JournalIsDue(r, q, n - 1);
      SpanDue(r, q, n - 1);
      AmountConcat(ForSpans(r, n - 1), ForSpan(r, n - 1), q);
    }
  }
}
