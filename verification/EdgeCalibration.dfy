/** `pav`, `_step`, `evidence_score`, `fit` and `Calibration.probability` of
    src/analysis/edge_calibration.py. */
module EdgeCalibration {
  import opened IsotonicCore
  import opened Options
  import opened Isotonic

  // ---- reading the fitted curve ----

  ghost predicate Ascending(xs: seq<real>) {
    forall i, j :: 0 <= i < j < |xs| ==> xs[i] < xs[j]
  }

  /** bisect_right: past the last entry that is at most x. */
  function BisectRight(xs: seq<real>, x: real): (k: nat)
    ensures k <= |xs|
  {
    if xs == [] then 0
    else if xs[|xs|-1] <= x then |xs|
    else BisectRight(xs[..|xs|-1], x)
  }

  function Step(xs: seq<real>, fit: seq<real>, x: real): real
    requires |fit| == |xs| > 0
  {
    var k := BisectRight(xs, x) - 1;
    fit[if k < 0 then 0 else k]
  }

  /** The calibrated curve as a function of x. */
  function Curve(xs: seq<real>, fit: seq<real>): real -> real
    requires |fit| == |xs| > 0
  {
    x => Step(xs, fit, x)
  }

  lemma {:induction false} BisectRightMeans(xs: seq<real>, x: real)
    requires Ascending(xs)
    ensures forall i :: 0 <= i < |xs| ==> (i < BisectRight(xs, x) <==> xs[i] <= x)
  {
    if xs != [] && !(xs[|xs|-1] <= x) {
      BisectRightMeans(xs[..|xs|-1], x);
      assert forall i :: 0 <= i < |xs| - 1 ==> xs[..|xs|-1][i] == xs[i];
    }
  }

  lemma BisectRightMonotone(xs: seq<real>, x: real, y: real)
    requires Ascending(xs) && x <= y
    ensures BisectRight(xs, x) <= BisectRight(xs, y)
  {
    BisectRightMeans(xs, x);
    BisectRightMeans(xs, y);
    var k := BisectRight(xs, x);
    assert k > 0 ==> xs[k-1] <= y;
  }

  /** More evidence never means less probable. */
  lemma CurveMonotone(xs: seq<real>, fit: seq<real>)
    requires Ascending(xs) && |fit| == |xs| > 0 && NonDecreasing(fit)
    ensures Monotone(Curve(xs, fit))
  {
    forall x, y | x <= y ensures Curve(xs, fit)(x) <= Curve(xs, fit)(y) {
      BisectRightMonotone(xs, x, y);
    }
  }

  /** At a fitted x the curve takes the fitted value. */
  lemma CurveAt(xs: seq<real>, fit: seq<real>, k: nat)
    requires Ascending(xs) && |fit| == |xs| && k < |xs|
    ensures Curve(xs, fit)(xs[k]) == fit[k]
  {
    BisectRightMeans(xs, xs[k]);
    var b := BisectRight(xs, xs[k]);
    assert b > k;
    assert k + 1 < |xs| ==> xs[k] < xs[k+1];
  }

  /** Between two fitted x the curve keeps the value of the lower one; it is level below the first and above the
      last. */
  lemma CurveBetween(xs: seq<real>, fit: seq<real>, k: nat, x: real)
    requires Ascending(xs) && |fit| == |xs| && k < |xs|
    requires (k == 0 || xs[k] <= x) && (k == |xs| - 1 || x < xs[k+1])
    ensures Curve(xs, fit)(x) == fit[k]
  {
    BisectRightMeans(xs, x);
    var b := BisectRight(xs, x);
    assert xs[k] <= x ==> k < b;
    assert k + 1 < |xs| ==> !(k + 1 < b);
  }

  // ---- the fit ----

  function Zip(xs: seq<real>, ys: seq<real>, ws: seq<real>): (r: seq<Sample>)
    requires |xs| == |ys| && (ws == [] || |ws| == |xs|)
    ensures |r| == |xs|
  {
    seq(|xs|, i requires 0 <= i < |xs| => Sample(xs[i], ys[i], if ws == [] then 1.0 else ws[i]))
  }

  /** px and fit are the pooled points' x and the block means of a tiling with rising means. */
  ghost predicate Fitted(s: seq<Sample>, px: seq<real>, fit: seq<real>, blocks: seq<Block>) {
    var pts := Pool(SortX(s));
    && |px| == |fit| == |pts|
    && (forall k :: 0 <= k < |pts| ==> px[k] == pts[k].x)
    && Tiles(pts, blocks, |pts|) && Rising(blocks, |blocks|) && Fits(pts, blocks, fit)
  }

  method PoolPoints(s: seq<Sample>) returns (pts: seq<Point>)
    ensures pts == Pool(s)
  {
    pts := [];
    for i := 0 to |s|
      invariant pts == Pool(s[..i])
    {
      PoolStep(s, i);
      hide Pool, Joined, Alone;
      var p, n := s[i], |pts|;
      if n > 0 && pts[n-1].x == p.x {
        pts := pts[n-1 := Joined(pts[n-1], p)];
      } else {
        pts := pts + [Alone(p)];
      }
    }
    assert s[..|s|] == s;
  }

  lemma PoolStep(s: seq<Sample>, i: nat)
    requires i < |s|
    ensures Pool(s[..i+1]) == AddPoint(Pool(s[..i]), s[i])
  {
    assert s[..i+1][..i] == s[..i];
    hide AddPoint;
  }

  lemma TilesAppend(pts: seq<Point>, blocks: seq<Block>, k: nat)
    requires Tiles(pts, blocks, k) && Weighted(pts) && k < |pts|
    ensures Tiles(pts, blocks + [Block(pts[k].sy, pts[k].sw, k, k)], k + 1)
  {
    SingleBlock(pts, k);
    hide BlockOk;
  }

  /** Pooling the last two blocks, when the later one lies lower. */
  lemma TilesMerge(pts: seq<Point>, blocks: seq<Block>, k: nat)
    requires Tiles(pts, blocks, k) && Weighted(pts) && |blocks| > 1
    requires Mean(blocks[|blocks|-2]) > Mean(blocks[|blocks|-1])
    ensures var n := |blocks|; var p, q := blocks[n-2], blocks[n-1];
      Tiles(pts, blocks[..n-2] + [Block(p.sy + q.sy, p.sw + q.sw, p.first, q.last)], k)
  {
    var n := |blocks|;
    MergeOk(pts, blocks[n-2], blocks[n-1]);
    hide BlockOk, Mean;
  }

  lemma RisingStep(blocks: seq<Block>)
    requires |blocks| > 0 && Rising(blocks, |blocks| - 1)
    requires |blocks| > 1 ==> Mean(blocks[|blocks|-2]) <= Mean(blocks[|blocks|-1])
    ensures Rising(blocks, |blocks|)
  {
    hide Mean;
  }

  /** The stack of blocks after every point has been pushed and violators pooled. */
  method PoolBlocks(pts: seq<Point>) returns (blocks: seq<Block>)
    requires Weighted(pts)
    ensures Tiles(pts, blocks, |pts|) && Rising(blocks, |blocks|)
  {
    hide Mean, Tiles;
    blocks := [];
    assert Tiles(pts, [], 0) by { TilesNone(pts); }
    for k := 0 to |pts|
      invariant Tiles(pts, blocks, k) && Rising(blocks, |blocks|)
    {
      TilesAppend(pts, blocks, k);
      blocks := blocks + [Block(pts[k].sy, pts[k].sw, k, k)];
      while |blocks| > 1 && Above(pts, k + 1, blocks)
        invariant Tiles(pts, blocks, k + 1) && |blocks| > 0 && Rising(blocks, |blocks| - 1)
        decreases |blocks|
      {
        TilesMerge(pts, blocks, k + 1);
        var n := |blocks|;
        var p, q := blocks[n-2], blocks[n-1];
        blocks := blocks[..n-2] + [Block(p.sy + q.sy, p.sw + q.sw, p.first, q.last)];
      }
      RisingStep(blocks);
    }
  }

  lemma TilesNone(pts: seq<Point>)
    ensures Tiles(pts, [], 0)
  {}

  /** The last block lies below the one before it. */
  predicate Above(ghost pts: seq<Point>, ghost k: nat, blocks: seq<Block>)
    requires |blocks| > 1 && Tiles(pts, blocks, k)
    ensures Above(pts, k, blocks) <==> Mean(blocks[|blocks|-2]) > Mean(blocks[|blocks|-1])
  {
    var n := |blocks|;
    TileAt(pts, blocks, k, n - 2);
    TileAt(pts, blocks, k, n - 1);
    blocks[n-2].sy / blocks[n-2].sw > blocks[n-1].sy / blocks[n-1].sw
  }

  /** Every point gets its block's level. */
  method FillFit(pts: seq<Point>, blocks: seq<Block>) returns (fit: seq<real>)
    requires Tiles(pts, blocks, |pts|)
    ensures Fits(pts, blocks, fit)
  {
    hide BlockOk, Tiles, Mean;
    fit := seq(|pts|, _ => 0.0);
    for i := 0 to |blocks|
      invariant |fit| == |pts|
      invariant forall j, k :: 0 <= j < i && blocks[j].first <= k <= blocks[j].last && k < |fit| ==>
        fit[k] == Mean(blocks[j])
    {
      var b := blocks[i];
      TileAt(pts, blocks, |pts|, i);
      ghost var before := fit;
      for k := b.first to b.last + 1
        invariant |fit| == |pts|
        invariant forall m :: b.first <= m < k ==> fit[m] == Mean(b)
        invariant forall m :: 0 <= m < b.first ==> fit[m] == before[m]
      {
        Level(pts, b);
        fit := fit[k := b.sy / b.sw];
      }
      forall j, k | 0 <= j < i && blocks[j].first <= k <= blocks[j].last && k < |fit|
        ensures fit[k] == Mean(blocks[j])
      {
        BlocksOrdered(pts, blocks, |pts|, j, i);
      }
    }
  }

  lemma Level(pts: seq<Point>, b: Block)
    requires BlockOk(pts, b)
    ensures b.sw != 0.0 && Mean(b) == b.sy / b.sw
  {}

  /** The monotone least-squares fit of ys on xs: the distinct xs and the fitted value at each. */
  method Pav(xs: seq<real>, ys: seq<real>, ws: seq<real>)
    returns (px: seq<real>, fit: seq<real>, ghost blocks: seq<Block>)
    requires |xs| == |ys| && (ws == [] || |ws| == |xs|) && forall i :: 0 <= i < |ws| ==> ws[i] > 0.0
    ensures xs == [] ==> px == [] && fit == []
    ensures |px| == |fit| && Ascending(px) && NonDecreasing(fit)
    ensures forall x :: x in px <==> x in xs
    ensures Fitted(Zip(xs, ys, ws), px, fit, blocks)
  {
    hide Tiles, Rising, HasX, Increasing, AscendingX, Weighted;
    var s := Zip(xs, ys, ws);
    SortXProperties(s);
    SortedPositive(s);
    PoolProperties(SortX(s));
    PooledX(xs, ys, ws);
    var pts := PoolPoints(SortX(s));
    var pooled := PoolBlocks(pts);
    blocks := pooled;
    fit := FillFit(pts, pooled);
    FitNonDecreasing(pts, blocks, fit);
    px := Abscissae(pts);
    AbscissaeProperties(pts);
    assert px != [] ==> px[0] in px;
  }

  function Abscissae(pts: seq<Point>): (r: seq<real>)
    ensures |r| == |pts| && forall k :: 0 <= k < |pts| ==> r[k] == pts[k].x
  {
    seq(|pts|, k requires 0 <= k < |pts| => pts[k].x)
  }

  lemma AbscissaeProperties(pts: seq<Point>)
    requires Increasing(pts)
    ensures Ascending(Abscissae(pts)) && forall x :: x in Abscissae(pts) <==> HasX(pts, x)
  {
    var px := Abscissae(pts);
    forall x ensures x in px <==> HasX(pts, x) {
      if x in px {
        var k :| 0 <= k < |px| && px[k] == x;
        assert pts[k].x == x;
      }
      if HasX(pts, x) {
        var k :| 0 <= k < |pts| && pts[k].x == x;
        assert px[k] == x;
      }
    }
  }

  lemma SortedPositive(s: seq<Sample>)
    requires forall i :: 0 <= i < |s| ==> s[i].w > 0.0
    ensures AllPositive(SortX(s))
  {
    SortXProperties(s);
    forall i | 0 <= i < |SortX(s)| ensures SortX(s)[i].w > 0.0 {
      assert SortX(s)[i] in multiset(SortX(s));
      assert SortX(s)[i] in s;
    }
  }

  lemma PooledX(xs: seq<real>, ys: seq<real>, ws: seq<real>)
    requires |xs| == |ys| && (ws == [] || |ws| == |xs|)
    ensures forall x :: HasX(Pool(SortX(Zip(xs, ys, ws))), x) <==> x in xs
  {
    var s := Zip(xs, ys, ws);
    var t := SortX(s);
    SortXProperties(s);
    forall x ensures HasX(Pool(t), x) <==> x in xs {
      PoolX(t, x);
      hide HasX;
      if SampleX(t, x) {
        var i :| 0 <= i < |t| && t[i].x == x;
        assert t[i] in multiset(s);
        var j :| 0 <= j < |s| && s[j] == t[i];
        assert xs[j] == x;
      }
      if x in xs {
        var j :| 0 <= j < |xs| && xs[j] == x;
        assert s[j] in multiset(t);
        var i :| 0 <= i < |t| && t[i] == s[j];
        assert t[i].x == x;
      }
    }
  }

  // ---- what the fit is ----

  lemma FittedCurve(s: seq<Sample>, px: seq<real>, fit: seq<real>, blocks: seq<Block>)
    requires s != [] && AllPositive(s) && Fitted(s, px, fit, blocks)
    ensures |fit| == |px| > 0 && Ascending(px) && NonDecreasing(fit) && Monotone(Curve(px, fit))
    ensures var pts := Pool(SortX(s)); Weighted(pts) && Values(Curve(px, fit), pts) == fit
  {
    var t := SortX(s);
    var pts := Pool(t);
    SortXProperties(s);
    assert |multiset(t)| == |multiset(s)|;
    SortedPositive(s);
    PoolProperties(t);
    FitNonDecreasing(pts, blocks, fit);
    CurveMonotone(px, fit);
    forall k | 0 <= k < |pts| ensures Curve(px, fit)(pts[k].x) == fit[k] {
      CurveAt(px, fit, k);
    }
  }

  /** The fitted curve is the weighted least-squares optimum among all non-decreasing functions, on the
      samples as given (ties included), and no other function does as well. */
  lemma PavOptimal(s: seq<Sample>, px: seq<real>, fit: seq<real>, blocks: seq<Block>, g: real -> real)
    requires s != [] && AllPositive(s) && Fitted(s, px, fit, blocks) && Monotone(g)
    ensures |fit| == |px| > 0 && Monotone(Curve(px, fit))
    ensures Error(s, Curve(px, fit)) + Distance(s, Curve(px, fit), g) <= Error(s, g)
  {
    FittedCurve(s, px, fit, blocks);
    var f, t := Curve(px, fit), SortX(s);
    var pts := Pool(t);
    ErrorExpand(s, f, g);
    SortXSum(s, MixedAt(f, g));
    PoolCross(t, f, g);
    MonotoneValues(t, g);
    TilesCross(pts, blocks, |pts|, fit, Values(g, pts));
  }

  lemma MonotoneValues(t: seq<Sample>, g: real -> real)
    requires Monotone(g) && Increasing(Pool(t))
    ensures NonDecreasing(Values(g, Pool(t)))
  {}

  lemma {:induction false} DistancePositive(s: seq<Sample>, f: real -> real, g: real -> real)
    requires AllPositive(s)
    ensures Distance(s, f, g) >= 0.0
    ensures Distance(s, f, g) == 0.0 ==> forall i :: 0 <= i < |s| ==> f(s[i].x) == g(s[i].x)
  {
    if s != [] {
      DistancePositive(s[1..], f, g);
      WeightedSquare(s[0].w, f(s[0].x) - g(s[0].x));
      hide Square;
      assert Distance(s, f, g) == DistanceAt(f, g)(s[0]) + Distance(s[1..], f, g);
      if Distance(s, f, g) == 0.0 {
        forall i | 0 <= i < |s| ensures f(s[i].x) == g(s[i].x) {
          assert i > 0 ==> s[i] == s[1..][i-1];
        }
      }
    }
  }

  lemma WeightedSquare(w: real, d: real)
    requires w > 0.0
    ensures w * Square(d) >= 0.0 && (w * Square(d) == 0.0 ==> d == 0.0)
  {
    if d != 0.0 {
      SquarePositive(d);
      ProductPositive(w, Square(d));
    }
  }

  lemma SquarePositive(d: real)
    requires d != 0.0
    ensures Square(d) > 0.0
  {
    var q := Square(d);
    Sign(d, d, q);
  }

  /** A non-decreasing function that does as well as the fit agrees with it at every sample. */
  lemma PavUnique(s: seq<Sample>, px: seq<real>, fit: seq<real>, blocks: seq<Block>, g: real -> real)
    requires s != [] && AllPositive(s) && Fitted(s, px, fit, blocks) && Monotone(g)
    requires |fit| == |px| > 0 && Error(s, g) <= Error(s, Curve(px, fit))
    ensures forall i :: 0 <= i < |s| ==> g(s[i].x) == Curve(px, fit)(s[i].x)
  {
    PavOptimal(s, px, fit, blocks, g);
    DistancePositive(s, Curve(px, fit), g);
  }

  lemma {:induction false} MixedWithLower(s: seq<Sample>, f: real -> real, g: real -> real)
    requires forall x :: g(x) == f(x) - 1.0
    ensures Mixed(s, f, g) == Sum(s, WeightY()) - Sum(s, WeightAt(f))
  {
    if s != [] {
      MixedWithLower(s[1..], f, g);
      var p := s[0];
      assert f(p.x) - g(p.x) == 1.0;
      assert MixedAt(f, g)(p) == WeightY()(p) - WeightAt(f)(p);
    }
  }

  lemma {:induction false} CrossWithLower(pts: seq<Point>, f: seq<real>, g: seq<real>, j: nat)
    requires j <= |pts| == |f| == |g| && forall k :: 0 <= k < |f| ==> f[k] - g[k] == 1.0
    ensures Cross(pts, f, g, j) == SumY(pts, j) - FitTotal(pts, f, j)
  {
    if j > 0 {
      CrossWithLower(pts, f, g, j - 1);
      var e := pts[j-1].sy - f[j-1] * pts[j-1].sw;
      assert f[j-1] - g[j-1] == 1.0;
      assert e * (f[j-1] - g[j-1]) == e;
    }
  }

  /** The fit keeps the samples' weighted total. */
  lemma PavTotal(s: seq<Sample>, px: seq<real>, fit: seq<real>, blocks: seq<Block>)
    requires s != [] && AllPositive(s) && Fitted(s, px, fit, blocks)
    ensures |fit| == |px| > 0 && Sum(s, WeightAt(Curve(px, fit))) == Sum(s, WeightY())
  {
    FittedCurve(s, px, fit, blocks);
    var f := Curve(px, fit);
    var g := x => f(x) - 1.0;
    var t := SortX(s);
    var pts := Pool(t);
    MixedWithLower(s, f, g);
    SortXSum(s, MixedAt(f, g));
    PoolCross(t, f, g);
    CrossWithLower(pts, fit, Values(g, pts), |pts|);
    TilesTotal(pts, blocks, |pts|, fit);
  }

  // ---- the evidence score ----

  datatype Status = Contradicted | Unsupported | Ambiguous | Inferred | Observed
  datatype Tier = Low | Medium | High | Certain

  function StatusOrder(s: Status): nat {
    match s
    case Contradicted => 0
    case Unsupported => 1
    case Ambiguous => 2
    case Inferred => 3
    case Observed => 4
  }

  function TierOrder(t: Tier): nat {
    match t
    case Low => 0
    case Medium => 1
    case High => 2
    case Certain => 3
  }

  function EvidenceScore(status: Status, tier: Tier, direct: bool): int {
    100 * StatusOrder(status) + 10 * TierOrder(tier) + (if direct then 1 else 0)
  }

  /** Scores order candidates by status, then tier, then class, and tell every two apart. */
  lemma EvidenceScoreLexicographic(s1: Status, t1: Tier, d1: bool, s2: Status, t2: Tier, d2: bool)
    ensures EvidenceScore(s1, t1, d1) < EvidenceScore(s2, t2, d2) <==>
      || StatusOrder(s1) < StatusOrder(s2)
      || (s1 == s2 && TierOrder(t1) < TierOrder(t2))
      || (s1 == s2 && t1 == t2 && !d1 && d2)
    ensures EvidenceScore(s1, t1, d1) == EvidenceScore(s2, t2, d2) ==> s1 == s2 && t1 == t2 && d1 == d2
  {}

  // ---- a calibration ----

  datatype Labeled = Labeled(kind: string, provenance: string, score: int, holds: bool)
  datatype Stratum = Stratum(x: seq<real>, p: seq<real>, n: nat)

  function StratumOf(kind: string, provenance: string): string {
    kind + "/" + provenance
  }

  /** The examples of a stratum, in order. */
  function InStratum(examples: seq<Labeled>, st: string): seq<Labeled> {
    if examples == [] then []
    else
      var e := examples[|examples|-1];
      InStratum(examples[..|examples|-1], st) + (if StratumOf(e.kind, e.provenance) == st then [e] else [])
  }

  function LabelSample(e: Labeled): Sample {
    Sample(e.score as real, if e.holds then 1.0 else 0.0, 1.0)
  }

  function Samples(examples: seq<Labeled>): (r: seq<Sample>)
    ensures |r| == |examples| && AllPositive(r)
  {
    seq(|examples|, i requires 0 <= i < |examples| => LabelSample(examples[i]))
  }

  ghost predicate Calibrates(examples: seq<Labeled>, c: Stratum) {
    c.n == |examples| > 0 && exists blocks :: Fitted(Samples(examples), c.x, c.p, blocks)
  }

  /** A stratum is quantified exactly when it occurs with enough examples, by the fit of its own labels. */
  ghost predicate Calibrated(examples: seq<Labeled>, minExamples: nat, strata: map<string, Stratum>) {
    forall st ::
      && (st in strata <==> Enough(InStratum(examples, st), minExamples))
      && (st in strata ==> Calibrates(InStratum(examples, st), strata[st]))
  }

  predicate Enough(examples: seq<Labeled>, minExamples: nat) {
    examples != [] && |examples| >= minExamples
  }

  method GroupExamples(examples: seq<Labeled>) returns (groups: map<string, seq<Labeled>>)
    ensures forall st :: st in groups <==> InStratum(examples, st) != []
    ensures forall st :: st in groups ==> groups[st] == InStratum(examples, st)
  {
    groups := map[];
    for i := 0 to |examples|
      invariant forall st :: st in groups <==> InStratum(examples[..i], st) != []
      invariant forall st :: st in groups ==> groups[st] == InStratum(examples[..i], st)
    {
      var e := examples[i];
      var st := StratumOf(e.kind, e.provenance);
      assert examples[..i+1][..i] == examples[..i];
      groups := groups[st := (if st in groups then groups[st] else []) + [e]];
    }
    assert examples[..|examples|] == examples;
  }

  method FitStrata(examples: seq<Labeled>, minExamples: nat) returns (strata: map<string, Stratum>)
    ensures Calibrated(examples, minExamples, strata)
  {
    var groups := GroupExamples(examples);
    strata := map[];
    var todo := groups.Keys;
    while todo != {}
      invariant todo <= groups.Keys
      invariant forall st :: st in strata <==> st in groups.Keys - todo && |groups[st]| >= minExamples
      invariant forall st :: st in strata ==> Calibrates(groups[st], strata[st])
      decreases todo
    {
      hide Calibrates;
      var st :| st in todo;
      todo := todo - {st};
      var lst := groups[st];
      if |lst| >= minExamples {
        var c := FitStratum(lst);
        strata := strata[st := c];
      }
    }
  }

  method FitStratum(lst: seq<Labeled>) returns (c: Stratum)
    requires lst != []
    ensures Calibrates(lst, c)
  {
    hide Fitted;
    var xs := seq(|lst|, i requires 0 <= i < |lst| => lst[i].score as real);
    var ys := seq(|lst|, i requires 0 <= i < |lst| => if lst[i].holds then 1.0 else 0.0);
    var px, p;
    ghost var blocks;
    px, p, blocks := Pav(xs, ys, []);
    assert Zip(xs, ys, []) == Samples(lst);
    c := Stratum(px, p, |lst|);
  }

  function Probability(strata: map<string, Stratum>, kind: string, provenance: string, score: int): Option<real>
    requires forall st :: st in strata ==> |strata[st].x| == |strata[st].p| > 0
  {
    var st := StratumOf(kind, provenance);
    if st in strata then Some(Step(strata[st].x, strata[st].p, score as real)) else None
  }

  lemma {:induction false} SumBounds(pts: seq<Point>, a: nat, j: nat)
    requires a <= j <= |pts| && forall k :: 0 <= k < |pts| ==> 0.0 <= pts[k].sy <= pts[k].sw
    ensures 0.0 <= SumY(pts, j) - SumY(pts, a) <= SumW(pts, j) - SumW(pts, a)
  {
    if a < j { SumBounds(pts, a, j - 1); }
  }

  lemma {:induction false} PoolBounds(s: seq<Sample>)
    requires forall i :: 0 <= i < |s| ==> 0.0 <= s[i].y <= 1.0 && s[i].w == 1.0
    ensures forall k :: 0 <= k < |Pool(s)| ==> 0.0 <= Pool(s)[k].sy <= Pool(s)[k].sw
  {
    if s != [] { PoolBounds(s[..|s|-1]); }
  }

  lemma MeanBounds(b: Block)
    requires 0.0 <= b.sy <= b.sw && b.sw > 0.0
    ensures 0.0 <= Mean(b) <= 1.0
  {
    MeanTimesWeight(b);
    Factor(Mean(b), b.sw);
    assert (1.0 - Mean(b)) * b.sw == b.sw - b.sy;
    Factor(1.0 - Mean(b), b.sw);
  }

  /** Fitted probabilities are probabilities. */
  lemma FittedRange(lst: seq<Labeled>, c: Stratum)
    requires Calibrates(lst, c)
    ensures |c.x| == |c.p| > 0 && forall k :: 0 <= k < |c.p| ==> 0.0 <= c.p[k] <= 1.0
  {
    var s := Samples(lst);
    var blocks: seq<Block> :| Fitted(s, c.x, c.p, blocks);
    var t := SortX(s);
    var pts := Pool(t);
    FittedCurve(s, c.x, c.p, blocks);
    hide BlockOk, Mean, Monotone, Curve, NonDecreasing, Ascending, Rising, Tiles;
    SamplesBounds(lst);
    PoolBounds(t);
    forall k | 0 <= k < |c.p| ensures 0.0 <= c.p[k] <= 1.0 {
      var i := InBlock(pts, blocks, |pts|, k);
      TileAt(pts, blocks, |pts|, i);
      BlockBounds(pts, blocks[i]);
    }
  }

  lemma BlockBounds(pts: seq<Point>, b: Block)
    requires BlockOk(pts, b) && forall k :: 0 <= k < |pts| ==> 0.0 <= pts[k].sy <= pts[k].sw
    ensures 0.0 <= Mean(b) <= 1.0
  {
    SumBounds(pts, b.first, b.last + 1);
    MeanBounds(b);
  }

  lemma SamplesBounds(lst: seq<Labeled>)
    ensures var t := SortX(Samples(lst)); forall i :: 0 <= i < |t| ==> 0.0 <= t[i].y <= 1.0 && t[i].w == 1.0
  {
    var s := Samples(lst);
    var t := SortX(s);
    SortXProperties(s);
    forall i | 0 <= i < |t| ensures 0.0 <= t[i].y <= 1.0 && t[i].w == 1.0 {
      assert t[i] in multiset(t) && t[i] in s;
    }
  }

  /** Within a stratum a calibrated probability exists exactly when there are enough examples, lies in
      [0, 1], and never falls as the evidence score rises. */
  lemma ProbabilityProperties(examples: seq<Labeled>, minExamples: nat, strata: map<string, Stratum>,
                              kind: string, provenance: string, s1: int, s2: int)
    requires Calibrated(examples, minExamples, strata) && s1 <= s2
    ensures forall st :: st in strata ==> |strata[st].x| == |strata[st].p| > 0
    ensures Probability(strata, kind, provenance, s1).Some? <==>
              Enough(InStratum(examples, StratumOf(kind, provenance)), minExamples)
    ensures Probability(strata, kind, provenance, s1).Some? ==>
      var p1 := Probability(strata, kind, provenance, s1);
      var p2 := Probability(strata, kind, provenance, s2);
      p2.Some? && 0.0 <= p1.value <= p2.value <= 1.0
  {
    forall st: string | st in strata ensures |strata[st].x| == |strata[st].p| > 0 {
      FittedRange(InStratum(examples, st), strata[st]);
    }
    var st := StratumOf(kind, provenance);
    if st in strata {
      var lst, c := InStratum(examples, st), strata[st];
      FittedRange(lst, c);
      var blocks: seq<Block> :| Fitted(Samples(lst), c.x, c.p, blocks);
      FittedCurve(Samples(lst), c.x, c.p, blocks);
      var x1, x2 := s1 as real, s2 as real;
      assert Curve(c.x, c.p)(x1) <= Curve(c.x, c.p)(x2);
    }
  }
}
