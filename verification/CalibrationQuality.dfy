/** How good the calibration of src/analysis/edge_calibration.py is on the examples it was fitted to: among the examples
    of a stratum given one probability exactly that share holds, and no other non-decreasing function of the evidence
    score has a lower Brier score. */
module CalibrationQuality {
  import opened IsotonicCore
  import opened Options
  import opened Isotonic
  import opened EdgeCalibration

  // ---- residuals and fitted values ----

  /** What the samples exceed the curve by, each taken as often as h says of the fitted value. */
  function ResidualAt(f: real -> real, h: real -> real): Sample -> real {
    (p: Sample) => p.w * (p.y - f(p.x)) * h(f(p.x))
  }

  lemma {:induction false} BlockResidual(pts: seq<Point>, b: Block, f: seq<real>, g: seq<real>, h: real, j: nat)
    requires BlockOk(pts, b) && |f| == |g| == |pts| && b.first <= j <= b.last + 1
    requires forall k :: b.first <= k <= b.last ==> f[k] == Mean(b) && f[k] - g[k] == h
    ensures Cross(pts, f, g, j) - Cross(pts, f, g, b.first) == Excess(pts, b.first, j, Mean(b)) * h
  {
    hide Excess, Mean, Cross;
    var m := Mean(b);
    if j > b.first {
      BlockResidual(pts, b, f, g, h, j - 1);
      CrossStep(pts, f, g, j, m);
      ExcessStep(pts, b.first, j, m);
      Spread(Cross(pts, f, g, j - 1) - Cross(pts, f, g, b.first), Cross(pts, f, g, j) - Cross(pts, f, g, b.first),
             Excess(pts, b.first, j - 1, m), Excess(pts, b.first, j, m), pts[j-1].sy - m * pts[j-1].sw, h, m - g[j-1]);
    } else {
      NothingYet(pts, j, m, h);
    }
  }

  lemma Spread(c: real, c': real, r: real, r': real, d: real, h: real, h': real)
    requires c == r * h && r' == r + d && c' == c + d * h' && h' == h
    ensures c' == r' * h
  {
    assert (r + d) * h == r * h + d * h;
  }

  lemma NothingYet(pts: seq<Point>, j: nat, m: real, h: real)
    requires j <= |pts|
    ensures Excess(pts, j, j, m) * h == 0.0
  {
  }

  /** Residuals cancel against any function of the fitted value. */
  lemma {:induction false} TilesResidual(pts: seq<Point>, blocks: seq<Block>, k: nat, f: seq<real>, g: seq<real>,
        h: real -> real)
    requires Tiles(pts, blocks, k) && Fits(pts, blocks, f) && k <= |pts| && |g| == |pts|
    requires forall m :: 0 <= m < |f| ==> f[m] - g[m] == h(f[m])
    ensures Cross(pts, f, g, k) == 0.0
  {
    if blocks != [] {
      hide BlockOk, Excess, Tiles, Cross, Mean;
      var n := |blocks| - 1;
      var b := blocks[n];
      TilesInit(pts, blocks, k);
      TileAt(pts, blocks, k, n);
      TilesResidual(pts, blocks[..n], b.first, f, g, h);
      BlockResidual(pts, b, f, g, h(Mean(b)), k);
      NoExcess(pts, b);
    }
  }

  /** f lowered by what h says of its value. */
  function Lowered(f: real -> real, h: real -> real): real -> real {
    (x: real) => f(x) - h(f(x))
  }

  lemma LoweredAt(f: real -> real, h: real -> real)
    ensures forall x :: Lowered(f, h)(x) == f(x) - h(f(x))
  {
  }

  lemma {:induction false} ResidualIsMixed(s: seq<Sample>, f: real -> real, g: real -> real, h: real -> real)
    requires forall x :: g(x) == f(x) - h(f(x))
    ensures Sum(s, ResidualAt(f, h)) == Mixed(s, f, g)
  {
    if s != [] {
      ResidualIsMixed(s[1..], f, g, h);
      var p := s[0];
      assert f(p.x) - g(p.x) == h(f(p.x));
      assert ResidualAt(f, h)(p) == MixedAt(f, g)(p);
      hide ResidualAt, MixedAt;
    }
  }

  lemma ValuesDiffer(f: real -> real, g: real -> real, h: real -> real, pts: seq<Point>)
    requires forall x :: g(x) == f(x) - h(f(x))
    ensures forall m :: 0 <= m < |pts| ==> Values(f, pts)[m] - Values(g, pts)[m] == h(Values(f, pts)[m])
  {
  }

  lemma FittedTiles(s: seq<Sample>, px: seq<real>, fit: seq<real>, blocks: seq<Block>)
    requires Fitted(s, px, fit, blocks)
    ensures var pts := Pool(SortX(s)); Tiles(pts, blocks, |pts|) && Fits(pts, blocks, fit)
  {
    hide Pool, SortX, Tiles, Fits, Rising;
  }

  lemma MixedIs(s: seq<Sample>, f: real -> real, g: real -> real)
    ensures Mixed(s, f, g) == Sum(s, MixedAt(f, g))
  {
  }

  lemma FitResidual(s: seq<Sample>, px: seq<real>, fit: seq<real>, blocks: seq<Block>, h: real -> real)
    requires s != [] && AllPositive(s) && Fitted(s, px, fit, blocks)
    ensures |fit| == |px| > 0 && Sum(s, ResidualAt(Curve(px, fit), h)) == 0.0
  {
    hide *;
    FittedCurve(s, px, fit, blocks);
    var f := Curve(px, fit);
    var g := Lowered(f, h);
    LoweredAt(f, h);
    var t := SortX(s);
    var pts := Pool(t);
    FittedTiles(s, px, fit, blocks);
    MixedIs(s, f, g);
    MixedIs(t, f, g);
    ResidualIsMixed(s, f, g, h);
    SortXSum(s, MixedAt(f, g));
    PoolCross(t, f, g);
    ValuesDiffer(f, g, h, pts);
    TilesResidual(pts, blocks, |pts|, fit, Values(g, pts), h);
  }

  // ---- the share that holds ----

  ghost predicate Proper(strata: map<string, Stratum>) {
    forall st :: st in strata ==> |strata[st].x| == |strata[st].p| > 0
  }

  /** The calibration gives the example the probability v. */
  predicate Gets(strata: map<string, Stratum>, e: Labeled, v: real)
    requires Proper(strata)
  {
    Probability(strata, e.kind, e.provenance, e.score) == Some(v)
  }

  /** How many examples of the stratum get the probability v. */
  function Given(examples: seq<Labeled>, strata: map<string, Stratum>, st: string, v: real): nat
    requires Proper(strata)
  {
    if examples == [] then 0
    else
      var n := |examples| - 1;
      var e := examples[n];
      Given(examples[..n], strata, st, v)
      + (if StratumOf(e.kind, e.provenance) == st && Gets(strata, e, v) then 1 else 0)
  }

  /** How many of those hold. */
  function GivenAndTrue(examples: seq<Labeled>, strata: map<string, Stratum>, st: string, v: real): nat
    requires Proper(strata)
  {
    if examples == [] then 0
    else
      var n := |examples| - 1;
      var e := examples[n];
      GivenAndTrue(examples[..n], strata, st, v)
      + (if StratumOf(e.kind, e.provenance) == st && Gets(strata, e, v) && e.holds then 1 else 0)
  }

  function OnlyAt(v: real): real -> real {
    (y: real) => if y == v then 1.0 else 0.0
  }

  /** What one example of the stratum adds. */
  lemma ResidualOf(e: Labeled, strata: map<string, Stratum>, st: string, v: real)
    requires Proper(strata) && st in strata && StratumOf(e.kind, e.provenance) == st
    ensures ResidualAt(Curve(strata[st].x, strata[st].p), OnlyAt(v))(LabelSample(e)) ==
      if !Gets(strata, e, v) then 0.0 else if e.holds then 1.0 - v else -v
  {
    hide StratumOf, BisectRight;
  }

  lemma SamplesSnoc(lst: seq<Labeled>, e: Labeled)
    ensures Samples(lst + [e]) == Samples(lst) + [LabelSample(e)]
  {
  }

  lemma {:induction false} ResidualCounts(examples: seq<Labeled>, strata: map<string, Stratum>, st: string, v: real)
    requires Proper(strata) && st in strata
    ensures Sum(Samples(InStratum(examples, st)), ResidualAt(Curve(strata[st].x, strata[st].p), OnlyAt(v))) ==
      GivenAndTrue(examples, strata, st, v) as real - v * Given(examples, strata, st, v) as real
  {
    hide ResidualAt, OnlyAt, LabelSample, Samples, Sum, Curve, Step, Gets, Probability, StratumOf;
    var term := ResidualAt(Curve(strata[st].x, strata[st].p), OnlyAt(v));
    if examples == [] {
      NoResidual(term);
    } else {
      var n := |examples| - 1;
      var e := examples[n];
      ResidualCounts(examples[..n], strata, st, v);
      InStratumStep(examples, st);
      if StratumOf(e.kind, e.provenance) == st {
        var lst := InStratum(examples[..n], st);
        SamplesSnoc(lst, e);
        SumSnoc(Samples(lst), LabelSample(e), term);
        ResidualOf(e, strata, st, v);
        OneMore(v, Given(examples[..n], strata, st, v));
      }
    }
  }

  lemma InStratumStep(examples: seq<Labeled>, st: string)
    requires examples != []
    ensures var n := |examples| - 1; var e := examples[n];
      InStratum(examples, st) ==
        if StratumOf(e.kind, e.provenance) == st then InStratum(examples[..n], st) + [e]
        else InStratum(examples[..n], st)
  {
    hide StratumOf;
  }

  lemma NoResidual(term: Sample -> real)
    ensures Sum(Samples([]), term) == 0.0
  {
  }

  lemma OneMore(v: real, n: nat)
    ensures v * (n + 1) as real == v * n as real + v
  {
  }

  /** Of the examples of a stratum that are given a probability, exactly that share holds. */
  lemma ProbabilityIsFrequency(examples: seq<Labeled>, minExamples: nat, strata: map<string, Stratum>, st: string,
                               v: real)
    requires Calibrated(examples, minExamples, strata) && st in strata
    ensures Proper(strata)
    ensures GivenAndTrue(examples, strata, st, v) as real == v * Given(examples, strata, st, v) as real
  {
    forall key: string | key in strata ensures |strata[key].x| == |strata[key].p| > 0 {
      FittedRange(InStratum(examples, key), strata[key]);
    }
    var lst, c := InStratum(examples, st), strata[st];
    var blocks: seq<Block> :| Fitted(Samples(lst), c.x, c.p, blocks);
    FitResidual(Samples(lst), c.x, c.p, blocks, OnlyAt(v));
    ResidualCounts(examples, strata, st, v);
  }

  /** Strata of two kinds without a slash are different, and so are those of two provenances of one kind. */
  lemma StrataApart(k1: string, p1: string, k2: string, p2: string)
    requires '/' !in k1 && '/' !in k2
    ensures StratumOf(k1, p1) == StratumOf(k2, p2) <==> k1 == k2 && p1 == p2
  {
    FirstSlash(k1, p1);
    FirstSlash(k2, p2);
    var s1, s2 := StratumOf(k1, p1), StratumOf(k2, p2);
    if s1 == s2 {
      assert |k1| == |k2|;
      assert k1 == s1[..|k1|] && k2 == s2[..|k2|];
      assert p1 == s1[|k1| + 1..] && p2 == s2[|k2| + 1..];
    }
  }

  lemma FirstSlash(k: string, p: string)
    requires '/' !in k
    ensures |StratumOf(k, p)| > |k| && StratumOf(k, p)[|k|] == '/'
    ensures forall i :: 0 <= i < |k| ==> StratumOf(k, p)[i] != '/'
  {
    assert forall i :: 0 <= i < |k| ==> StratumOf(k, p)[i] == k[i];
  }

  // ---- the Brier score ----

  /** How far the prediction g(score) is from what the examples turned out to be, squared and summed. */
  function BrierSum(lst: seq<Labeled>, g: real -> real): real {
    if lst == [] then 0.0
    else
      var n := |lst| - 1;
      BrierSum(lst[..n], g) + Square(g(lst[n].score as real) - (if lst[n].holds then 1.0 else 0.0))
  }

  lemma {:induction false} BrierIsError(lst: seq<Labeled>, g: real -> real)
    ensures Error(Samples(lst), g) == BrierSum(lst, g)
  {
    if lst != [] {
      var n := |lst| - 1;
      BrierIsError(lst[..n], g);
      assert lst[..n] + [lst[n]] == lst;
      SamplesSnoc(lst[..n], lst[n]);
      SumSnoc(Samples(lst[..n]), LabelSample(lst[n]), ErrorAt(g));
    }
  }

  /** On the examples of a stratum its curve has the least Brier score of all non-decreasing functions of the evidence
      score, and only functions that agree with it on every one of these examples reach it. */
  lemma BrierLeast(lst: seq<Labeled>, c: Stratum, g: real -> real)
    requires Calibrates(lst, c) && Monotone(g)
    ensures |c.x| == |c.p| > 0 && Monotone(Curve(c.x, c.p))
    ensures BrierSum(lst, Curve(c.x, c.p)) <= BrierSum(lst, g)
    ensures BrierSum(lst, Curve(c.x, c.p)) == BrierSum(lst, g) <==>
      forall i :: 0 <= i < |lst| ==> g(lst[i].score as real) == Curve(c.x, c.p)(lst[i].score as real)
  {
    var s := Samples(lst);
    var blocks: seq<Block> :| Fitted(s, c.x, c.p, blocks);
    PavOptimal(s, c.x, c.p, blocks, g);
    var f := Curve(c.x, c.p);
    BrierIsError(lst, f);
    BrierIsError(lst, g);
    DistancePositive(s, f, g);
    hide Fitted, Curve, Step, Monotone, Error, Distance, BrierSum;
    if BrierSum(lst, f) == BrierSum(lst, g) {
      PavUnique(s, c.x, c.p, blocks, g);
      forall i | 0 <= i < |lst| ensures g(lst[i].score as real) == f(lst[i].score as real) {
        assert s[i].x == lst[i].score as real;
      }
    }
    if forall i :: 0 <= i < |lst| ==> g(lst[i].score as real) == f(lst[i].score as real) {
      BrierAgrees(lst, f, g);
    }
  }

  lemma {:induction false} BrierAgrees(lst: seq<Labeled>, f: real -> real, g: real -> real)
    requires forall i :: 0 <= i < |lst| ==> g(lst[i].score as real) == f(lst[i].score as real)
    ensures BrierSum(lst, f) == BrierSum(lst, g)
  {
    if lst != [] {
      var n := |lst| - 1;
      BrierAgrees(lst[..n], f, g);
    }
  }

  // ---- the fit of weighted values ----

  /** The squared errors of g on the first n values, each taken with its weight, 1 without weights. */
  function SquaresTo(xs: seq<real>, ys: seq<real>, ws: seq<real>, g: real -> real, n: nat): real
    requires n <= |xs| == |ys| && (ws == [] || |ws| == |xs|)
  {
    if n == 0 then 0.0
    else
      SquaresTo(xs, ys, ws, g, n - 1)
      + (if ws == [] then Square(g(xs[n-1]) - ys[n-1]) else ws[n-1] * Square(g(xs[n-1]) - ys[n-1]))
  }

  lemma {:induction false} SquaresAre(xs: seq<real>, ys: seq<real>, ws: seq<real>, g: real -> real, n: nat)
    requires n <= |xs| == |ys| && (ws == [] || |ws| == |xs|)
    ensures SquaresTo(xs, ys, ws, g, n) == Error(Zip(xs, ys, ws)[..n], g)
  {
    var s := Zip(xs, ys, ws);
    if n > 0 {
      SquaresAre(xs, ys, ws, g, n - 1);
      assert s[..n] == s[..n-1] + [s[n-1]];
      SumSnoc(s[..n-1], s[n-1], ErrorAt(g));
      var d := g(xs[n-1]) - ys[n-1];
      assert Square(d) == Square(-d);
    }
  }

  /** `pav` on any values with positive weights: no non-decreasing function has a smaller weighted sum of squares. */
  lemma PavLeastSquares(xs: seq<real>, ys: seq<real>, ws: seq<real>, px: seq<real>, fit: seq<real>,
                        blocks: seq<Block>, g: real -> real)
    requires |xs| == |ys| && xs != [] && (ws == [] || |ws| == |xs|) && forall i :: 0 <= i < |ws| ==> ws[i] > 0.0
    requires Fitted(Zip(xs, ys, ws), px, fit, blocks) && Monotone(g)
    ensures |fit| == |px| > 0
    ensures SquaresTo(xs, ys, ws, Curve(px, fit), |xs|) <= SquaresTo(xs, ys, ws, g, |xs|)
  {
    var s := Zip(xs, ys, ws);
    PavOptimal(s, px, fit, blocks, g);
    var f := Curve(px, fit);
    SquaresAre(xs, ys, ws, f, |xs|);
    SquaresAre(xs, ys, ws, g, |xs|);
    DistancePositive(s, f, g);
    assert s[..|xs|] == s;
  }
}
