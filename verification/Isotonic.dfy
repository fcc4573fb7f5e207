/** Isotonic regression of labelled samples: `pav` and `_step` of
    src/analysis/edge_calibration.py, from the samples to the calibrated curve. */
module Isotonic {
  import opened IsotonicCore

  datatype Sample = Sample(x: real, y: real, w: real)

  ghost predicate AllPositive(s: seq<Sample>) {
    forall i :: 0 <= i < |s| ==> s[i].w > 0.0
  }

  ghost predicate Monotone(g: real -> real) {
    forall x, y :: x <= y ==> g(x) <= g(y)
  }

  // ---- the objective ----

  function Square(x: real): real {
    x * x
  }

  function Sum(s: seq<Sample>, term: Sample -> real): real {
    if s == [] then 0.0 else term(s[0]) + Sum(s[1..], term)
  }

  function ErrorAt(g: real -> real): Sample -> real {
    (p: Sample) => p.w * Square(p.y - g(p.x))
  }

  function DistanceAt(f: real -> real, g: real -> real): Sample -> real {
    (p: Sample) => p.w * Square(f(p.x) - g(p.x))
  }

  function MixedAt(f: real -> real, g: real -> real): Sample -> real {
    (p: Sample) => p.w * (p.y - f(p.x)) * (f(p.x) - g(p.x))
  }

  function WeightAt(f: real -> real): Sample -> real {
    (p: Sample) => p.w * f(p.x)
  }

  function WeightY(): Sample -> real {
    (p: Sample) => p.w * p.y
  }

  /** Weighted squared error of g on the samples. */
  function Error(s: seq<Sample>, g: real -> real): real {
    Sum(s, ErrorAt(g))
  }

  /** Weighted squared distance of two functions at the samples. */
  function Distance(s: seq<Sample>, f: real -> real, g: real -> real): real {
    Sum(s, DistanceAt(f, g))
  }

  function Mixed(s: seq<Sample>, f: real -> real, g: real -> real): real {
    Sum(s, MixedAt(f, g))
  }

  lemma SquareExpand(w: real, y: real, f: real, g: real)
    ensures w * Square(y - g) == w * Square(y - f) + 2.0 * (w * (y - f) * (f - g)) + w * Square(f - g)
  {
    var a, b := y - f, f - g;
    assert Square(a + b) == Square(a) + 2.0 * (a * b) + Square(b);
    assert y - g == a + b;
    assert w * (2.0 * (a * b)) == 2.0 * (w * a * b);
  }

  lemma {:induction false} ErrorExpand(s: seq<Sample>, f: real -> real, g: real -> real)
    ensures Error(s, g) == Error(s, f) + 2.0 * Mixed(s, f, g) + Distance(s, f, g)
  {
    if s != [] {
      ErrorExpand(s[1..], f, g);
      SquareExpand(s[0].w, s[0].y, f(s[0].x), g(s[0].x));
      assert ErrorAt(g)(s[0]) == ErrorAt(f)(s[0]) + 2.0 * MixedAt(f, g)(s[0]) + DistanceAt(f, g)(s[0]);
      hide ErrorAt, MixedAt, DistanceAt;
    }
  }

  // ---- sorting by x ----

  function InsertX(p: Sample, s: seq<Sample>): seq<Sample> {
    if s == [] || p.x <= s[0].x then [p] + s else [s[0]] + InsertX(p, s[1..])
  }

  function SortX(s: seq<Sample>): seq<Sample> {
    if s == [] then [] else InsertX(s[0], SortX(s[1..]))
  }

  ghost predicate AscendingX(s: seq<Sample>) {
    forall i, j :: 0 <= i < j < |s| ==> s[i].x <= s[j].x
  }

  lemma {:induction false} InsertXProperties(p: Sample, s: seq<Sample>)
    ensures multiset(InsertX(p, s)) == multiset(s) + multiset{p}
    ensures AscendingX(s) ==> AscendingX(InsertX(p, s))
  {
    if s == [] || p.x <= s[0].x {
    } else {
      InsertXProperties(p, s[1..]);
      var r := InsertX(p, s[1..]);
      assert s == [s[0]] + s[1..];
      if AscendingX(s) {
        assert AscendingX(s[1..]) && forall i :: 0 <= i < |s[1..]| ==> s[0].x <= s[1..][i].x;
        hide InsertX;
        ConsAscending(s[0], p, s[1..], r);
      }
    }
  }

  lemma ConsAscending(q: Sample, p: Sample, s: seq<Sample>, r: seq<Sample>)
    requires AscendingX(r) && multiset(r) == multiset(s) + multiset{p}
    requires q.x <= p.x && forall i :: 0 <= i < |s| ==> q.x <= s[i].x
    ensures AscendingX([q] + r)
  {
    forall i | 0 <= i < |r| ensures q.x <= r[i].x {
      assert r[i] in multiset(r);
      assert r[i] == p || r[i] in s;
    }
  }

  lemma {:induction false} SortXProperties(s: seq<Sample>)
    ensures multiset(SortX(s)) == multiset(s) && AscendingX(SortX(s))
  {
    if s != [] {
      SortXProperties(s[1..]);
      InsertXProperties(s[0], SortX(s[1..]));
      assert s == [s[0]] + s[1..];
    }
  }

  lemma {:induction false} InsertXSum(p: Sample, s: seq<Sample>, term: Sample -> real)
    ensures Sum(InsertX(p, s), term) == term(p) + Sum(s, term)
  {
    if s == [] || p.x <= s[0].x {
      assert ([p] + s)[1..] == s;
    } else {
      InsertXSum(p, s[1..], term);
      assert ([s[0]] + InsertX(p, s[1..]))[1..] == InsertX(p, s[1..]);
    }
  }

  /** Sorting does not change a sum. */
  lemma {:induction false} SortXSum(s: seq<Sample>, term: Sample -> real)
    ensures Sum(SortX(s), term) == Sum(s, term)
  {
    if s != [] {
      SortXSum(s[1..], term);
      InsertXSum(s[0], SortX(s[1..]), term);
    }
  }

  // ---- pooling equal x ----

  /** A sample by itself, and one more at the same x. */
  function Alone(p: Sample): Point {
    Point(p.x, p.w * p.y, p.w)
  }

  function Joined(q: Point, p: Sample): Point {
    Point(q.x, q.sy + p.w * p.y, q.sw + p.w)
  }

  function AddPoint(pts: seq<Point>, p: Sample): seq<Point> {
    var n := |pts|;
    if n > 0 && pts[n-1].x == p.x then pts[n-1 := Joined(pts[n-1], p)] else pts + [Alone(p)]
  }

  function Pool(s: seq<Sample>): seq<Point> {
    if s == [] then [] else AddPoint(Pool(s[..|s|-1]), s[|s|-1])
  }

  ghost predicate Increasing(pts: seq<Point>) {
    forall i, j :: 0 <= i < j < |pts| ==> pts[i].x < pts[j].x
  }

  ghost predicate HasX(pts: seq<Point>, x: real) {
    exists k :: 0 <= k < |pts| && pts[k].x == x
  }

  ghost predicate SampleX(s: seq<Sample>, x: real) {
    exists i :: 0 <= i < |s| && s[i].x == x
  }

  lemma AddPointProperties(pts: seq<Point>, p: Sample)
    requires Increasing(pts) && Weighted(pts) && p.w > 0.0
    requires pts != [] ==> pts[|pts|-1].x <= p.x
    ensures var r := AddPoint(pts, p);
      Increasing(r) && Weighted(r) && r != [] && r[|r|-1].x == p.x
  {}

  lemma AddPointX(pts: seq<Point>, p: Sample, x: real)
    ensures HasX(AddPoint(pts, p), x) <==> HasX(pts, x) || x == p.x
  {
    var r, n := AddPoint(pts, p), |pts|;
    assert forall k :: 0 <= k < n ==> r[k].x == pts[k].x;
    assert r[|r|-1].x == p.x;
    if HasX(pts, x) {
      var k :| 0 <= k < n && pts[k].x == x;
      assert r[k].x == x;
    }
  }

  /** The points of samples in ascending order are strictly increasing, positive, and at the samples' x. */
  lemma {:induction false} PoolProperties(s: seq<Sample>)
    requires AscendingX(s) && AllPositive(s)
    ensures var pts := Pool(s);
      Increasing(pts) && Weighted(pts) && (s != [] ==> pts != [] && pts[|pts|-1].x == s[|s|-1].x)
  {
    if s != [] {
      PoolProperties(s[..|s|-1]);
      AddPointProperties(Pool(s[..|s|-1]), s[|s|-1]);
    }
  }

  lemma {:induction false} PoolX(s: seq<Sample>, x: real)
    ensures HasX(Pool(s), x) <==> SampleX(s, x)
  {
    if s != [] {
      var n := |s| - 1;
      PoolX(s[..n], x);
      AddPointX(Pool(s[..n]), s[n], x);
      hide HasX;
      if SampleX(s[..n], x) {
        var i :| 0 <= i < n && s[..n][i].x == x;
        assert s[i].x == x;
      }
      if SampleX(s, x) {
        var i :| 0 <= i < |s| && s[i].x == x;
        assert i < n ==> s[..n][i].x == x;
      }
    }
  }

  function Values(f: real -> real, pts: seq<Point>): (r: seq<real>)
    ensures |r| == |pts| && forall k :: 0 <= k < |pts| ==> r[k] == f(pts[k].x)
  {
    seq(|pts|, k requires 0 <= k < |pts| => f(pts[k].x))
  }

  lemma {:induction false} CrossPrefix(pts: seq<Point>, pts': seq<Point>, f: real -> real, g: real -> real, j: nat)
    requires j <= |pts| && j <= |pts'| && pts[..j] == pts'[..j]
    ensures Cross(pts, Values(f, pts), Values(g, pts), j) == Cross(pts', Values(f, pts'), Values(g, pts'), j)
  {
    if j > 0 {
      assert pts[..j-1] == pts[..j][..j-1] && pts'[..j-1] == pts'[..j][..j-1];
      assert pts[j-1] == pts[..j][j-1] == pts'[..j][j-1] == pts'[j-1];
      CrossPrefix(pts, pts', f, g, j - 1);
    }
  }

  lemma {:induction false} SumSnoc(s: seq<Sample>, p: Sample, term: Sample -> real)
    ensures Sum(s + [p], term) == Sum(s, term) + term(p)
  {
    if s == [] {
      assert s + [p] == [p];
    } else {
      SumSnoc(s[1..], p, term);
      assert (s + [p])[1..] == s[1..] + [p];
    }
  }

  lemma MixedTerm(w: real, y: real, f: real, g: real, sy: real, sw: real)
    ensures (sy + w * y - f * (sw + w)) * (f - g) == (sy - f * sw) * (f - g) + w * (y - f) * (f - g)
  {
    var a, b := sy - f * sw, w * (y - f);
    assert sy + w * y - f * (sw + w) == a + b;
  }

  lemma CrossLast(pts: seq<Point>, f: real -> real, g: real -> real)
    requires pts != []
    ensures var m, p := |pts| - 1, pts[|pts|-1];
      Cross(pts, Values(f, pts), Values(g, pts), m + 1)
        == Cross(pts, Values(f, pts), Values(g, pts), m) + (p.sy - f(p.x) * p.sw) * (f(p.x) - g(p.x))
  {}

  lemma AddPointCross(pts: seq<Point>, p: Sample, f: real -> real, g: real -> real)
    ensures var r := AddPoint(pts, p);
      Cross(r, Values(f, r), Values(g, r), |r|)
        == Cross(pts, Values(f, pts), Values(g, pts), |pts|) + MixedAt(f, g)(p)
  {
    var r, m := AddPoint(pts, p), |pts|;
    CrossLast(r, f, g);
    hide Cross;
    if m > 0 && pts[m-1].x == p.x {
      CrossLast(pts, f, g);
      CrossPrefix(pts, r, f, g, m - 1);
      MixedTerm(p.w, p.y, f(p.x), g(p.x), pts[m-1].sy, pts[m-1].sw);
    } else {
      CrossPrefix(pts, r, f, g, m);
      MixedTerm(p.w, p.y, f(p.x), g(p.x), 0.0, 0.0);
    }
  }

  /** The mixed sum over samples is the cross sum over the pooled points. */
  lemma {:induction false} PoolCross(s: seq<Sample>, f: real -> real, g: real -> real)
    ensures var pts := Pool(s); Mixed(s, f, g) == Cross(pts, Values(f, pts), Values(g, pts), |pts|)
  {
    if s != [] {
      hide AddPoint, MixedAt;
      var n := |s| - 1;
      PoolCross(s[..n], f, g);
      assert s == s[..n] + [s[n]];
      SumSnoc(s[..n], s[n], MixedAt(f, g));
      AddPointCross(Pool(s[..n]), s[n], f, g);
    }
  }
}
