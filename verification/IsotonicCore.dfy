/** Pool-adjacent-violators on points with distinct abscissae: the block structure of
    `pav` in src/analysis/edge_calibration.py and why it is a least-squares optimum. */
module IsotonicCore {

  /** A distinct x with the sum of w*y and the sum of w of its samples. */
  datatype Point = Point(x: real, sy: real, sw: real)

  /** Consecutive points pooled together: their sums, the first and the last index. */
  datatype Block = Block(sy: real, sw: real, first: nat, last: nat)

  ghost predicate Weighted(pts: seq<Point>) {
    forall k :: 0 <= k < |pts| ==> pts[k].sw > 0.0
  }

  // ---- prefix sums ----

  function SumY(pts: seq<Point>, j: nat): real
    requires j <= |pts|
  {
    if j == 0 then 0.0 else SumY(pts, j - 1) + pts[j-1].sy
  }

  function SumW(pts: seq<Point>, j: nat): real
    requires j <= |pts|
  {
    if j == 0 then 0.0 else SumW(pts, j - 1) + pts[j-1].sw
  }

  lemma {:induction false} SumWGrows(pts: seq<Point>, a: nat, j: nat)
    requires Weighted(pts) && a <= j <= |pts|
    ensures SumW(pts, a) <= SumW(pts, j) && (a < j ==> SumW(pts, a) < SumW(pts, j))
  {
    if a < j { SumWGrows(pts, a, j - 1); }
  }

  /** What points a..j-1 exceed the level m by, weighted. */
  function Excess(pts: seq<Point>, a: nat, j: nat, m: real): real
    requires a <= |pts| && j <= |pts|
  {
    SumY(pts, j) - SumY(pts, a) - m * (SumW(pts, j) - SumW(pts, a))
  }

  /** The block's level; its weight is positive. */
  function Mean(b: Block): real {
    if b.sw == 0.0 then 0.0 else b.sy / b.sw
  }

  /** The block holds the sums of its points, and no prefix of it lies below its mean. */
  ghost predicate BlockOk(pts: seq<Point>, b: Block) {
    && b.first <= b.last < |pts|
    && b.sy == SumY(pts, b.last + 1) - SumY(pts, b.first)
    && b.sw == SumW(pts, b.last + 1) - SumW(pts, b.first)
    && b.sw > 0.0
    && forall j :: b.first <= j <= b.last + 1 ==> Excess(pts, b.first, j, Mean(b)) >= 0.0
  }

  /** The blocks tile the first k points. */
  ghost predicate Tiles(pts: seq<Point>, blocks: seq<Block>, k: nat) {
    && (forall i :: 0 <= i < |blocks| ==> BlockOk(pts, blocks[i]))
    && (if blocks == [] then k == 0 else blocks[0].first == 0 && blocks[|blocks|-1].last + 1 == k)
    && (forall i, j :: 0 <= i < |blocks| && j == i + 1 && j < |blocks| ==> blocks[j].first == blocks[i].last + 1)
  }

  /** The means of the first n blocks do not decrease. */
  ghost predicate Rising(blocks: seq<Block>, n: nat) {
    forall i, j :: 0 <= i < j < n && j < |blocks| ==> Mean(blocks[i]) <= Mean(blocks[j])
  }

  lemma MeanTimesWeight(b: Block)
    requires b.sw > 0.0
    ensures Mean(b) * b.sw == b.sy
  {}

  /** A single point is a block. */
  lemma SingleBlock(pts: seq<Point>, k: nat)
    requires Weighted(pts) && k < |pts|
    ensures BlockOk(pts, Block(pts[k].sy, pts[k].sw, k, k))
  {
    MeanTimesWeight(Block(pts[k].sy, pts[k].sw, k, k));
  }

  /** Merging a block with a lower one after it keeps prefixes above the common mean. */
  lemma MergeOk(pts: seq<Point>, p: Block, q: Block)
    requires Weighted(pts) && BlockOk(pts, p) && BlockOk(pts, q) && q.first == p.last + 1 && Mean(p) > Mean(q)
    ensures BlockOk(pts, Block(p.sy + q.sy, p.sw + q.sw, p.first, q.last))
    ensures Mean(q) <= Mean(Block(p.sy + q.sy, p.sw + q.sw, p.first, q.last)) <= Mean(p)
  {
    var b := Block(p.sy + q.sy, p.sw + q.sw, p.first, q.last);
    var m, mp, mq := Mean(b), Mean(p), Mean(q);
    MeanTimesWeight(b);
    MeanTimesWeight(p);
    MeanTimesWeight(q);
    MeanBetween(p.sw, q.sw, mp, mq, m);
    forall j | b.first <= j <= b.last + 1 ensures Excess(pts, b.first, j, m) >= 0.0 {
      if j <= p.last + 1 {
        SumWGrows(pts, p.first, j);
        LowerLevel(pts, p.first, j, mp, m);
      } else {
        SumWGrows(pts, j, q.last + 1);
        UpperLevel(pts, p, q, j, m);
      }
    }
  }

  lemma MeanBetween(u: real, v: real, mp: real, mq: real, m: real)
    requires u > 0.0 && v > 0.0 && mp > mq && m * (u + v) == mp * u + mq * v
    ensures mq <= m <= mp
  {
    assert (m - mq) * (u + v) == (mp - mq) * u;
    assert (mp - m) * (u + v) == (mp - mq) * v;
    Product(mp - mq, u);
    Product(mp - mq, v);
    Factor(m - mq, u + v);
    Factor(mp - m, u + v);
  }

  lemma Product(x: real, y: real)
    requires x >= 0.0 && y >= 0.0
    ensures x * y >= 0.0
  {}

  lemma ProductPositive(x: real, y: real)
    requires x > 0.0 && y > 0.0
    ensures x * y > 0.0
  {}

  lemma Sign(x: real, y: real, q: real)
    requires (x > 0.0 && y > 0.0) || (x < 0.0 && y < 0.0)
    requires q == x * y
    ensures q > 0.0
  {}

  lemma Factor(x: real, y: real)
    requires x * y >= 0.0 && y > 0.0
    ensures x >= 0.0
  {
    if x < 0.0 { ProductPositive(-x, y); }
  }

  lemma LowerLevel(pts: seq<Point>, a: nat, j: nat, hi: real, lo: real)
    requires a <= j <= |pts| && SumW(pts, a) <= SumW(pts, j) && lo <= hi
    ensures Excess(pts, a, j, lo) >= Excess(pts, a, j, hi)
  {
    var w := SumW(pts, j) - SumW(pts, a);
    Product(hi - lo, w);
    assert (hi - lo) * w == hi * w - lo * w;
  }

  /** Past the first block, the rest of the second can pull the excess down to 0 but not below. */
  lemma UpperLevel(pts: seq<Point>, p: Block, q: Block, j: nat, m: real)
    requires BlockOk(pts, p) && BlockOk(pts, q) && q.first == p.last + 1 && q.first <= j <= q.last + 1
    requires SumW(pts, j) <= SumW(pts, q.last + 1) && Mean(q) <= m && m * (p.sw + q.sw) == p.sy + q.sy
    ensures Excess(pts, p.first, j, m) >= 0.0
  {
    hide *;
    QFacts(pts, p, q, j);
    var y, w := SumY(pts, j) - SumY(pts, q.first), SumW(pts, j) - SumW(pts, q.first);
    var all, weight := SumY(pts, j) - SumY(pts, p.first), SumW(pts, j) - SumW(pts, p.first);
    UpperReal(p.sy, p.sw, q.sy, q.sw, y, w, all, weight, m, Mean(q));
    ExcessIs(pts, p.first, j, m);
  }

  lemma ExcessIs(pts: seq<Point>, a: nat, j: nat, m: real)
    requires a <= |pts| && j <= |pts|
    ensures Excess(pts, a, j, m) == SumY(pts, j) - SumY(pts, a) - m * (SumW(pts, j) - SumW(pts, a))
  {
  }

  lemma UpperReal(py: real, pw: real, qy: real, qw: real, y: real, w: real, Y: real, W: real, m: real, mq: real)
    requires m * (pw + qw) == py + qy && mq * qw == qy && y - mq * w >= 0.0 && w <= qw && mq <= m
    requires Y == py + y && W == pw + w
    ensures Y - m * W >= 0.0
  {
    Product(m - mq, qw - w);
    Expand(m, mq, qw, w);
    Expand(m, 0.0, pw, -qw);
    Expand(m, 0.0, pw, -w);
  }

  lemma Expand(x: real, y: real, u: real, v: real)
    ensures (x - y) * (u - v) == x * u - x * v - y * u + y * v
    ensures x * (u - v) == x * u - x * v
    ensures x * -v == -(x * v)
  {
  }

  lemma QFacts(pts: seq<Point>, p: Block, q: Block, j: nat)
    requires BlockOk(pts, p) && BlockOk(pts, q) && q.first == p.last + 1 && q.first <= j <= q.last + 1
    ensures q.last < |pts| && p.first <= p.last
    ensures SumY(pts, q.first) - SumY(pts, p.first) == p.sy && SumW(pts, q.first) - SumW(pts, p.first) == p.sw
    ensures SumW(pts, q.last + 1) == SumW(pts, q.first) + q.sw && Mean(q) * q.sw == q.sy
    ensures var y, w := SumY(pts, j) - SumY(pts, q.first), SumW(pts, j) - SumW(pts, q.first);
      y - Mean(q) * w >= 0.0
  {
    MeanTimesWeight(q);
    assert Excess(pts, q.first, j, Mean(q)) >= 0.0;
  }

  // ---- optimality ----

  /** Sum over the first j points of (sy - f sw) (f - g). */
  function Cross(pts: seq<Point>, f: seq<real>, g: seq<real>, j: nat): real
    requires j <= |pts| && |f| == |g| == |pts|
  {
    if j == 0 then 0.0
    else Cross(pts, f, g, j - 1) + (pts[j-1].sy - f[j-1] * pts[j-1].sw) * (f[j-1] - g[j-1])
  }

  ghost predicate NonDecreasing(g: seq<real>) {
    forall i, j :: 0 <= i <= j < |g| ==> g[i] <= g[j]
  }

  /** f takes the mean of the block on every point of each block. */
  ghost predicate Fits(pts: seq<Point>, blocks: seq<Block>, f: seq<real>) {
    && |f| == |pts|
    && forall i, k :: 0 <= i < |blocks| && blocks[i].first <= k <= blocks[i].last && k < |f| ==>
         f[k] == Mean(blocks[i])
  }

  /** Summation by parts within a block: non-negative prefix excesses against a non-decreasing g. */
  lemma {:induction false} BlockCross(pts: seq<Point>, b: Block, f: seq<real>, g: seq<real>, j: nat)
    requires BlockOk(pts, b) && |f| == |g| == |pts| && NonDecreasing(g)
    requires forall k :: b.first <= k <= b.last ==> f[k] == Mean(b)
    requires b.first < j <= b.last + 1
    ensures Cross(pts, f, g, j) - Cross(pts, f, g, b.first) >= Excess(pts, b.first, j, Mean(b)) * (Mean(b) - g[j-1])
  {
    hide Excess, Mean, Cross;
    var m, a := Mean(b), b.first;
    var d := pts[j-1].sy - m * pts[j-1].sw;
    ExcessStep(pts, a, j, m);
    CrossStep(pts, f, g, j, m);
    var c, c' := Cross(pts, f, g, j - 1) - Cross(pts, f, g, a), Cross(pts, f, g, j) - Cross(pts, f, g, a);
    if j > a + 1 {
      BlockCross(pts, b, f, g, j - 1);
      Abel(c, c', Excess(pts, a, j - 1, m), Excess(pts, a, j, m), d, m, g[j-1], g[j-2]);
    } else {
      Abel(c, c', 0.0, Excess(pts, a, j, m), d, m, g[j-1], g[j-1]);
    }
  }

  lemma CrossStep(pts: seq<Point>, f: seq<real>, g: seq<real>, j: nat, m: real)
    requires 0 < j <= |pts| && |f| == |g| == |pts| && f[j-1] == m
    ensures Cross(pts, f, g, j) == Cross(pts, f, g, j - 1) + (pts[j-1].sy - m * pts[j-1].sw) * (m - g[j-1])
  {}

  lemma ExcessStep(pts: seq<Point>, a: nat, j: nat, m: real)
    requires a < j <= |pts|
    ensures Excess(pts, a, j, m) == Excess(pts, a, j - 1, m) + (pts[j-1].sy - m * pts[j-1].sw)
    ensures Excess(pts, a, a, m) == 0.0
  {
    var w, d := SumW(pts, j - 1) - SumW(pts, a), pts[j-1].sw;
    assert m * (w + d) == m * w + m * d;
  }

  lemma Abel(c: real, c': real, r: real, r': real, d: real, m: real, g: real, g': real)
    requires c >= r * (m - g') && r >= 0.0 && g' <= g && c' == c + d * (m - g) && r' == r + d
    ensures c' >= r' * (m - g)
  {
    Product(r, g - g');
    assert r * (g - g') == r * (m - g') - r * (m - g);
    assert r' * (m - g) == r * (m - g) + d * (m - g);
  }

  lemma {:induction false} TilesCross(pts: seq<Point>, blocks: seq<Block>, k: nat, f: seq<real>, g: seq<real>)
    requires Tiles(pts, blocks, k) && Fits(pts, blocks, f) && k <= |pts| && |g| == |pts| && NonDecreasing(g)
    ensures Cross(pts, f, g, k) >= 0.0
  {
    if blocks != [] {
      hide BlockOk, Excess, Tiles, Cross, NonDecreasing, Mean;
      var n := |blocks| - 1;
      var b := blocks[n];
      TilesInit(pts, blocks, k);
      TileAt(pts, blocks, k, n);
      TilesCross(pts, blocks[..n], b.first, f, g);
      BlockCross(pts, b, f, g, k);
      NoExcess(pts, b);
    }
  }

  lemma NoExcess(pts: seq<Point>, b: Block)
    requires BlockOk(pts, b)
    ensures Excess(pts, b.first, b.last + 1, Mean(b)) == 0.0
  {
    MeanTimesWeight(b);
  }

  lemma TileAt(pts: seq<Point>, blocks: seq<Block>, k: nat, i: nat)
    requires Tiles(pts, blocks, k) && i < |blocks|
    ensures BlockOk(pts, blocks[i]) && blocks[i].first <= blocks[i].last < |pts|
    ensures i == |blocks| - 1 ==> blocks[i].last + 1 == k
  {}

  lemma TilesInit(pts: seq<Point>, blocks: seq<Block>, k: nat)
    requires Tiles(pts, blocks, k) && blocks != []
    ensures Tiles(pts, blocks[..|blocks|-1], blocks[|blocks|-1].first)
  {
    var n := |blocks| - 1;
    if n > 0 { assert blocks[n].first == blocks[n-1].last + 1; }
  }

  /** The fit takes out exactly what the points hold: its weighted total is theirs. */
  function FitTotal(pts: seq<Point>, f: seq<real>, j: nat): real
    requires j <= |pts| == |f|
  {
    if j == 0 then 0.0 else FitTotal(pts, f, j - 1) + f[j-1] * pts[j-1].sw
  }

  lemma {:induction false} LevelTotal(pts: seq<Point>, f: seq<real>, m: real, a: nat, j: nat)
    requires a <= j <= |pts| == |f| && forall k :: a <= k < j ==> f[k] == m
    ensures FitTotal(pts, f, j) - FitTotal(pts, f, a) == m * (SumW(pts, j) - SumW(pts, a))
  {
    if a < j { LevelTotal(pts, f, m, a, j - 1); }
  }

  lemma BlockTotal(pts: seq<Point>, b: Block, f: seq<real>)
    requires BlockOk(pts, b) && |f| == |pts| && forall k :: b.first <= k <= b.last ==> f[k] == Mean(b)
    ensures FitTotal(pts, f, b.last + 1) - FitTotal(pts, f, b.first) == SumY(pts, b.last + 1) - SumY(pts, b.first)
  {
    hide Mean, FitTotal;
    NoExcess(pts, b);
    LevelTotal(pts, f, Mean(b), b.first, b.last + 1);
  }

  lemma {:induction false} TilesTotal(pts: seq<Point>, blocks: seq<Block>, k: nat, f: seq<real>)
    requires Tiles(pts, blocks, k) && Fits(pts, blocks, f) && k <= |pts|
    ensures FitTotal(pts, f, k) == SumY(pts, k)
  {
    if blocks == [] {
    } else {
      hide BlockOk, Mean, FitTotal, SumY, SumW;
      var n := |blocks| - 1;
      var b := blocks[n];
      TilesInit(pts, blocks, k);
      TileAt(pts, blocks, k, n);
      TilesTotal(pts, blocks[..n], b.first, f);
      BlockTotal(pts, b, f);
    }
  }

  /** Every point lies in a block. */
  lemma {:induction false} InBlock(pts: seq<Point>, blocks: seq<Block>, k: nat, p: nat) returns (i: nat)
    requires Tiles(pts, blocks, k) && p < k
    ensures i < |blocks| && blocks[i].first <= p <= blocks[i].last
  {
    var n := |blocks| - 1;
    TilesInit(pts, blocks, k);
    if blocks[n].first <= p { i := n; } else { i := InBlock(pts, blocks[..n], blocks[n].first, p); }
  }

  lemma {:induction false} BlocksOrdered(pts: seq<Point>, blocks: seq<Block>, k: nat, i: nat, j: nat)
    requires Tiles(pts, blocks, k) && i < j < |blocks|
    ensures blocks[i].last < blocks[j].first
    decreases j - i
  {
    assert blocks[j].first == blocks[j-1].last + 1;
    if i < j - 1 {
      BlocksOrdered(pts, blocks, k, i, j - 1);
      assert BlockOk(pts, blocks[j-1]);
    }
  }

  lemma FitNonDecreasing(pts: seq<Point>, blocks: seq<Block>, f: seq<real>)
    requires Tiles(pts, blocks, |pts|) && Rising(blocks, |blocks|) && Fits(pts, blocks, f)
    ensures NonDecreasing(f)
  {
    forall p, q | 0 <= p <= q < |f| ensures f[p] <= f[q] {
      var i := InBlock(pts, blocks, |pts|, p);
      var j := InBlock(pts, blocks, |pts|, q);
      assert BlockOk(pts, blocks[i]) && BlockOk(pts, blocks[j]);
      if j < i { BlocksOrdered(pts, blocks, |pts|, j, i); }
    }
  }
}
