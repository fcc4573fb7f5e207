/** What the rows of `align_phases` (src/analysis/causal_compare.py) and their confidence amount to: all the time of
    both runs is weighed, the confidence is full exactly when every phase is accounted for, and a run aligned with
    itself is matched phase by phase. */
module PhaseLaws {
  import opened PhaseAlignment
  import opened PhaseAligner

  /** The shorter duration is this part of the longer one. */
  lemma DurationRatioMeans(x: nat, y: nat)
    ensures DurationRatio(x, y) == DurationRatio(y, x)
    ensures DurationRatio(x, y) == 1.0 <==> x == y
    ensures x <= y ==> DurationRatio(x, y) * (y as real) == x as real || y == 0
  {
    if x != y { Quotient(if x < y then x as real else y as real, if x < y then y as real else x as real); }
  }

  // ---- the weight of the rows ----

  /** The durations of the first n phases together. */
  function Durations(ps: seq<Phase>, n: nat): nat
    requires n <= |ps|
  {
    if n == 0 then 0 else Durations(ps, n - 1) + ps[n-1].duration
  }

  ghost predicate AllInRange(pa: seq<Phase>, pb: seq<Phase>, t: seq<Entry>) {
    forall m :: 0 <= m < |t| ==> InRange(pa, pb, t[m])
  }

  lemma {:induction false} WeightPrefix(pa: seq<Phase>, pb: seq<Phase>, t: seq<Entry>, e: Entry, k: nat)
    requires AllInRange(pa, pb, t + [e]) && AllInRange(pa, pb, t) && k <= |t|
    ensures TotalWeight(pa, pb, t + [e], k) == TotalWeight(pa, pb, t, k)
  {
    if k > 0 { WeightPrefix(pa, pb, t, e, k - 1); }
  }

  lemma WeightSnoc(pa: seq<Phase>, pb: seq<Phase>, t: seq<Entry>, e: Entry)
    requires AllInRange(pa, pb, t) && InRange(pa, pb, e)
    ensures AllInRange(pa, pb, t + [e])
    ensures TotalWeight(pa, pb, t + [e], |t + [e]|) == TotalWeight(pa, pb, t, |t|) + WeightOf(pa, pb, e) as real
  {
    hide InRange, WeightOf;
    assert AllInRange(pa, pb, t + [e]);
    WeightPrefix(pa, pb, t, e, |t|);
  }

  lemma DurationsStep(ps: seq<Phase>, n: nat)
    requires n < |ps|
    ensures Durations(ps, n + 1) == Durations(ps, n) + ps[n].duration
  {
  }

  lemma StepWeight(pa: seq<Phase>, pb: seq<Phase>, i: nat, j: nat, i': nat, j': nat, e: Entry)
    requires i <= |pa| && j <= |pb| && i' <= i && j' <= j && Covers(i, j, i', j', e)
    ensures InRange(pa, pb, e)
    ensures WeightOf(pa, pb, e) == Durations(pa, i) - Durations(pa, i') + (Durations(pb, j) - Durations(pb, j'))
  {
    hide Durations;
    if i' < i { DurationsStep(pa, i'); }
    if j' < j { DurationsStep(pb, j'); }
  }

  /** No time is left out of the weights and none is counted twice: together they are the durations of both runs. */
  lemma {:induction false} WeightConserved(pa: seq<Phase>, pb: seq<Phase>, i: nat, j: nat)
    requires i <= |pa| && j <= |pb|
    ensures var t := Trace(pa, pb, i, j);
      AllInRange(pa, pb, t)
      && TotalWeight(pa, pb, t, |t|) == (Durations(pa, i) + Durations(pb, j)) as real
    decreases i, j
  {
    hide *;
    if i == 0 && j == 0 {
      NoWeight(pa, pb);
    } else {
      var i', j', e := TraceStep(pa, pb, i, j);
      WeightConserved(pa, pb, i', j');
      StepWeight(pa, pb, i, j, i', j', e);
      WeightSnoc(pa, pb, Trace(pa, pb, i', j'), e);
    }
  }

  lemma NoWeight(pa: seq<Phase>, pb: seq<Phase>)
    ensures Trace(pa, pb, 0, 0) == [] && AllInRange(pa, pb, []) && TotalWeight(pa, pb, [], 0) == 0.0
    ensures Durations(pa, 0) == Durations(pb, 0) == 0
  {
  }

  // ---- full confidence ----

  /** Nothing of the entry is left unexplained: it takes no time, is a match of full similarity, or is an extra phase
      whose shape is also matched. */
  ghost predicate AccountedFor(pa: seq<Phase>, pb: seq<Phase>, t: seq<Entry>, e: Entry)
    requires InRange(pa, pb, e)
  {
    || WeightOf(pa, pb, e) == 0
    || match e
       case Matched(a, b) => PhaseSimilarity(pa[a], pb[b]) == 1.0
       case Removed(a) => KnownBaseline(pa, t, a)
       case Inserted(b) => KnownCandidate(pb, t, b)
  }

  lemma ExplainedFully(pa: seq<Phase>, pb: seq<Phase>, t: seq<Entry>, e: Entry)
    requires InRange(pa, pb, e)
    ensures 0.0 <= ExplainedBy(pa, pb, t, e) <= WeightOf(pa, pb, e) as real
    ensures ExplainedBy(pa, pb, t, e) == WeightOf(pa, pb, e) as real <==> AccountedFor(pa, pb, t, e)
  {
    hide KnownBaseline, KnownCandidate, PhaseSimilarity, WeightOf;
    match e
    case Matched(a, b) =>
      SimilarityRange(pa[a], pb[b]);
      PartOf(PhaseSimilarity(pa[a], pb[b]), WeightOf(pa, pb, e) as real, ExplainedBy(pa, pb, t, e));
    case Removed(a) =>
    case Inserted(b) =>
  }

  lemma PartOf(s: real, w: real, part: real)
    requires 0.0 <= s <= 1.0 && w >= 0.0 && part == s * w
    ensures 0.0 <= part <= w && (part == w <==> s == 1.0 || w == 0.0)
  {
    Share(s, w, part);
    var rest := 1.0 - s;
    assert rest * w == w - part;
    if rest > 0.0 && w > 0.0 { assert rest * w > 0.0; }
  }

  /** All the weight is explained exactly when every entry is accounted for; then, and only then, the confidence of an
      alignment of any weight is 1. */
  lemma {:induction false} ExplainedIff(pa: seq<Phase>, pb: seq<Phase>, t: seq<Entry>, k: nat)
    requires k <= |t| && AllInRange(pa, pb, t)
    ensures 0.0 <= TotalExplained(pa, pb, t, k) <= TotalWeight(pa, pb, t, k)
    ensures TotalExplained(pa, pb, t, k) == TotalWeight(pa, pb, t, k) <==>
      forall m :: 0 <= m < k ==> AccountedFor(pa, pb, t, t[m])
  {
    if k > 0 {
      ExplainedIff(pa, pb, t, k - 1);
      ExplainedFully(pa, pb, t, t[k-1]);
      hide AccountedFor, ExplainedBy, WeightOf, InRange;
    }
  }

  // ---- a run against itself ----

  lemma SelfGain(p: Phase)
    ensures PhaseSimilarity(p, p) == 1.0 && Gain(p, p) == 1.01 && Allowed(p, p)
  {
    SimilarityMeans(p, p);
    DurationRatioMeans(p.duration, p.duration);
  }

  lemma GainAtMost(a: Phase, b: Phase)
    ensures 0.0 <= Gain(a, b) <= 1.01
  {
    SimilarityRange(a, b);
    DurationRatioRange(a.duration, b.duration);
  }

  function Lesser(i: nat, j: nat): nat {
    if i < j then i else j
  }

  /** A cell is worth as much as one next to it, or one match more than the one before both. */
  lemma BestStep(pa: seq<Phase>, pb: seq<Phase>, i: nat, j: nat)
    requires i <= |pa| && j <= |pb|
    ensures i == 0 || j == 0 ==> Best(pa, pb, i, j) == 0.0
    ensures i > 0 && j > 0 ==>
      || Best(pa, pb, i, j) == Best(pa, pb, i, j - 1) || Best(pa, pb, i, j) == Best(pa, pb, i - 1, j)
      || Best(pa, pb, i, j) == Best(pa, pb, i - 1, j - 1) + Gain(pa[i-1], pb[j-1])
    ensures i > 0 && j > 0 && Allowed(pa[i-1], pb[j-1]) ==>
      Best(pa, pb, i, j) >= Best(pa, pb, i - 1, j - 1) + Gain(pa[i-1], pb[j-1])
  {
    hide Gain, Allowed;
  }

  lemma {:induction false} BestAtMost(pa: seq<Phase>, pb: seq<Phase>, i: nat, j: nat)
    requires i <= |pa| && j <= |pb|
    ensures Best(pa, pb, i, j) <= 1.01 * Lesser(i, j) as real
    decreases i, j
  {
    hide Gain, Allowed, Best;
    BestStep(pa, pb, i, j);
    if i > 0 && j > 0 {
      BestAtMost(pa, pb, i - 1, j - 1);
      BestAtMost(pa, pb, i, j - 1);
      BestAtMost(pa, pb, i - 1, j);
      GainAtMost(pa[i-1], pb[j-1]);
    }
  }

  lemma {:induction false} SelfBest(p: seq<Phase>, i: nat)
    requires i <= |p|
    ensures Best(p, p, i, i) == 1.01 * i as real
  {
    hide Gain, Allowed, Best;
    BestAtMost(p, p, i, i);
    BestStep(p, p, i, i);
    if i > 0 {
      SelfBest(p, i - 1);
      SelfGain(p[i-1]);
    }
  }

  function Diagonal(n: nat): (r: seq<Entry>)
    ensures |r| == n && forall k :: 0 <= k < n ==> r[k] == Matched(k, k)
  {
    seq(n, k requires 0 <= k < n => Matched(k, k))
  }

  lemma SelfLast(p: seq<Phase>, i: nat)
    requires 0 < i <= |p|
    ensures Last(p, p, i, i) == Matched(i - 1, i - 1)
  {
    hide Best;
    SelfBest(p, i);
    BestAtMost(p, p, i, i - 1);
    BestAtMost(p, p, i - 1, i);
  }

  lemma {:induction false} SelfTrace(p: seq<Phase>, i: nat)
    requires i <= |p|
    ensures Trace(p, p, i, i) == Diagonal(i)
  {
    if i == 0 {
      TraceEmpty(p, p);
    } else {
      SelfTrace(p, i - 1);
      SelfLast(p, i);
      hide Best, Last;
      assert Diagonal(i) == Diagonal(i - 1) + [Matched(i - 1, i - 1)];
    }
  }

  lemma MatchAccounted(p: seq<Phase>, t: seq<Entry>, m: nat)
    requires m < |p| && m < |t| && t[m] == Matched(m, m) && PhaseSimilarity(p[m], p[m]) == 1.0
    ensures InRange(p, p, t[m]) && AccountedFor(p, p, t, t[m])
  {
  }

  /** A run aligned with itself: every phase is matched with itself, in order, and all its time is explained. */
  lemma SelfAligned(p: seq<Phase>)
    ensures var t := Trace(p, p, |p|, |p|);
      && t == Diagonal(|p|) && AllInRange(p, p, t)
      && TotalExplained(p, p, t, |t|) == TotalWeight(p, p, t, |t|) == 2.0 * Durations(p, |p|) as real
  {
    hide *;
    var t := Trace(p, p, |p|, |p|);
    SelfTrace(p, |p|);
    WeightConserved(p, p, |p|, |p|);
    forall m | 0 <= m < |t| ensures InRange(p, p, t[m]) && AccountedFor(p, p, t, t[m]) {
      SelfGain(p[m]);
      MatchAccounted(p, t, m);
    }
    ExplainedIff(p, p, t, |t|);
  }
}
