/** `align_phases` of src/analysis/causal_compare.py: the monotone alignment of two phase sequences that maximises
    total similarity plus, for every match, a bonus of up to 0.01 for similar durations. Scores are exact reals. */
module PhaseAlignment {

  datatype Phase = Phase(kind: string, driverTokens: set<string>, nodePaths: set<string>, duration: nat)

  /** The phases a pair refers to: a match, a phase only in the baseline, or only in the candidate. */
  datatype Entry = Matched(a: nat, b: nat) | Removed(a: nat) | Inserted(b: nat)

  const MIN_PHASE_SIMILARITY: real := 0.4
  const LOOSE_KINDS: set<string> := {"iteration", "segment", "whole"}

  // ---- similarity ----

  function Jaccard(a: set<string>, b: set<string>): real {
    if a == {} && b == {} then 1.0
    else
      UnionNonEmpty(a, b);
      (|a * b| as real) / (|a + b| as real)
  }

  lemma UnionNonEmpty(a: set<string>, b: set<string>)
    requires !(a == {} && b == {})
    ensures |a + b| > 0
  {
    if a != {} { var x :| x in a; assert x in a + b; } else { var x :| x in b; assert x in a + b; }
  }

  function PhaseSimilarity(a: Phase, b: Phase): real {
    var s := 0.5 * Jaccard(a.driverTokens, b.driverTokens) + 0.5 * Jaccard(a.nodePaths, b.nodePaths);
    if a.kind != b.kind && !({a.kind, b.kind} <= LOOSE_KINDS) then s * 0.5 else s
  }

  lemma SubsetCard<T>(a: set<T>, b: set<T>)
    requires a <= b
    ensures |a| <= |b|
  {
    if a != {} {
      var x :| x in a;
      SubsetCard(a - {x}, b - {x});
    }
  }

  lemma JaccardRange(a: set<string>, b: set<string>)
    ensures 0.0 <= Jaccard(a, b) <= 1.0
  {
    if !(a == {} && b == {}) {
      UnionNonEmpty(a, b);
      SubsetCard(a * b, a + b);
      Ratio(|a * b|, |a + b|);
    }
  }

  lemma Ratio(x: nat, y: nat)
    requires x <= y && y > 0
    ensures 0.0 <= (x as real) / (y as real) <= 1.0
  {
    RealRatio(x as real, y as real);
  }

  lemma RealRatio(x: real, y: real)
    requires 0.0 <= x <= y && y > 0.0
    ensures 0.0 <= x / y <= 1.0
  {}

  lemma SimilarityRange(a: Phase, b: Phase)
    ensures 0.0 <= PhaseSimilarity(a, b) <= 1.0
  {
    JaccardRange(a.driverTokens, b.driverTokens);
    JaccardRange(a.nodePaths, b.nodePaths);
  }

  lemma SameCard<T>(a: set<T>, b: set<T>)
    requires a <= b && |a| == |b|
    ensures a == b
  {
    if x :| x in b && x !in a { SubsetCard(a, b - {x}); }
  }

  /** The index is 1 exactly for equal sets and 0 exactly for sets that share nothing, two empty ones excepted. */
  lemma JaccardMeans(a: set<string>, b: set<string>)
    ensures Jaccard(a, b) == Jaccard(b, a)
    ensures Jaccard(a, b) == 1.0 <==> a == b
    ensures Jaccard(a, b) == 0.0 <==> a * b == {} && !(a == {} && b == {})
  {
    assert a * b == b * a && a + b == b + a;
    if !(a == {} && b == {}) {
      UnionNonEmpty(a, b);
      var x, y := |a * b| as real, |a + b| as real;
      Quotient(x, y);
      if x == y {
        SameCard(a * b, a + b);
        assert forall e :: e in a ==> e in a + b;
        assert forall e :: e in b ==> e in a + b;
      }
      if a == b { assert a * b == a && a + b == a; }
    }
  }

  lemma Quotient(x: real, y: real)
    requires y > 0.0
    ensures (x / y == 1.0 <==> x == y) && (x / y == 0.0 <==> x == 0.0)
  {
    assert x / y * y == x;
  }

  /** Kinds that may be matched at full similarity. */
  predicate SameKind(a: Phase, b: Phase) {
    a.kind == b.kind || (a.kind in LOOSE_KINDS && b.kind in LOOSE_KINDS)
  }

  /** Similarity is symmetric; it is 1 exactly for phases of the same tokens, paths and kind, 0 exactly when tokens and
      paths both share nothing, and a different kind halves it. */
  lemma SimilarityMeans(a: Phase, b: Phase)
    ensures PhaseSimilarity(a, b) == PhaseSimilarity(b, a)
    ensures PhaseSimilarity(a, b) == 1.0 <==>
      a.driverTokens == b.driverTokens && a.nodePaths == b.nodePaths && SameKind(a, b)
    ensures PhaseSimilarity(a, b) == 0.0 <==>
      Jaccard(a.driverTokens, b.driverTokens) == 0.0 && Jaccard(a.nodePaths, b.nodePaths) == 0.0
    ensures !SameKind(a, b) ==> PhaseSimilarity(a, b.(kind := a.kind)) == 2.0 * PhaseSimilarity(a, b)
    ensures SameKind(a, b) ==> PhaseSimilarity(a, b.(kind := a.kind)) == PhaseSimilarity(a, b)
  {
    JaccardMeans(a.driverTokens, b.driverTokens);
    JaccardMeans(a.nodePaths, b.nodePaths);
    JaccardRange(a.driverTokens, b.driverTokens);
    JaccardRange(a.nodePaths, b.nodePaths);
    hide Jaccard;
    assert SameKind(a, b) <==> a.kind == b.kind || {a.kind, b.kind} <= LOOSE_KINDS;
    assert {a.kind, b.kind} == {b.kind, a.kind};
  }

  function DurationRatio(x: nat, y: nat): (r: real) {
    var lo, hi := if x < y then x else y, if x < y then y else x;
    if hi > 0 then (lo as real) / (hi as real) else 1.0
  }

  /** What matching a with b is worth. */
  function Gain(a: Phase, b: Phase): real {
    PhaseSimilarity(a, b) + 0.01 * DurationRatio(a.duration, b.duration)
  }

  predicate Allowed(a: Phase, b: Phase) {
    PhaseSimilarity(a, b) >= MIN_PHASE_SIMILARITY
  }

  // ---- matchings ----

  /** A strictly monotone pairing of the first i baseline and j candidate phases, allowed pairs only. */
  ghost predicate IsMatching(pa: seq<Phase>, pb: seq<Phase>, m: seq<(nat, nat)>, i: nat, j: nat) {
    if m == [] then true
    else
      var p := m[|m|-1];
      && p.0 < i <= |pa| && p.1 < j <= |pb| && Allowed(pa[p.0], pb[p.1])
      && IsMatching(pa, pb, m[..|m|-1], p.0, p.1)
  }

  ghost function TotalGain(pa: seq<Phase>, pb: seq<Phase>, m: seq<(nat, nat)>): real {
    if m == [] then 0.0
    else
      var p := m[|m|-1];
      TotalGain(pa, pb, m[..|m|-1]) + (if p.0 < |pa| && p.1 < |pb| then Gain(pa[p.0], pb[p.1]) else 0.0)
  }

  /** The value the table holds. */
  function Best(pa: seq<Phase>, pb: seq<Phase>, i: nat, j: nat): real
    requires i <= |pa| && j <= |pb|
    decreases i, j
  {
    if i == 0 || j == 0 then 0.0
    else
      var left, up := Best(pa, pb, i, j - 1), Best(pa, pb, i - 1, j);
      var gap := if left >= up then left else up;
      if Allowed(pa[i-1], pb[j-1]) && Best(pa, pb, i - 1, j - 1) + Gain(pa[i-1], pb[j-1]) > gap
      then Best(pa, pb, i - 1, j - 1) + Gain(pa[i-1], pb[j-1])
      else gap
  }

  lemma {:induction false} MatchingWiden(pa: seq<Phase>, pb: seq<Phase>, m: seq<(nat, nat)>, i: nat, j: nat, i': nat,
        j': nat)
    requires IsMatching(pa, pb, m, i, j) && i <= i' <= |pa| && j <= j' <= |pb|
    ensures IsMatching(pa, pb, m, i', j')
  {}

  /** No matching is worth more. */
  lemma {:induction false} BestIsUpperBound(pa: seq<Phase>, pb: seq<Phase>, m: seq<(nat, nat)>, i: nat, j: nat)
    requires i <= |pa| && j <= |pb| && IsMatching(pa, pb, m, i, j)
    ensures TotalGain(pa, pb, m) <= Best(pa, pb, i, j)
    decreases i, j
  {
    hide Allowed, Gain;
    if m == [] {
      if i > 0 && j > 0 { BestIsUpperBound(pa, pb, m, i, j - 1); }
    } else {
      var p := m[|m|-1];
      if p.1 < j - 1 {
        BestIsUpperBound(pa, pb, m, i, j - 1);
      } else if p.0 < i - 1 {
        BestIsUpperBound(pa, pb, m, i - 1, j);
      } else {
        BestIsUpperBound(pa, pb, m[..|m|-1], i - 1, j - 1);
      }
    }
  }

  // ---- the traceback ----

  /** The last entry of the alignment read back from the table: a gap in the candidate first, then one in the
      baseline, then a match. */
  function Last(pa: seq<Phase>, pb: seq<Phase>, i: nat, j: nat): Entry
    requires i <= |pa| && j <= |pb| && i + j > 0
  {
    if i > 0 && j > 0 then
      if Best(pa, pb, i, j) == Best(pa, pb, i, j - 1) then Inserted(j - 1)
      else if Best(pa, pb, i, j) == Best(pa, pb, i - 1, j) then Removed(i - 1)
      else Matched(i - 1, j - 1)
    else if j > 0 then Inserted(j - 1)
    else Removed(i - 1)
  }

  function Trace(pa: seq<Phase>, pb: seq<Phase>, i: nat, j: nat): seq<Entry>
    requires i <= |pa| && j <= |pb|
    decreases i, j
  {
    if i == 0 && j == 0 then []
    else
      var e := Last(pa, pb, i, j);
      (match e
       case Inserted(_) => Trace(pa, pb, i, j - 1)
       case Removed(_) => Trace(pa, pb, i - 1, j)
       case Matched(_, _) => Trace(pa, pb, i - 1, j - 1)) + [e]
  }

  function Matches(t: seq<Entry>): seq<(nat, nat)> {
    if t == [] then []
    else
      var e := t[|t|-1];
      Matches(t[..|t|-1]) + (if e.Matched? then [(e.a, e.b)] else [])
  }

  /** The baseline phases an alignment mentions, in order. */
  function BaselineOf(t: seq<Entry>): seq<nat> {
    if t == [] then []
    else
      var e := t[|t|-1];
      BaselineOf(t[..|t|-1]) + (if e.Inserted? then [] else [e.a])
  }

  function CandidateOf(t: seq<Entry>): seq<nat> {
    if t == [] then []
    else
      var e := t[|t|-1];
      CandidateOf(t[..|t|-1]) + (if e.Removed? then [] else [e.b])
  }

  function Upto(n: nat): (r: seq<nat>)
    ensures |r| == n && forall k :: 0 <= k < n ==> r[k] == k
  {
    seq(n, k => k)
  }

  lemma Snoc(t: seq<Entry>, e: Entry)
    ensures Matches(t + [e]) == if e.Matched? then Matches(t) + [(e.a, e.b)] else Matches(t)
    ensures BaselineOf(t + [e]) == if e.Inserted? then BaselineOf(t) else BaselineOf(t) + [e.a]
    ensures CandidateOf(t + [e]) == if e.Removed? then CandidateOf(t) else CandidateOf(t) + [e.b]
  {
    assert (t + [e])[..|t|] == t;
  }

  lemma TraceEmpty(pa: seq<Phase>, pb: seq<Phase>)
    ensures Trace(pa, pb, 0, 0) == [] && Best(pa, pb, 0, 0) == 0.0
    ensures BaselineOf([]) == [] && CandidateOf([]) == [] && Matches([]) == []
    ensures IsMatching(pa, pb, [], 0, 0) && TotalGain(pa, pb, []) == 0.0
  {}

  lemma TraceStep(pa: seq<Phase>, pb: seq<Phase>, i: nat, j: nat) returns (i': nat, j': nat, e: Entry)
    requires i <= |pa| && j <= |pb| && i + j > 0
    ensures i' <= i && j' <= j && i' + j' < i + j && e == Last(pa, pb, i, j)
    ensures Trace(pa, pb, i, j) == Trace(pa, pb, i', j') + [e]
    ensures Covers(i, j, i', j', e) && AccountsFor(pa, pb, i, j, e)
  {
    hide Gain, Allowed;
    e := Last(pa, pb, i, j);
    i', j' := if e.Inserted? then i else i - 1, if e.Removed? then j else j - 1;
  }

  predicate Covers(i: nat, j: nat, i': nat, j': nat, e: Entry) {
    match e
    case Inserted(b) => i' == i && j == j' + 1 && b == j'
    case Removed(a) => i == i' + 1 && j == j' && a == i'
    case Matched(a, b) => i == i' + 1 && j == j' + 1 && a == i' && b == j'
  }

  /** The choice accounts for the value of the table. */
  ghost predicate AccountsFor(pa: seq<Phase>, pb: seq<Phase>, i: nat, j: nat, e: Entry)
    requires i <= |pa| && j <= |pb|
  {
    match e
    case Inserted(b) => j > 0 && b == j - 1 && Best(pa, pb, i, j) == Best(pa, pb, i, j - 1)
    case Removed(a) => i > 0 && a == i - 1 && Best(pa, pb, i, j) == Best(pa, pb, i - 1, j)
    case Matched(a, b) =>
      (i > 0 && j > 0 && a == i - 1 && b == j - 1 && Allowed(pa[a], pb[b])
       && Best(pa, pb, i, j) == Best(pa, pb, i - 1, j - 1) + Gain(pa[a], pb[b]))
  }

  /** The traceback mentions every phase of both runs once, in order. */
  lemma {:induction false} TraceCovers(pa: seq<Phase>, pb: seq<Phase>, i: nat, j: nat)
    requires i <= |pa| && j <= |pb|
    ensures BaselineOf(Trace(pa, pb, i, j)) == Upto(i) && CandidateOf(Trace(pa, pb, i, j)) == Upto(j)
    decreases i, j
  {
    hide Best, Trace, BaselineOf, CandidateOf, Last, AccountsFor;
    if i == 0 && j == 0 {
      TraceEmpty(pa, pb);
    } else {
      var i', j', e := TraceStep(pa, pb, i, j);
      TraceCovers(pa, pb, i', j');
      Snoc(Trace(pa, pb, i', j'), e);
      assert i' < i ==> Upto(i) == Upto(i') + [i'];
      assert j' < j ==> Upto(j) == Upto(j') + [j'];
    }
  }

  lemma MatchingSnoc(pa: seq<Phase>, pb: seq<Phase>, m: seq<(nat, nat)>, i: nat, j: nat)
    requires i < |pa| && j < |pb| && IsMatching(pa, pb, m, i, j) && Allowed(pa[i], pb[j])
    ensures IsMatching(pa, pb, m + [(i, j)], i + 1, j + 1)
    ensures TotalGain(pa, pb, m + [(i, j)]) == TotalGain(pa, pb, m) + Gain(pa[i], pb[j])
  {
    hide Allowed, Gain;
    assert (m + [(i, j)])[..|m|] == m;
  }

  /** Its matches form a matching whose worth is the value of the table. */
  lemma {:induction false} TraceAttains(pa: seq<Phase>, pb: seq<Phase>, i: nat, j: nat)
    requires i <= |pa| && j <= |pb|
    ensures IsMatching(pa, pb, Matches(Trace(pa, pb, i, j)), i, j)
    ensures TotalGain(pa, pb, Matches(Trace(pa, pb, i, j))) == Best(pa, pb, i, j)
    decreases i, j
  {
    hide Best, Last, Trace, Gain, Allowed, IsMatching, TotalGain, Matches;
    if i == 0 && j == 0 {
      TraceEmpty(pa, pb);
    } else {
      var i', j', e := TraceStep(pa, pb, i, j);
      var t := Trace(pa, pb, i', j');
      TraceAttains(pa, pb, i', j');
      Snoc(t, e);
      if e.Matched? {
        MatchingSnoc(pa, pb, Matches(t), i', j');
      } else {
        MatchingWiden(pa, pb, Matches(t), i', j', i, j);
      }
    }
  }

  // ---- what the bonus decides ----

  lemma DurationRatioRange(x: nat, y: nat)
    ensures 0.0 <= DurationRatio(x, y) <= 1.0
  {
    var lo, hi := if x < y then x else y, if x < y then y else x;
    if hi > 0 { Ratio(lo, hi); }
  }

  ghost function TotalSimilarity(pa: seq<Phase>, pb: seq<Phase>, m: seq<(nat, nat)>): real {
    if m == [] then 0.0
    else
      var p := m[|m|-1];
      TotalSimilarity(pa, pb, m[..|m|-1])
      + (if p.0 < |pa| && p.1 < |pb| then PhaseSimilarity(pa[p.0], pb[p.1]) else 0.0)
  }

  /** How alike in duration the matched phases are: 1 for a match of equal durations. */
  ghost function TotalRatio(pa: seq<Phase>, pb: seq<Phase>, m: seq<(nat, nat)>): real {
    if m == [] then 0.0
    else
      var p := m[|m|-1];
      TotalRatio(pa, pb, m[..|m|-1])
      + (if p.0 < |pa| && p.1 < |pb| then DurationRatio(pa[p.0].duration, pb[p.1].duration) else 0.0)
  }

  lemma {:induction false} GainSplits(pa: seq<Phase>, pb: seq<Phase>, m: seq<(nat, nat)>)
    ensures TotalGain(pa, pb, m) == TotalSimilarity(pa, pb, m) + 0.01 * TotalRatio(pa, pb, m)
    ensures 0.0 <= TotalRatio(pa, pb, m) <= |m| as real
  {
    if m != [] {
      GainSplits(pa, pb, m[..|m|-1]);
      var p := m[|m|-1];
      if p.0 < |pa| && p.1 < |pb| { DurationRatioRange(pa[p.0].duration, pb[p.1].duration); }
      hide PhaseSimilarity, DurationRatio;
    }
  }

  lemma {:induction false} MatchingSize(pa: seq<Phase>, pb: seq<Phase>, m: seq<(nat, nat)>, i: nat, j: nat)
    requires IsMatching(pa, pb, m, i, j)
    ensures |m| <= i && |m| <= j
    decreases |m|
  {
    if m != [] {
      var p := m[|m|-1];
      MatchingSize(pa, pb, m[..|m|-1], p.0, p.1);
    }
  }

  /** A pairing m can be more similar than the one worth most, but only by less than 0.01 for every match of the
      latter, and exactly by no more than what that one is ahead in bonus; so among pairings as similar as it, it has
      the largest bonus. */
  lemma BonusDecides(pa: seq<Phase>, pb: seq<Phase>, best: seq<(nat, nat)>, m: seq<(nat, nat)>)
    requires TotalGain(pa, pb, m) <= TotalGain(pa, pb, best)
    ensures TotalSimilarity(pa, pb, m) - TotalSimilarity(pa, pb, best)
         <= 0.01 * (TotalRatio(pa, pb, best) - TotalRatio(pa, pb, m))
    ensures TotalSimilarity(pa, pb, m) <= TotalSimilarity(pa, pb, best) + 0.01 * (|best| as real)
    ensures TotalSimilarity(pa, pb, m) == TotalSimilarity(pa, pb, best) ==>
      TotalRatio(pa, pb, m) <= TotalRatio(pa, pb, best)
  {
    GainSplits(pa, pb, best);
    GainSplits(pa, pb, m);
  }

  function Smaller(x: nat, y: nat): nat {
    if x < y then x else y
  }

  /** Any two pairings are equally similar or differ by more than all bonuses together can make up. */
  ghost predicate WellSeparated(pa: seq<Phase>, pb: seq<Phase>) {
    forall m, m' | IsMatching(pa, pb, m, |pa|, |pb|) && IsMatching(pa, pb, m', |pa|, |pb|) ::
      TotalSimilarity(pa, pb, m') < TotalSimilarity(pa, pb, m) ==>
        TotalSimilarity(pa, pb, m') + 0.01 * (Smaller(|pa|, |pb|) as real) < TotalSimilarity(pa, pb, m)
  }

  /** Then the bonus only decides between equally similar pairings, and the traceback is as similar as any. */
  lemma SimilarityDecides(pa: seq<Phase>, pb: seq<Phase>, m: seq<(nat, nat)>)
    requires WellSeparated(pa, pb) && IsMatching(pa, pb, m, |pa|, |pb|)
    ensures TotalSimilarity(pa, pb, m) <= TotalSimilarity(pa, pb, Matches(Trace(pa, pb, |pa|, |pb|)))
  {
    var best := Matches(Trace(pa, pb, |pa|, |pb|));
    TraceAttains(pa, pb, |pa|, |pb|);
    BestIsUpperBound(pa, pb, m, |pa|, |pb|);
    hide TotalSimilarity, TotalGain, TotalRatio, Best, Trace, Matches, IsMatching;
    BonusDecides(pa, pb, best, m);
    MatchingSize(pa, pb, best, |pa|, |pb|);
  }

  // ---- a bonus that outweighs similarity ----

  const BASELINE: Phase := Phase("iteration", {"t"}, {"a", "b", "c", "d"}, 100)
  const AS_LONG: Phase := Phase("iteration", {"t"}, {"a", "e", "f", "g", "h"}, 100)
  const MORE_SIMILAR: Phase := Phase("iteration", {"t"}, {"a", "e", "f", "g"}, 0)

  lemma BonusSimilarities()
    ensures PhaseSimilarity(BASELINE, AS_LONG) == 0.5 + 0.5 * (1.0 / 8.0)
    ensures PhaseSimilarity(BASELINE, MORE_SIMILAR) == 0.5 + 0.5 * (1.0 / 7.0)
  {
    var a, b, c := BASELINE.nodePaths, AS_LONG.nodePaths, MORE_SIMILAR.nodePaths;
    assert a * b == {"a"} && a * c == {"a"};
    assert a + b == {"a", "b", "c", "d", "e", "f", "g", "h"} && a + c == {"a", "b", "c", "d", "e", "f", "g"};
    assert {"t"} * {"t"} == {"t"} && {"t"} + {"t"} == {"t"};
  }

  lemma BonusTable(pa: seq<Phase>, pb: seq<Phase>)
    requires pa == [BASELINE] && pb == [AS_LONG, MORE_SIMILAR]
    ensures Last(pa, pb, 1, 2) == Inserted(1) && Last(pa, pb, 1, 1) == Matched(0, 0)
    ensures Allowed(BASELINE, MORE_SIMILAR)
  {
    BonusSimilarities();
    hide PhaseSimilarity;
    assert Gain(BASELINE, AS_LONG) == 0.5725 && Gain(BASELINE, MORE_SIMILAR) < 0.572;
    hide Gain;
    assert Best(pa, pb, 1, 0) == 0.0 && Best(pa, pb, 0, 1) == 0.0 && Best(pa, pb, 0, 0) == 0.0
      && Best(pa, pb, 0, 2) == 0.0;
    assert Best(pa, pb, 1, 1) == 0.5725;
    assert Best(pa, pb, 1, 2) == 0.5725;
  }

  lemma BonusTrace(pa: seq<Phase>, pb: seq<Phase>)
    requires pa == [BASELINE] && pb == [AS_LONG, MORE_SIMILAR]
    ensures Matches(Trace(pa, pb, 1, 2)) == [(0, 0)]
  {
    BonusTable(pa, pb);
    TraceEmpty(pa, pb);
    hide PhaseSimilarity, Best, Gain, Last, Allowed, Matches;
    assert Trace(pa, pb, 1, 1) == [Matched(0, 0)];
    assert Trace(pa, pb, 1, 2) == [Matched(0, 0), Inserted(1)];
    Snoc([], Matched(0, 0));
    Snoc([Matched(0, 0)], Inserted(1));
  }

  lemma OnePair(pa: seq<Phase>, pb: seq<Phase>, a: nat, b: nat)
    requires a < |pa| && b < |pb|
    ensures TotalSimilarity(pa, pb, [(a, b)]) == PhaseSimilarity(pa[a], pb[b])
    ensures Allowed(pa[a], pb[b]) ==> IsMatching(pa, pb, [(a, b)], |pa|, |pb|)
  {
    assert [(a, b)][..0] == [];
    hide PhaseSimilarity, Allowed;
  }

  /** One baseline phase and two candidates: the traceback matches the one as long, although the other, of duration 0,
      is more similar. */
  lemma BonusOutweighsSimilarity(pa: seq<Phase>, pb: seq<Phase>)
    requires pa == [BASELINE] && pb == [AS_LONG, MORE_SIMILAR]
    ensures Matches(Trace(pa, pb, 1, 2)) == [(0, 0)] && IsMatching(pa, pb, [(0, 1)], 1, 2)
    ensures TotalSimilarity(pa, pb, [(0, 0)]) < TotalSimilarity(pa, pb, [(0, 1)])
  {
    hide *;
    BonusTrace(pa, pb);
    BonusTable(pa, pb);
    BonusSimilarities();
    OnePair(pa, pb, 0, 0);
    OnePair(pa, pb, 0, 1);
  }
}
