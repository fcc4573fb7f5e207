/** The imperative side of `align_phases` in src/analysis/causal_compare.py: shape
    classes, the class-keyed similarity cache, the score table, its traceback and the confidence. */
module PhaseAligner {
  import opened PhaseAlignment

  /** One row of the result: what it aligns, how similar, and whether which phase was extra is arbitrary. */
  datatype PhasePair = PhasePair(index: nat, entry: Entry, similarity: real, ambiguous: bool)

  // ---- shape classes ----

  datatype Shape = Shape(kind: string, driverTokens: set<string>, nodePaths: set<string>)

  function ShapeOf(p: Phase): Shape {
    Shape(p.kind, p.driverTokens, p.nodePaths)
  }

  predicate SameShape(p: Phase, q: Phase) {
    ShapeOf(p) == ShapeOf(q)
  }

  /** Equal numbers exactly for phases of the same shape. */
  ghost predicate ClassesOf(phases: seq<Phase>, cls: seq<nat>) {
    |cls| == |phases| && forall i, j :: 0 <= i < |cls| && 0 <= j < |cls| ==>
      (cls[i] == cls[j] <==> SameShape(phases[i], phases[j]))
  }

  ghost predicate Numbering(ids: map<Shape, nat>) {
    && (forall k :: k in ids ==> ids[k] < |ids|)
    && (forall k, m :: k in ids && m in ids && ids[k] == ids[m] ==> k == m)
  }

  lemma NumberingAdd(ids: map<Shape, nat>, key: Shape)
    requires Numbering(ids) && key !in ids
    ensures Numbering(ids[key := |ids|])
  {}

  method Classes(phases: seq<Phase>) returns (cls: seq<nat>)
    ensures ClassesOf(phases, cls)
  {
    hide ShapeOf;
    var ids: map<Shape, nat> := map[];
    cls := [];
    for i := 0 to |phases|
      invariant |cls| == i
      invariant forall j :: 0 <= j < i ==> ShapeOf(phases[j]) in ids && ids[ShapeOf(phases[j])] == cls[j]
      invariant Numbering(ids)
    {
      var key := ShapeOf(phases[i]);
      if key !in ids {
        NumberingAdd(ids, key);
        ids := ids[key := |ids|];
      }
      cls := cls + [ids[key]];
    }
  }

  /** Similarity depends on the shapes alone. */
  lemma ShapeSimilarity(a: Phase, a': Phase, b: Phase, b': Phase)
    requires SameShape(a, a') && SameShape(b, b')
    ensures PhaseSimilarity(a, b) == PhaseSimilarity(a', b')
  {}

  // ---- the cache ----

  ghost predicate CacheOk(pa: seq<Phase>, pb: seq<Phase>, clsA: seq<nat>, clsB: seq<nat>, cache: map<(nat, nat), real>)
    requires |clsA| == |pa| && |clsB| == |pb|
  {
    forall i, j :: 0 <= i < |pa| && 0 <= j < |pb| && (clsA[i], clsB[j]) in cache ==>
      cache[(clsA[i], clsB[j])] == PhaseSimilarity(pa[i], pb[j])
  }

  method Similarity(pa: seq<Phase>, pb: seq<Phase>, clsA: seq<nat>, clsB: seq<nat>, cache: map<(nat, nat), real>,
        i: nat, j: nat)
    returns (v: real, cache': map<(nat, nat), real>)
    requires ClassesOf(pa, clsA) && ClassesOf(pb, clsB) && CacheOk(pa, pb, clsA, clsB, cache)
    requires i < |pa| && j < |pb|
    ensures v == PhaseSimilarity(pa[i], pb[j]) && CacheOk(pa, pb, clsA, clsB, cache')
  {
    hide PhaseSimilarity;
    var k := (clsA[i], clsB[j]);
    cache' := cache;
    if k in cache {
      v := cache[k];
    } else {
      v := PhaseSimilarity(pa[i], pb[j]);
      cache' := cache[k := v];
      forall i', j' | 0 <= i' < |pa| && 0 <= j' < |pb| && (clsA[i'], clsB[j']) in cache'
        ensures cache'[(clsA[i'], clsB[j'])] == PhaseSimilarity(pa[i'], pb[j'])
      {
        if (clsA[i'], clsB[j']) == k {
          ShapeSimilarity(pa[i], pa[i'], pb[j], pb[j']);
        }
      }
    }
  }

  // ---- the table ----

  ghost predicate RowsDone(pa: seq<Phase>, pb: seq<Phase>, score: array2<real>, i: nat, j: nat)
    requires score.Length0 == |pa| + 1 && score.Length1 == |pb| + 1
    reads score
  {
    forall a, b :: 0 <= a <= |pa| && 0 <= b <= |pb| && (a < i || (a == i && b < j)) ==>
      score[a, b] == Best(pa, pb, a, b)
  }

  method FillScore(pa: seq<Phase>, pb: seq<Phase>, clsA: seq<nat>, clsB: seq<nat>)
    returns (score: array2<real>, cache: map<(nat, nat), real>)
    requires ClassesOf(pa, clsA) && ClassesOf(pb, clsB)
    ensures fresh(score) && score.Length0 == |pa| + 1 && score.Length1 == |pb| + 1
    ensures RowsDone(pa, pb, score, |pa| + 1, 0) && CacheOk(pa, pb, clsA, clsB, cache)
  {
    hide PhaseSimilarity, DurationRatio;
    score := new real[|pa| + 1, |pb| + 1]((_, _) => 0.0);
    cache := map[];
    for i := 1 to |pa| + 1
      invariant RowsDone(pa, pb, score, i, 0) && CacheOk(pa, pb, clsA, clsB, cache)
      invariant forall a :: i <= a <= |pa| ==> score[a, 0] == 0.0
    {
      for j := 1 to |pb| + 1
        invariant RowsDone(pa, pb, score, i, j) && CacheOk(pa, pb, clsA, clsB, cache)
        invariant forall a :: i <= a <= |pa| ==> score[a, 0] == 0.0
      {
        var best := if score[i, j-1] >= score[i-1, j] then score[i, j-1] else score[i-1, j];
        var s;
        s, cache := Similarity(pa, pb, clsA, clsB, cache, i - 1, j - 1);
        if s >= MIN_PHASE_SIMILARITY {
          var d := score[i-1, j-1] + (s + 0.01 * DurationRatio(pa[i-1].duration, pb[j-1].duration));
          if d > best {
            best := d;
          }
        }
        score[i, j] := best;
      }
    }
  }

  function Rev(s: seq<Entry>): (r: seq<Entry>)
    ensures |r| == |s|
  {
    if s == [] then [] else Rev(s[1..]) + [s[0]]
  }

  lemma {:induction false} RevSnoc(s: seq<Entry>, e: Entry)
    ensures Rev(s + [e]) == [e] + Rev(s)
  {
    if s == [] {
      assert s + [e] == [e];
    } else {
      RevSnoc(s[1..], e);
      assert (s + [e])[1..] == s[1..] + [e];
    }
  }

  method Reverse(s: seq<Entry>) returns (r: seq<Entry>)
    ensures r == Rev(s)
  {
    r := [];
    for i := 0 to |s|
      invariant r == Rev(s[..i])
    {
      RevSnoc(s[..i], s[i]);
      assert s[..i+1] == s[..i] + [s[i]];
      r := [s[i]] + r;
    }
    assert s[..|s|] == s;
  }

  /** Walks back from the corner of the table; the pairs are collected last first. */
  method TraceBack(pa: seq<Phase>, pb: seq<Phase>, score: array2<real>) returns (t: seq<Entry>)
    requires score.Length0 == |pa| + 1 && score.Length1 == |pb| + 1 && RowsDone(pa, pb, score, |pa| + 1, 0)
    ensures t == Trace(pa, pb, |pa|, |pb|)
  {
    hide Best, Allowed, Gain, Trace, Rev, AccountsFor;
    TraceWhole(pa, pb);
    var pairs: seq<Entry> := [];
    var i, j := |pa|, |pb|;
    while i > 0 || j > 0
      invariant 0 <= i <= |pa| && 0 <= j <= |pb|
      invariant Trace(pa, pb, |pa|, |pb|) == Trace(pa, pb, i, j) + Rev(pairs)
      decreases i + j
    {
      ghost var i', j', e := TraceStep(pa, pb, i, j);
      RevSnoc(pairs, e);
      assert (Trace(pa, pb, i', j') + [e]) + Rev(pairs) == Trace(pa, pb, i', j') + ([e] + Rev(pairs));
      var next;
      if i > 0 && j > 0 {
        assert score[i, j] == Best(pa, pb, i, j) && score[i, j-1] == Best(pa, pb, i, j - 1)
            && score[i-1, j] == Best(pa, pb, i - 1, j);
        if score[i, j] == score[i, j-1] {
          next, j := Inserted(j - 1), j - 1;
        } else if score[i, j] == score[i-1, j] {
          next, i := Removed(i - 1), i - 1;
        } else {
          next, i, j := Matched(i - 1, j - 1), i - 1, j - 1;
        }
      } else if j > 0 {
        next, j := Inserted(j - 1), j - 1;
      } else {
        next, i := Removed(i - 1), i - 1;
      }
      pairs := pairs + [next];
    }
    TraceEmpty(pa, pb);
    t := Reverse(pairs);
  }

  lemma TraceWhole(pa: seq<Phase>, pb: seq<Phase>)
    ensures Trace(pa, pb, |pa|, |pb|) == Trace(pa, pb, |pa|, |pb|) + Rev([])
  {
    hide Trace;
  }

  // ---- the rows and the confidence ----

  /** Some matched baseline phase has this one's shape. */
  ghost predicate KnownBaseline(pa: seq<Phase>, t: seq<Entry>, a: nat) {
    a < |pa| && exists k :: 0 <= k < |t| && t[k].Matched? && t[k].a < |pa| && SameShape(pa[t[k].a], pa[a])
  }

  ghost predicate KnownCandidate(pb: seq<Phase>, t: seq<Entry>, b: nat) {
    b < |pb| && exists k :: 0 <= k < |t| && t[k].Matched? && t[k].b < |pb| && SameShape(pb[t[k].b], pb[b])
  }

  ghost predicate BaselineNeighbour(pa: seq<Phase>, t: seq<Entry>, a: nat, k: int) {
    0 <= k < |t| && !t[k].Inserted? && t[k].a < |pa| && a < |pa| && SameShape(pa[t[k].a], pa[a])
  }

  ghost predicate CandidateNeighbour(pb: seq<Phase>, t: seq<Entry>, b: nat, k: int) {
    0 <= k < |t| && !t[k].Removed? && t[k].b < |pb| && b < |pb| && SameShape(pb[t[k].b], pb[b])
  }

  ghost predicate InRange(pa: seq<Phase>, pb: seq<Phase>, e: Entry) {
    (!e.Inserted? ==> e.a < |pa|) && (!e.Removed? ==> e.b < |pb|)
  }

  /** The row of entry k: matches carry their similarity; an extra phase is ambiguous when its shape is also
      matched and a neighbouring row has it too. */
  ghost predicate RowOk(pa: seq<Phase>, pb: seq<Phase>, t: seq<Entry>, k: nat, r: PhasePair)
    requires k < |t| && InRange(pa, pb, t[k])
  {
    var e := t[k];
    && r.index == k && r.entry == e
    && r.similarity == (if e.Matched? then PhaseSimilarity(pa[e.a], pb[e.b]) else 0.0)
    && (r.ambiguous <==> match e
                         case Matched(_, _) => false
                         case Removed(a) =>
                           && KnownBaseline(pa, t, a)
                           && (BaselineNeighbour(pa, t, a, k - 1) || BaselineNeighbour(pa, t, a, k + 1))
                         case Inserted(b) =>
                           && KnownCandidate(pb, t, b)
                           && (CandidateNeighbour(pb, t, b, k - 1) || CandidateNeighbour(pb, t, b, k + 1)))
  }

  function WeightOf(pa: seq<Phase>, pb: seq<Phase>, e: Entry): nat
    requires InRange(pa, pb, e)
  {
    match e
    case Matched(a, b) => pa[a].duration + pb[b].duration
    case Removed(a) => pa[a].duration
    case Inserted(b) => pb[b].duration
  }

  /** The time an entry explains: similarity-weighted for a match, all of it for an extra phase of a known shape. */
  ghost function ExplainedBy(pa: seq<Phase>, pb: seq<Phase>, t: seq<Entry>, e: Entry): real
    requires InRange(pa, pb, e)
  {
    var w := WeightOf(pa, pb, e) as real;
    match e
    case Matched(a, b) => PhaseSimilarity(pa[a], pb[b]) * w
    case Removed(a) => if KnownBaseline(pa, t, a) then w else 0.0
    case Inserted(b) => if KnownCandidate(pb, t, b) then w else 0.0
  }

  ghost function TotalWeight(pa: seq<Phase>, pb: seq<Phase>, t: seq<Entry>, k: nat): real
    requires k <= |t| && forall m :: 0 <= m < |t| ==> InRange(pa, pb, t[m])
  {
    if k == 0 then 0.0 else TotalWeight(pa, pb, t, k - 1) + WeightOf(pa, pb, t[k-1]) as real
  }

  ghost function TotalExplained(pa: seq<Phase>, pb: seq<Phase>, t: seq<Entry>, k: nat): real
    requires k <= |t| && forall m :: 0 <= m < |t| ==> InRange(pa, pb, t[m])
  {
    if k == 0 then 0.0 else TotalExplained(pa, pb, t, k - 1) + ExplainedBy(pa, pb, t, t[k-1])
  }

  lemma {:induction false} ExplainedRange(pa: seq<Phase>, pb: seq<Phase>, t: seq<Entry>, k: nat)
    requires k <= |t| && forall m :: 0 <= m < |t| ==> InRange(pa, pb, t[m])
    ensures 0.0 <= TotalExplained(pa, pb, t, k) <= TotalWeight(pa, pb, t, k)
  {
    hide KnownBaseline, KnownCandidate;
    if k > 0 {
      ExplainedRange(pa, pb, t, k - 1);
      var e := t[k-1];
      if e.Matched? {
        SimilarityRange(pa[e.a], pb[e.b]);
        Share(PhaseSimilarity(pa[e.a], pb[e.b]), WeightOf(pa, pb, e) as real, ExplainedBy(pa, pb, t, e));
      }
    }
  }

  lemma Share(s: real, w: real, part: real)
    requires 0.0 <= s <= 1.0 && w >= 0.0 && part == s * w
    ensures 0.0 <= part <= w
  {
    var rest := (1.0 - s) * w;
    assert rest >= 0.0 && rest == w - part;
  }

  /** ka and kb are the classes matched by the first n entries. */
  ghost predicate MatchedOn(t: seq<Entry>, clsA: seq<nat>, clsB: seq<nat>, n: nat, ka: set<nat>, kb: set<nat>) {
    && (forall c ::
      c in ka <==> exists m :: 0 <= m < n && m < |t| && t[m].Matched? && t[m].a < |clsA| && clsA[t[m].a] == c)
    && (forall c ::
      c in kb <==> exists m :: 0 <= m < n && m < |t| && t[m].Matched? && t[m].b < |clsB| && clsB[t[m].b] == c)
  }

  method MatchedClasses(t: seq<Entry>, clsA: seq<nat>, clsB: seq<nat>) returns (ka: set<nat>, kb: set<nat>)
    requires forall m :: 0 <= m < |t| && t[m].Matched? ==> t[m].a < |clsA| && t[m].b < |clsB|
    ensures MatchedOn(t, clsA, clsB, |t|, ka, kb)
  {
    ka, kb := {}, {};
    for i := 0 to |t|
      invariant MatchedOn(t, clsA, clsB, i, ka, kb)
    {
      if t[i].Matched? {
        ka, kb := ka + {clsA[t[i].a]}, kb + {clsB[t[i].b]};
      }
    }
  }

  /** Membership in the set of matched classes is being of a matched shape. */
  lemma ClassKnown(pa: seq<Phase>, pb: seq<Phase>, t: seq<Entry>, clsA: seq<nat>, clsB: seq<nat>, ka: set<nat>,
        kb: set<nat>)
    requires ClassesOf(pa, clsA) && ClassesOf(pb, clsB) && forall m :: 0 <= m < |t| ==> InRange(pa, pb, t[m])
    requires MatchedOn(t, clsA, clsB, |t|, ka, kb)
    ensures forall a :: 0 <= a < |pa| ==> (clsA[a] in ka <==> KnownBaseline(pa, t, a))
    ensures forall b :: 0 <= b < |pb| ==> (clsB[b] in kb <==> KnownCandidate(pb, t, b))
  {
    hide SameShape;
    forall a | 0 <= a < |pa| ensures clsA[a] in ka <==> KnownBaseline(pa, t, a) {
      if KnownBaseline(pa, t, a) {
        var k :| 0 <= k < |t| && t[k].Matched? && t[k].a < |pa| && SameShape(pa[t[k].a], pa[a]);
        assert InRange(pa, pb, t[k]) && clsA[t[k].a] == clsA[a];
      }
    }
    forall b | 0 <= b < |pb| ensures clsB[b] in kb <==> KnownCandidate(pb, t, b) {
      if KnownCandidate(pb, t, b) {
        var k :| 0 <= k < |t| && t[k].Matched? && t[k].b < |pb| && SameShape(pb[t[k].b], pb[b]);
        assert InRange(pa, pb, t[k]) && clsB[t[k].b] == clsB[b];
      }
    }
  }

  /** `_same_class_neighbour`, for the side the entry is on. */
  predicate SameClassNeighbour(t: seq<Entry>, k: nat, clsA: seq<nat>, clsB: seq<nat>, nb: int)
    requires k < |t|
    requires forall m :: 0 <= m < |t| ==> (!t[m].Inserted? ==> t[m].a < |clsA|) && (!t[m].Removed? ==> t[m].b < |clsB|)
  {
    0 <= nb < |t| &&
    match t[k]
    case Removed(a) => !t[nb].Inserted? && clsA[t[nb].a] == clsA[a]
    case Inserted(b) => !t[nb].Removed? && clsB[t[nb].b] == clsB[b]
    case Matched(_, _) => false
  }

  method KnownClasses(pa: seq<Phase>, pb: seq<Phase>, t: seq<Entry>, clsA: seq<nat>, clsB: seq<nat>)
    returns (ka: set<nat>, kb: set<nat>)
    requires ClassesOf(pa, clsA) && ClassesOf(pb, clsB) && forall m :: 0 <= m < |t| ==> InRange(pa, pb, t[m])
    ensures |clsA| == |pa| && forall a :: 0 <= a < |pa| ==> (clsA[a] in ka <==> KnownBaseline(pa, t, a))
    ensures |clsB| == |pb| && forall b :: 0 <= b < |pb| ==> (clsB[b] in kb <==> KnownCandidate(pb, t, b))
  {
    ka, kb := MatchedClasses(t, clsA, clsB);
    ClassKnown(pa, pb, t, clsA, clsB, ka, kb);
  }

  /** The row of entry k, and the time it explains. */
  method RowFor(pa: seq<Phase>, pb: seq<Phase>, t: seq<Entry>, clsA: seq<nat>, clsB: seq<nat>, ka: set<nat>,
        kb: set<nat>, k: nat)
    returns (row: PhasePair, x: real)
    requires ClassesOf(pa, clsA) && ClassesOf(pb, clsB) && (forall m :: 0 <= m < |t| ==> InRange(pa, pb, t[m]))
    requires k < |t|
    requires forall a :: 0 <= a < |pa| ==> (clsA[a] in ka <==> KnownBaseline(pa, t, a))
    requires forall b :: 0 <= b < |pb| ==> (clsB[b] in kb <==> KnownCandidate(pb, t, b))
    ensures RowOk(pa, pb, t, k, row) && x == ExplainedBy(pa, pb, t, t[k])
  {
    hide KnownBaseline, KnownCandidate, PhaseSimilarity, SameShape;
    var e := t[k];
    assert InRange(pa, pb, e);
    var w := WeightOf(pa, pb, e) as real;
    match e {
      case Matched(a, b) =>
        var s := PhaseSimilarity(pa[a], pb[b]);
        x := s * w;
        row := PhasePair(k, e, s, false);
      case Removed(a) =>
        var known := clsA[a] in ka;
        x := if known then w else 0.0;
        row := PhasePair(k, e, 0.0, known
          && (SameClassNeighbour(t, k, clsA, clsB, k - 1) || SameClassNeighbour(t, k, clsA, clsB, k + 1)));
      case Inserted(b) =>
        var known := clsB[b] in kb;
        x := if known then w else 0.0;
        row := PhasePair(k, e, 0.0, known
          && (SameClassNeighbour(t, k, clsA, clsB, k - 1) || SameClassNeighbour(t, k, clsA, clsB, k + 1)));
    }
  }

  method Rows(pa: seq<Phase>, pb: seq<Phase>, t: seq<Entry>, clsA: seq<nat>, clsB: seq<nat>)
    returns (rows: seq<PhasePair>, total: real, explained: real)
    requires ClassesOf(pa, clsA) && ClassesOf(pb, clsB) && forall m :: 0 <= m < |t| ==> InRange(pa, pb, t[m])
    ensures |rows| == |t| && forall k :: 0 <= k < |t| ==> RowOk(pa, pb, t, k, rows[k])
    ensures total == TotalWeight(pa, pb, t, |t|) && explained == TotalExplained(pa, pb, t, |t|)
  {
    hide KnownBaseline, KnownCandidate, ClassesOf, RowOk, MatchedOn, ExplainedBy, InRange, WeightOf;
    var ka, kb := KnownClasses(pa, pb, t, clsA, clsB);
    rows, total, explained := [], 0.0, 0.0;
    for k := 0 to |t|
      invariant |rows| == k && forall m :: 0 <= m < k ==> RowOk(pa, pb, t, m, rows[m])
      invariant total == TotalWeight(pa, pb, t, k) && explained == TotalExplained(pa, pb, t, k)
    {
      var row, x := RowFor(pa, pb, t, clsA, clsB, ka, kb, k);
      total := total + WeightOf(pa, pb, t[k]) as real;
      explained := explained + x;
      rows := rows + [row];
    }
  }

  lemma CoversInRange(pa: seq<Phase>, pb: seq<Phase>, i: nat, j: nat)
    requires i <= |pa| && j <= |pb|
    ensures forall m :: 0 <= m < |Trace(pa, pb, i, j)| ==> InRange(pa, pb, Trace(pa, pb, i, j)[m])
    decreases i, j
  {
    hide Best, Trace, Last, AccountsFor;
    if i == 0 && j == 0 {
      TraceEmpty(pa, pb);
    } else {
      var i', j', e := TraceStep(pa, pb, i, j);
      CoversInRange(pa, pb, i', j');
    }
  }

  /** The alignment: every phase of both runs once and in order, its matches worth at least as much as any monotone
      pairing of sufficiently similar phases, so at most 0.01 per match less similar than any, and a confidence in
      [0, 1]. */
  method AlignPhases(pa: seq<Phase>, pb: seq<Phase>) returns (rows: seq<PhasePair>, conf: real, ghost t: seq<Entry>)
    ensures |rows| == |t| && forall k :: 0 <= k < |t| ==> InRange(pa, pb, t[k]) && RowOk(pa, pb, t, k, rows[k])
    ensures BaselineOf(t) == Upto(|pa|) && CandidateOf(t) == Upto(|pb|)
    ensures t == Trace(pa, pb, |pa|, |pb|) && IsMatching(pa, pb, Matches(t), |pa|, |pb|)
    ensures forall m :: IsMatching(pa, pb, m, |pa|, |pb|) ==> TotalGain(pa, pb, m) <= TotalGain(pa, pb, Matches(t))
    ensures forall m :: IsMatching(pa, pb, m, |pa|, |pb|) ==>
      TotalSimilarity(pa, pb, m) <= TotalSimilarity(pa, pb, Matches(t)) + 0.01 * (|Matches(t)| as real)
    ensures 0.0 <= conf <= 1.0
    ensures var total := TotalWeight(pa, pb, t, |t|);
      if total > 0.0 then conf * total == TotalExplained(pa, pb, t, |t|) else conf == if t != [] then 1.0 else 0.0
  {
    hide *;
    var clsA := Classes(pa);
    var clsB := Classes(pb);
    var score, cache := FillScore(pa, pb, clsA, clsB);
    var pairs := TraceBack(pa, pb, score);
    t := pairs;
    TraceCovers(pa, pb, |pa|, |pb|);
    TraceAttains(pa, pb, |pa|, |pb|);
    CoversInRange(pa, pb, |pa|, |pb|);
    forall m | IsMatching(pa, pb, m, |pa|, |pb|)
      ensures TotalGain(pa, pb, m) <= TotalGain(pa, pb, Matches(t))
      ensures TotalSimilarity(pa, pb, m) <= TotalSimilarity(pa, pb, Matches(t)) + 0.01 * (|Matches(t)| as real)
    {
      BestIsUpperBound(pa, pb, m, |pa|, |pb|);
      BonusDecides(pa, pb, Matches(t), m);
    }
    var total, explained;
    rows, total, explained := Rows(pa, pb, pairs, clsA, clsB);
    ExplainedRange(pa, pb, t, |t|);
    if total > 0.0 {
      RealRatio(explained, total);
      conf := explained / total;
    } else {
      conf := if rows != [] then 1.0 else 0.0;
    }
  }
}
