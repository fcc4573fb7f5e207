/** When a span's explicit parent is found and which span it is, stated over the spans alone: `resolve` of
    src/analysis/span_links.py, and the links of the raw forest in those terms. */
module CallParents {
  import opened Options
  import opened ForestLists
  import opened CallForest

  /** Span c carries the id that span i names as its parent. */
  predicate Carries(spans: seq<Span>, i: nat, c: nat) {
    && i < |spans| && c < |spans| && spans[i].parentId != ""
    && spans[c].pid == spans[i].pid && spans[c].id == spans[i].parentId
  }

  /** Among carriers, one of the child's own family; with none of that family, an annotation range. */
  predicate Kin(spans: seq<Span>, i: nat, c: nat) {
    && Carries(spans, i, c)
    && (spans[c].family == spans[i].family
        || (spans[c].family == "annotation"
            && forall d: nat :: d < |spans| && Carries(spans, i, d) ==> spans[d].family != spans[i].family))
  }

  predicate OnlyCarrier(spans: seq<Span>, i: nat, c: nat) {
    Carries(spans, i, c) && forall d: nat :: d < |spans| && Carries(spans, i, d) ==> d == c
  }

  predicate OnlyKin(spans: seq<Span>, i: nat, c: nat) {
    Kin(spans, i, c) && forall d: nat :: d < |spans| && Kin(spans, i, d) ==> d == c
  }

  /** Of the kin that started no later than the child, the one that started last, the first of them on ties. */
  predicate LastKinBefore(spans: seq<Span>, i: nat, c: nat) {
    && Kin(spans, i, c) && spans[c].start <= spans[i].start
    && forall d: nat :: d < |spans| && Kin(spans, i, d) && spans[d].start <= spans[i].start && d != c ==>
         spans[d].start < spans[c].start || (spans[d].start == spans[c].start && c < d)
  }

  /** The parent of span i: the only carrier of the id, or the only kin among several, or the last of several kin to
      start before the child. */
  predicate IsParent(spans: seq<Span>, i: nat, p: nat) {
    OnlyCarrier(spans, i, p) || OnlyKin(spans, i, p) || LastKinBefore(spans, i, p)
  }

  // ---- lists of candidates ----

  predicate Ascending(cs: seq<nat>) {
    forall a, b :: 0 <= a < b < |cs| ==> cs[a] < cs[b]
  }

  lemma {:induction false} CarryingAscends(spans: seq<Span>, n: nat, pid: int, id: string)
    requires n <= |spans|
    ensures Ascending(Carrying(spans, n, pid, id))
  {
    if n > 0 {
      CarryingAscends(spans, n - 1, pid, id);
      var before := Carrying(spans, n - 1, pid, id);
      assert forall k :: 0 <= k < |before| ==> before[k] in before;
    }
  }

  lemma {:induction false} FamilyAscends(spans: seq<Span>, cs: seq<nat>, family: string)
    requires InRange(spans, cs) && Ascending(cs)
    ensures Ascending(OfFamily(spans, cs, family))
  {
    if cs != [] {
      FamilyAscends(spans, cs[..|cs|-1], family);
      var before := OfFamily(spans, cs[..|cs|-1], family);
      assert forall k :: 0 <= k < |before| ==> before[k] in before;
    }
  }

  lemma {:induction false} StartedAscends(spans: seq<Span>, cs: seq<nat>, time: int)
    requires InRange(spans, cs) && Ascending(cs)
    ensures Ascending(StartedBy(spans, cs, time))
  {
    if cs != [] {
      StartedAscends(spans, cs[..|cs|-1], time);
      var before := StartedBy(spans, cs[..|cs|-1], time);
      assert forall k :: 0 <= k < |before| ==> before[k] in before;
    }
  }

  lemma {:induction false} LatestIsFirst(spans: seq<Span>, cs: seq<nat>)
    requires cs != [] && InRange(spans, cs) && Ascending(cs)
    ensures forall d :: d in cs && d != Latest(spans, cs) ==>
      spans[d].start < spans[Latest(spans, cs)].start
      || (spans[d].start == spans[Latest(spans, cs)].start && Latest(spans, cs) < d)
  {
    if |cs| > 1 {
      LatestIsFirst(spans, cs[..|cs|-1]);
      assert forall d :: d in cs ==> d in cs[..|cs|-1] || d == cs[|cs|-1];
    }
  }

  /** A list without repetitions has one element exactly when all its elements are the same one. */
  lemma OneElement(cs: seq<nat>, c: nat)
    requires Ascending(cs) && c in cs
    ensures |cs| == 1 <==> forall d :: d in cs ==> d == c
    ensures |cs| == 1 ==> cs[0] == c
  {
    if |cs| > 1 {
      assert cs[0] in cs && cs[1] in cs && cs[0] != cs[1];
    } else {
      assert forall d :: d in cs ==> d == cs[0];
    }
  }

  // ---- the lookup ----

  /** The lists the lookup goes through hold exactly the carriers and the kin. */
  lemma Candidates(spans: seq<Span>, i: nat) returns (cs: seq<nat>, pick: seq<nat>)
    requires i < |spans| && spans[i].parentId != ""
    ensures cs == Carrying(spans, |spans|, spans[i].pid, spans[i].parentId) && pick == Pick(spans, cs, spans[i].family)
    ensures Ascending(cs) && Ascending(pick)
    ensures forall c :: c in cs <==> Carries(spans, i, c)
    ensures forall c :: c in pick <==> Kin(spans, i, c)
  {
    cs := Carrying(spans, |spans|, spans[i].pid, spans[i].parentId);
    pick := Pick(spans, cs, spans[i].family);
    CarryingAscends(spans, |spans|, spans[i].pid, spans[i].parentId);
    FamilyAscends(spans, cs, spans[i].family);
    FamilyAscends(spans, cs, "annotation");
    var own := OfFamily(spans, cs, spans[i].family);
    if own != [] { assert own[0] in own; }
  }

  /** Nothing is guessed: the lookup finds span p exactly when p is the parent, so nothing exactly when none is. */
  lemma ResolveMeans(spans: seq<Span>, i: nat, p: nat)
    requires i < |spans|
    ensures Resolve(spans, i) == Some(p) <==> IsParent(spans, i, p)
  {
    if spans[i].parentId != "" {
      var cs, pick := Candidates(spans, i);
      CandidatesDecide(spans, i, cs, pick, p);
      hide Carrying, Pick, IsParent, OfFamily;
    }
  }

  /** The parent, from the lists of carriers and of kin. */
  lemma CandidatesDecide(spans: seq<Span>, i: nat, cs: seq<nat>, pick: seq<nat>, p: nat)
    requires i < |spans| && InRange(spans, pick) && Ascending(cs) && Ascending(pick)
    requires (forall c :: c in cs <==> Carries(spans, i, c)) && forall c :: c in pick <==> Kin(spans, i, c)
    ensures var before := StartedBy(spans, pick, spans[i].start);
      IsParent(spans, i, p) <==>
        if |cs| == 1 then cs[0] == p
        else if |pick| == 1 then pick[0] == p
        else before != [] && Latest(spans, before) == p
  {
    OnlyCarrierIs(spans, i, cs, p);
    OnlyKinIs(spans, i, pick, p);
    LastKinIs(spans, i, pick, p);
    forall c ensures c in pick ==> c in cs { assert Kin(spans, i, c) ==> Carries(spans, i, c); }
    if |cs| == 1 { OneElement(cs, cs[0]); }
    if |pick| == 1 { OneElement(pick, pick[0]); }
    if p in pick { OneElement(pick, p); }
    var before := StartedBy(spans, pick, spans[i].start);
    assert before != [] ==> Latest(spans, before) in pick;
    hide Carries, Kin, OnlyCarrier, OnlyKin, LastKinBefore, StartedBy, Latest, Ascending;
  }

  lemma OnlyCarrierIs(spans: seq<Span>, i: nat, cs: seq<nat>, p: nat)
    requires i < |spans| && Ascending(cs) && forall c :: c in cs <==> Carries(spans, i, c)
    ensures OnlyCarrier(spans, i, p) <==> |cs| == 1 && cs[0] == p
  {
    if p in cs { OneElement(cs, p); }
    hide Carries;
  }

  lemma OnlyKinIs(spans: seq<Span>, i: nat, pick: seq<nat>, p: nat)
    requires i < |spans| && Ascending(pick) && forall c :: c in pick <==> Kin(spans, i, c)
    ensures OnlyKin(spans, i, p) <==> |pick| == 1 && pick[0] == p
  {
    if p in pick { OneElement(pick, p); }
    hide Kin;
  }

  lemma LastKinIs(spans: seq<Span>, i: nat, pick: seq<nat>, p: nat)
    requires i < |spans| && InRange(spans, pick) && Ascending(pick) && forall c :: c in pick <==> Kin(spans, i, c)
    ensures var before := StartedBy(spans, pick, spans[i].start);
      LastKinBefore(spans, i, p) <==> before != [] && Latest(spans, before) == p
  {
    var before := StartedBy(spans, pick, spans[i].start);
    StartedAscends(spans, pick, spans[i].start);
    if before != [] {
      LatestIsFirst(spans, before);
      assert Latest(spans, before) in before;
    }
    hide Kin, Latest, StartedBy;
  }

  // ---- the forest ----

  /** The explicit parent counts when it was placed before the child. */
  predicate ByLink(spans: seq<Span>, i: nat, p: nat) {
    p < i && IsParent(spans, i, p)
  }

  predicate Linked(spans: seq<Span>, i: nat) {
    exists p: nat :: p < i && ByLink(spans, i, p)
  }

  /** The last span that is still running when span i starts, if it also runs to the end of span i. */
  predicate ByTime(spans: seq<Span>, i: nat, p: nat) {
    && p < i < |spans| && spans[p].end > spans[i].start && spans[p].end >= spans[i].end
    && forall k: nat :: p < k < i ==> spans[k].end <= spans[i].start
  }

  lemma ExplicitMeans(spans: seq<Span>, i: nat, p: nat)
    requires i < |spans|
    ensures Explicit(spans, i) == Some(p) <==> ByLink(spans, i, p)
  {
    ResolveMeans(spans, i, p);
    hide IsParent, Resolve;
  }

  lemma NoExplicit(spans: seq<Span>, i: nat)
    requires i < |spans|
    ensures Explicit(spans, i).None? <==> !Linked(spans, i)
  {
    var e := Explicit(spans, i);
    if e.Some? { ExplicitMeans(spans, i, e.value); }
    if p: nat :| p < i && ByLink(spans, i, p) { ExplicitMeans(spans, i, p); }
  }

  lemma TemporalMeans(spans: seq<Span>, i: nat, p: nat)
    requires i < |spans|
    ensures Temporal(spans, i) == Some(p) <==> ByTime(spans, i, p)
  {
    var j := LastRunning(spans, i, spans[i].start);
    if ByTime(spans, i, p) { assert j.Some? && j.value == p; }
  }

  lemma {:induction false} ListAscends(par: seq<Option<nat>>, p: nat, n: nat)
    requires n <= |par|
    ensures Ascending(ListOf(par, p, n)) && forall i: nat :: i in ListOf(par, p, n) <==> i < n && par[i] == Some(p)
  {
    if n > 0 {
      ListAscends(par, p, n - 1);
      var before := ListOf(par, p, n - 1);
      assert forall k :: 0 <= k < |before| ==> before[k] in before;
    }
  }

  lemma {:induction false} RootsAscend(ex: seq<Option<nat>>, te: seq<Option<nat>>, n: nat)
    requires n <= |ex| == |te|
    ensures Ascending(RootsOf(ex, te, n))
  {
    if n > 0 {
      RootsAscend(ex, te, n - 1);
      RootsOfMeans(ex, te, n - 1);
    }
  }

  /** The children of a node are the spans linked to it, in start order, and after them the spans without a link that it
      holds by time, in start order. */
  lemma ForestLinks(spans: seq<Span>, children: seq<seq<nat>>, roots: seq<nat>, p: nat)
    returns (linked: seq<nat>, held: seq<nat>)
    requires IsForest(spans, children, roots) && p < |spans|
    ensures children[p] == linked + held && Ascending(linked) && Ascending(held)
    ensures forall i: nat :: i in linked <==> i < |spans| && ByLink(spans, i, p)
    ensures forall i: nat :: i in held <==> i < |spans| && !Linked(spans, i) && ByTime(spans, i, p)
  {
    var ex, te := Explicits(spans, |spans|), Temporals(spans, |spans|);
    linked, held := ListOf(ex, p, |spans|), ListOf(te, p, |spans|);
    ListAscends(ex, p, |spans|);
    ListAscends(te, p, |spans|);
    forall i: nat ensures i in linked <==> i < |spans| && ByLink(spans, i, p) {
      if i < |spans| {
        ParentsAt(spans, |spans|, i);
        ExplicitMeans(spans, i, p);
      }
    }
    forall i: nat ensures i in held <==> i < |spans| && !Linked(spans, i) && ByTime(spans, i, p) {
      if i < |spans| {
        ParentsAt(spans, |spans|, i);
        NoExplicit(spans, i);
        TemporalMeans(spans, i, p);
      }
      hide ByLink, Linked, ByTime, Explicit, Temporal, ListOf;
    }
  }

  /** The roots are the spans with neither, in start order. */
  lemma ForestRoots(spans: seq<Span>, children: seq<seq<nat>>, roots: seq<nat>)
    requires IsForest(spans, children, roots)
    ensures Ascending(roots)
    ensures forall i: nat ::
      i in roots <==> i < |spans| && !Linked(spans, i) && forall p: nat :: p < i ==> !ByTime(spans, i, p)
  {
    var ex, te := Explicits(spans, |spans|), Temporals(spans, |spans|);
    RootsOfMeans(ex, te, |spans|);
    RootsAscend(ex, te, |spans|);
    forall i: nat
      ensures i in roots <==> i < |spans| && !Linked(spans, i) && forall p: nat :: p < i ==> !ByTime(spans, i, p)
    {
      if i < |spans| {
        ParentsAt(spans, |spans|, i);
        NoExplicit(spans, i);
        NotByTime(spans, i);
      }
      hide Linked, ByTime, Explicit, Temporal, RootsOf;
    }
  }

  lemma NotByTime(spans: seq<Span>, i: nat)
    requires i < |spans|
    ensures Temporal(spans, i).None? <==> forall p: nat :: p < i ==> !ByTime(spans, i, p)
  {
    var t := Temporal(spans, i);
    if t.Some? { TemporalMeans(spans, i, t.value); }
    forall p: nat | p < i ensures t.None? ==> !ByTime(spans, i, p) { TemporalMeans(spans, i, p); }
    hide ByTime, Temporal;
  }
}
