/** Self times in the aggregated call tree of src/analysis/call_tree.py: each node's total less its children's, never
    below zero. They add up to the time of the roots exactly when no node's children outlast it. */
module CallSelfTimes {
  import opened ForestLists
  import opened CallForest
  import opened CallAggregate

  /** Everywhere in the tree a node's own time is what its children leave of it, none if they outlast it. */
  predicate SelfOk(ts: seq<CtNode>) {
    ts == [] || (SelfOk(ts[..|ts|-1]) && OneSelfOk(ts[|ts|-1]))
  }

  predicate OneSelfOk(t: CtNode) {
    && t.self == (if TotalOf(t.children) < t.total then t.total - TotalOf(t.children) else 0)
    && SelfOk(t.children)
  }

  /** Nowhere in the tree do the children of a node together outlast it. */
  predicate WithinParents(ts: seq<CtNode>) {
    ts == [] || (WithinParents(ts[..|ts|-1]) && OneWithin(ts[|ts|-1]))
  }

  predicate OneWithin(t: CtNode) {
    TotalOf(t.children) <= t.total && WithinParents(t.children)
  }

  /** The self time of a whole tree. */
  function SelfSum(ts: seq<CtNode>): int {
    if ts == [] then 0 else SelfSum(ts[..|ts|-1]) + ts[|ts|-1].self + SelfSum(ts[|ts|-1].children)
  }

  lemma {:induction false} SelfSumMeans(ts: seq<CtNode>)
    requires SelfOk(ts)
    ensures SelfSum(ts) >= TotalOf(ts) && (SelfSum(ts) == TotalOf(ts) <==> WithinParents(ts))
  {
    if ts != [] {
      SelfSumMeans(ts[..|ts|-1]);
      SelfSumMeans(ts[|ts|-1].children);
    }
  }

  // ---- sorting changes neither ----

  lemma SelfSnoc(ts: seq<CtNode>, t: CtNode)
    ensures SelfOk(ts + [t]) <==> SelfOk(ts) && OneSelfOk(t)
    ensures TotalOf(ts + [t]) == TotalOf(ts) + t.total
  {
    assert (ts + [t])[..|ts|] == ts;
  }

  lemma {:induction false} InsertSelf(ts: seq<CtNode>, t: CtNode)
    requires SelfOk(ts) && OneSelfOk(t)
    ensures SelfOk(InsertDesc(ts, t)) && TotalOf(InsertDesc(ts, t)) == TotalOf(ts) + t.total
  {
    hide SelfOk, OneSelfOk, TotalOf;
    if ts != [] && ts[|ts|-1].total < t.total {
      var front, last := ts[..|ts|-1], ts[|ts|-1];
      assert ts == front + [last];
      SelfSnoc(front, last);
      InsertSelf(front, t);
      SelfSnoc(InsertDesc(front, t), last);
    } else {
      SelfSnoc(ts, t);
    }
  }

  lemma {:induction false} SortSelf(ts: seq<CtNode>)
    requires SelfOk(ts)
    ensures SelfOk(SortDesc(ts)) && TotalOf(SortDesc(ts)) == TotalOf(ts)
  {
    if ts != [] {
      SortSelf(ts[..|ts|-1]);
      InsertSelf(SortDesc(ts[..|ts|-1]), ts[|ts|-1]);
    }
  }

  // ---- the aggregated tree ----

  lemma {:induction false} AggregateSelf(spans: seq<Span>, children: seq<seq<nat>>, nodes: seq<nat>, low: nat)
    requires LinksOk(children) && |spans| == |children| && From(children, nodes, low) && low <= |children|
    ensures SelfOk(Aggregate(spans, children, nodes, low))
    ensures TotalOf(Aggregate(spans, children, nodes, low)) == DurationSum(spans, nodes)
    decreases |children| - low, |nodes| + 1
  {
    if nodes != [] {
      assert nodes[0] >= low;
      GroupedFrom(spans, children, nodes, low);
      LevelSelf(spans, children, Grouped(spans, nodes), low);
      SortSelf(Level(spans, children, Grouped(spans, nodes), low));
      GroupedDurations(spans, nodes);
      hide Level, SortDesc, TotalOf, SelfOk, DurationSum, Grouped;
    }
  }

  lemma {:induction false} LevelSelf(spans: seq<Span>, children: seq<seq<nat>>, groups: seq<Group>, low: nat)
    requires LinksOk(children) && |spans| == |children| && GroupsFrom(children, groups, low) && low < |children|
    ensures SelfOk(Level(spans, children, groups, low))
    ensures TotalOf(Level(spans, children, groups, low)) == GroupDurations(spans, groups)
    decreases |children| - low, 0, |groups|
  {
    if groups != [] {
      var front, g := groups[..|groups|-1], groups[|groups|-1];
      LevelSelf(spans, children, front, low);
      NodeSelf(spans, children, g, low);
      SelfSnoc(Level(spans, children, front, low), NodeOf(spans, children, g, low));
    }
  }

  lemma {:induction false} NodeSelf(spans: seq<Span>, children: seq<seq<nat>>, g: Group, low: nat)
    requires LinksOk(children) && |spans| == |children| && From(children, g.nodes, low) && low < |children|
    ensures var t := NodeOf(spans, children, g, low);
      OneSelfOk(t) && t.total == DurationSum(spans, g.nodes)
    decreases |children| - low, 0, 0
  {
    AllChildrenFrom(children, g.nodes, low);
    AggregateSelf(spans, children, AllChildren(children, g.nodes), low + 1);
    SortSelf(Aggregate(spans, children, AllChildren(children, g.nodes), low + 1));
    hide Aggregate, SortDesc, TotalOf, SelfOk, DurationSum, AllChildren;
  }

  function GroupDurations(spans: seq<Span>, groups: seq<Group>): int {
    if groups == [] then 0
    else GroupDurations(spans, groups[..|groups|-1]) + DurationSum(spans, groups[|groups|-1].nodes)
  }

  /** The spans' durations as weights, which grouping does not change the sum of. */
  lemma GroupedDurations(spans: seq<Span>, nodes: seq<nat>)
    requires forall k :: 0 <= k < |nodes| ==> nodes[k] < |spans|
    ensures GroupDurations(spans, Grouped(spans, nodes)) == DurationSum(spans, nodes)
  {
    var w := Metrics(spans, true, |spans|);
    GroupedSum(spans, w, nodes);
    DurationIsWeight(spans, w, nodes);
    GroupsAreWeights(spans, w, Grouped(spans, nodes));
  }

  lemma {:induction false} DurationIsWeight(spans: seq<Span>, w: seq<int>, nodes: seq<nat>)
    requires |w| == |spans| && forall i :: 0 <= i < |w| ==> w[i] == SpanMetric(spans, i, true)
    ensures DurationSum(spans, nodes) == SumOver(w, nodes)
  {
    if nodes != [] { DurationIsWeight(spans, w, nodes[..|nodes|-1]); }
  }

  lemma {:induction false} GroupsAreWeights(spans: seq<Span>, w: seq<int>, groups: seq<Group>)
    requires |w| == |spans| && forall i :: 0 <= i < |w| ==> w[i] == SpanMetric(spans, i, true)
    ensures GroupDurations(spans, groups) == GroupSum(w, groups)
  {
    if groups != [] {
      GroupsAreWeights(spans, w, groups[..|groups|-1]);
      DurationIsWeight(spans, w, groups[|groups|-1].nodes);
    }
  }

  /** A thread's self times cover the time of its roots; the floor adds to it exactly when some node's children
      together outlast it. */
  lemma SelfTimesCoverRoots(spans: seq<Span>, children: seq<seq<nat>>, roots: seq<nat>)
    requires IsForest(spans, children, roots)
    ensures LinksOk(children) && From(children, roots, 0)
    ensures var ts := Aggregate(spans, children, roots, 0);
      && TotalOf(ts) == DurationSum(spans, roots) <= SelfSum(ts)
      && (SelfSum(ts) == DurationSum(spans, roots) <==> WithinParents(ts))
  {
    TreeHoldsEverySpan(spans, children, roots, true);
    AggregateSelf(spans, children, roots, 0);
    SelfSumMeans(Aggregate(spans, children, roots, 0));
  }
}
