/** When the floor on self times acts, said of the spans' forest before any tree is built (`_ct_aggregate` of
    src/analysis/call_tree.py): exactly when somewhere the children of a group outlast it. Children placed by time
    never do. */
module CallSelfFits {
  import opened Options
  import opened ForestLists
  import opened CallForest
  import opened CallAggregate
  import opened CallSelfTimes

  // ---- the condition on the forest ----

  /** Wherever nodes of one name and category come together below `nodes`, their children do not outlast them. */
  ghost predicate ForestFits(spans: seq<Span>, children: seq<seq<nat>>, nodes: seq<nat>, low: nat)
    requires LinksOk(children) && |spans| == |children| && From(children, nodes, low) && low <= |children|
    decreases |children| - low, |nodes| + 1
  {
    GroupedFrom(spans, children, nodes, low);
    nodes == [] || (assert nodes[0] >= low; GroupsFit(spans, children, Grouped(spans, nodes), low))
  }

  ghost predicate GroupsFit(spans: seq<Span>, children: seq<seq<nat>>, groups: seq<Group>, low: nat)
    requires LinksOk(children) && |spans| == |children| && GroupsFrom(children, groups, low) && low < |children|
    decreases |children| - low, 0, |groups|
  {
    groups == []
      || (GroupsFit(spans, children, groups[..|groups|-1], low) && GroupFits(spans, children, groups[|groups|-1], low))
  }

  ghost predicate GroupFits(spans: seq<Span>, children: seq<seq<nat>>, g: Group, low: nat)
    requires LinksOk(children) && |spans| == |children| && From(children, g.nodes, low) && low < |children|
    decreases |children| - low, 0, 0
  {
    AllChildrenFrom(children, g.nodes, low);
    var kids := AllChildren(children, g.nodes);
    DurationSum(spans, kids) <= DurationSum(spans, g.nodes) && ForestFits(spans, children, kids, low + 1)
  }

  // ---- it is the condition on the tree ----

  lemma WithinSnoc(ts: seq<CtNode>, t: CtNode)
    ensures WithinParents(ts + [t]) <==> WithinParents(ts) && OneWithin(t)
  {
    assert (ts + [t])[..|ts|] == ts;
  }

  lemma {:induction false} InsertWithin(ts: seq<CtNode>, t: CtNode)
    ensures WithinParents(InsertDesc(ts, t)) <==> WithinParents(ts) && OneWithin(t)
  {
    hide WithinParents, OneWithin;
    if ts != [] && ts[|ts|-1].total < t.total {
      var front, last := ts[..|ts|-1], ts[|ts|-1];
      assert ts == front + [last];
      WithinSnoc(front, last);
      InsertWithin(front, t);
      WithinSnoc(InsertDesc(front, t), last);
    } else {
      WithinSnoc(ts, t);
    }
  }

  lemma {:induction false} SortWithin(ts: seq<CtNode>)
    ensures WithinParents(SortDesc(ts)) <==> WithinParents(ts)
  {
    if ts != [] {
      SortWithin(ts[..|ts|-1]);
      InsertWithin(SortDesc(ts[..|ts|-1]), ts[|ts|-1]);
      hide SortDesc, InsertDesc, OneWithin;
      SortLast(ts);
    }
  }

  lemma SortLast(ts: seq<CtNode>)
    requires ts != []
    ensures SortDesc(ts) == InsertDesc(SortDesc(ts[..|ts|-1]), ts[|ts|-1])
  {
  }

  lemma {:induction false} TreeFits(spans: seq<Span>, children: seq<seq<nat>>, nodes: seq<nat>, low: nat)
    requires LinksOk(children) && |spans| == |children| && From(children, nodes, low) && low <= |children|
    ensures WithinParents(Aggregate(spans, children, nodes, low)) <==> ForestFits(spans, children, nodes, low)
    decreases |children| - low, |nodes| + 1
  {
    if nodes != [] {
      assert nodes[0] >= low;
      GroupedFrom(spans, children, nodes, low);
      LevelFits(spans, children, Grouped(spans, nodes), low);
      SortWithin(Level(spans, children, Grouped(spans, nodes), low));
      hide Level, SortDesc, WithinParents, GroupsFit, Grouped;
    }
  }

  lemma {:induction false} LevelFits(spans: seq<Span>, children: seq<seq<nat>>, groups: seq<Group>, low: nat)
    requires LinksOk(children) && |spans| == |children| && GroupsFrom(children, groups, low) && low < |children|
    ensures WithinParents(Level(spans, children, groups, low)) <==> GroupsFit(spans, children, groups, low)
    decreases |children| - low, 0, |groups|
  {
    if groups != [] {
      var front, g := groups[..|groups|-1], groups[|groups|-1];
      LevelFits(spans, children, front, low);
      NodeFits(spans, children, g, low);
      WithinSnoc(Level(spans, children, front, low), NodeOf(spans, children, g, low));
      hide WithinParents, OneWithin, NodeOf, GroupFits;
    }
  }

  lemma NodeIs(spans: seq<Span>, children: seq<seq<nat>>, g: Group, low: nat)
    requires LinksOk(children) && |spans| == |children| && From(children, g.nodes, low) && low < |children|
    ensures From(children, AllChildren(children, g.nodes), low + 1)
    ensures var t := NodeOf(spans, children, g, low);
      t.children == SortDesc(Aggregate(spans, children, AllChildren(children, g.nodes), low + 1))
        && t.total == DurationSum(spans, g.nodes)
  {
    AllChildrenFrom(children, g.nodes, low);
  }

  lemma OneWithinIs(t: CtNode)
    ensures OneWithin(t) <==> TotalOf(t.children) <= t.total && WithinParents(t.children)
  {
  }

  lemma GroupFitsIs(spans: seq<Span>, children: seq<seq<nat>>, g: Group, low: nat)
    requires LinksOk(children) && |spans| == |children| && From(children, g.nodes, low) && low < |children|
    requires From(children, AllChildren(children, g.nodes), low + 1)
    ensures GroupFits(spans, children, g, low) <==>
      && DurationSum(spans, AllChildren(children, g.nodes)) <= DurationSum(spans, g.nodes)
      && ForestFits(spans, children, AllChildren(children, g.nodes), low + 1)
  {
  }

  lemma {:induction false} NodeFits(spans: seq<Span>, children: seq<seq<nat>>, g: Group, low: nat)
    requires LinksOk(children) && |spans| == |children| && From(children, g.nodes, low) && low < |children|
    ensures OneWithin(NodeOf(spans, children, g, low)) <==> GroupFits(spans, children, g, low)
    decreases |children| - low, 0, 0
  {
    hide *;
    NodeIs(spans, children, g, low);
    var kids := AllChildren(children, g.nodes);
    TreeFits(spans, children, kids, low + 1);
    AggregateSelf(spans, children, kids, low + 1);
    SortSelf(Aggregate(spans, children, kids, low + 1));
    SortWithin(Aggregate(spans, children, kids, low + 1));
    OneWithinIs(NodeOf(spans, children, g, low));
    GroupFitsIs(spans, children, g, low);
  }

  /** Self times add up to the roots exactly when the forest fits: no tree is needed to tell. */
  lemma SelfTimesExactIffFits(spans: seq<Span>, children: seq<seq<nat>>, roots: seq<nat>)
    requires IsForest(spans, children, roots)
    ensures LinksOk(children) && From(children, roots, 0)
    ensures SelfSum(Aggregate(spans, children, roots, 0)) == DurationSum(spans, roots)
      <==> ForestFits(spans, children, roots, 0)
  {
    SelfTimesCoverRoots(spans, children, roots);
    hide IsForest, Aggregate, SelfSum, DurationSum, WithinParents, ForestFits, LinksOk, From;
    assert |spans| == |children| by { ForestSize(spans, children, roots); }
    TreeFits(spans, children, roots, 0);
  }

  lemma ForestSize(spans: seq<Span>, children: seq<seq<nat>>, roots: seq<nat>)
    requires IsForest(spans, children, roots)
    ensures |children| == |spans|
  {
  }

  // ---- children placed by time ----

  /** Two children that one node has by time do not overlap. */
  lemma TemporalDisjoint(spans: seq<Span>, i: nat, j: nat)
    requires i < j < |spans| && Temporal(spans, i).Some? && Temporal(spans, j) == Temporal(spans, i)
    ensures spans[i].end <= spans[j].start
  {
  }

  /** The children by time of p among the first n end within its time, one after the other. */
  ghost predicate InTurn(spans: seq<Span>, te: seq<Option<nat>>, p: nat, kids: seq<nat>, n: nat)
    requires p < |spans| && n <= |te| == |spans|
  {
    if kids == [] then DurationSum(spans, kids) == 0 else
    var last := kids[|kids|-1];
    last < n && te[last] == Some(p) && DurationSum(spans, kids) <= spans[last].end - spans[p].start
  }

  lemma {:induction false} InTurnStep(spans: seq<Span>, te: seq<Option<nat>>, p: nat, kids: seq<nat>, c: nat)
    requires ByStart(spans) && p < |spans| && c < |te| == |spans|
    requires forall i :: 0 <= i < |te| && te[i].Some? ==> te[i] == Temporal(spans, i)
    requires InTurn(spans, te, p, kids, c) && te[c] == Some(p)
    ensures InTurn(spans, te, p, kids + [c], c + 1)
  {
    TemporalContained(spans, c);
    if kids != [] { TemporalDisjoint(spans, kids[|kids|-1], c); }
    assert (kids + [c])[..|kids|] == kids;
    hide Temporal, ByStart;
  }

  lemma {:induction false} TemporalSum(spans: seq<Span>, te: seq<Option<nat>>, p: nat, n: nat)
    requires ByStart(spans) && p < |spans| && n <= |te| == |spans|
    requires forall i :: 0 <= i < |te| && te[i].Some? ==> te[i] == Temporal(spans, i)
    ensures InTurn(spans, te, p, ListOf(te, p, n), n)
  {
    if n > 0 {
      TemporalSum(spans, te, p, n - 1);
      if te[n-1] == Some(p) { InTurnStep(spans, te, p, ListOf(te, p, n - 1), n - 1); }
      hide Temporal, ByStart, DurationSum;
    }
  }

  lemma {:induction false} TemporalChildrenFit(spans: seq<Span>, te: seq<Option<nat>>, p: nat)
    requires ByStart(spans) && p < |spans| == |te| && Duration(spans[p]) >= 0
    requires forall i :: 0 <= i < |te| && te[i].Some? ==> te[i] == Temporal(spans, i)
    ensures DurationSum(spans, ListOf(te, p, |te|)) <= Duration(spans[p])
  {
    TemporalSum(spans, te, p, |te|);
    var kids := ListOf(te, p, |te|);
    if kids != [] { TemporalContained(spans, kids[|kids|-1]); }
  }

  /** No span's children outlast it. */
  ghost predicate NodesFit(spans: seq<Span>, children: seq<seq<nat>>) {
    |children| == |spans| && forall p :: 0 <= p < |spans| ==> DurationSum(spans, children[p]) <= Duration(spans[p])
  }

  lemma {:induction false} DurationConcat(spans: seq<Span>, a: seq<nat>, b: seq<nat>)
    ensures DurationSum(spans, a + b) == DurationSum(spans, a) + DurationSum(spans, b)
  {
    if b == [] {
      assert a + b == a;
    } else {
      DurationConcat(spans, a, b[..|b|-1]);
      assert (a + b)[..|a + b|-1] == a + b[..|b|-1];
    }
  }

  lemma {:induction false} GroupedKidsFit(spans: seq<Span>, children: seq<seq<nat>>, nodes: seq<nat>)
    requires NodesFit(spans, children) && forall k :: 0 <= k < |nodes| ==> nodes[k] < |spans|
    ensures DurationSum(spans, AllChildren(children, nodes)) <= DurationSum(spans, nodes)
  {
    if nodes != [] {
      var front := nodes[..|nodes|-1];
      GroupedKidsFit(spans, children, front);
      DurationConcat(spans, AllChildren(children, front), children[nodes[|nodes|-1]]);
    }
  }

  lemma {:induction false} NodesFitForest(spans: seq<Span>, children: seq<seq<nat>>, nodes: seq<nat>, low: nat)
    requires LinksOk(children) && NodesFit(spans, children) && From(children, nodes, low) && low <= |children|
    ensures ForestFits(spans, children, nodes, low)
    decreases |children| - low, |nodes| + 1
  {
    if nodes != [] {
      assert nodes[0] >= low;
      GroupedFrom(spans, children, nodes, low);
      NodesFitGroups(spans, children, Grouped(spans, nodes), low);
    }
  }

  lemma {:induction false} NodesFitGroups(spans: seq<Span>, children: seq<seq<nat>>, groups: seq<Group>, low: nat)
    requires LinksOk(children) && NodesFit(spans, children) && GroupsFrom(children, groups, low) && low < |children|
    ensures GroupsFit(spans, children, groups, low)
    decreases |children| - low, 0, |groups|
  {
    if groups != [] {
      var g := groups[|groups|-1];
      NodesFitGroups(spans, children, groups[..|groups|-1], low);
      AllChildrenFrom(children, g.nodes, low);
      GroupedKidsFit(spans, children, g.nodes);
      NodesFitForest(spans, children, AllChildren(children, g.nodes), low + 1);
      hide NodesFit, ForestFits, AllChildren, DurationSum;
    }
  }

  /** Without explicit parents the floor never acts: the self times of a thread are exactly the time of its roots. */
  lemma TemporalSelfTimes(spans: seq<Span>, children: seq<seq<nat>>, roots: seq<nat>)
    requires IsForest(spans, children, roots) && ByStart(spans)
    requires forall i :: 0 <= i < |spans| ==> Duration(spans[i]) >= 0 && Explicit(spans, i).None?
    ensures LinksOk(children) && From(children, roots, 0)
    ensures SelfSum(Aggregate(spans, children, roots, 0)) == DurationSum(spans, roots)
  {
    SelfTimesExactIffFits(spans, children, roots);
    NoExplicitFits(spans, children, roots);
    hide IsForest, Aggregate, SelfSum, DurationSum, ForestFits, Explicit;
    NodesFitForest(spans, children, roots, 0);
  }

  lemma {:induction false} NoExplicitFits(spans: seq<Span>, children: seq<seq<nat>>, roots: seq<nat>)
    requires IsForest(spans, children, roots) && ByStart(spans)
    requires forall i :: 0 <= i < |spans| ==> Duration(spans[i]) >= 0 && Explicit(spans, i).None?
    ensures NodesFit(spans, children)
  {
    var ex, te := Explicits(spans, |spans|), Temporals(spans, |spans|);
    forall i | 0 <= i < |spans| ensures ex[i].None? && (te[i].Some? ==> te[i] == Temporal(spans, i)) {
      ParentsAt(spans, |spans|, i);
    }
    hide Explicit, Temporal, Explicits, Temporals, DurationSum, ListOf;
    forall p | 0 <= p < |spans| ensures DurationSum(spans, children[p]) <= Duration(spans[p]) {
      NoList(ex, p, |spans|);
      assert children[p] == ListOf(te, p, |spans|);
      TemporalChildrenFit(spans, te, p);
    }
  }

  lemma {:induction false} NoList(par: seq<Option<nat>>, p: nat, n: nat)
    requires n <= |par| && forall i :: 0 <= i < |par| ==> par[i].None?
    ensures ListOf(par, p, n) == []
  {
    if n > 0 { NoList(par, p, n - 1); }
  }

  // ---- where the floor acts ----

  /** A run of 10 ns and two tasks of 8 ns each inside it, side by side, that name it as their parent. */
  function SideBySide(): seq<Span> {
    [Span(1, 0, 10, "run", "openmp", "1", "", "openmp"),
     Span(1, 1, 9, "task", "openmp", "", "1", "openmp"),
     Span(1, 2, 10, "task", "openmp", "", "1", "openmp")]
  }

  lemma SideBySideParents()
    ensures |SideBySide()| == 3
    ensures Explicit(SideBySide(), 0) == None && Explicit(SideBySide(), 1) == Some(0)
    ensures Explicit(SideBySide(), 2) == Some(0)
    ensures Temporal(SideBySide(), 0) == None
  {
    var s := SideBySide();
    var c0, c1, c2, c3 := Carrying(s, 0, 1, "1"), Carrying(s, 1, 1, "1"), Carrying(s, 2, 1, "1"),
      Carrying(s, 3, 1, "1");
    assert c0 == [] && c1 == [0] && c2 == [0] && c3 == [0];
  }

  lemma SideBySideForest(children: seq<seq<nat>>, roots: seq<nat>)
    requires IsForest(SideBySide(), children, roots)
    ensures |children| == 3 && roots == [0] && children[0] == [1, 2]
  {
    var s := SideBySide();
    SideBySideParents();
    var ex, te := Explicits(s, 3), Temporals(s, 3);
    ParentsAt(s, 3, 0);
    ParentsAt(s, 3, 1);
    ParentsAt(s, 3, 2);
    hide Explicit, Temporal, Explicits, Temporals, SideBySide;
    assert ListOf(ex, 0, 0) == [] && ListOf(ex, 0, 1) == [] && ListOf(ex, 0, 2) == [1] && ListOf(ex, 0, 3) == [1, 2];
    assert ListOf(te, 0, 0) == [] && ListOf(te, 0, 1) == [] && ListOf(te, 0, 2) == [] && ListOf(te, 0, 3) == [];
    assert RootsOf(ex, te, 0) == [] && RootsOf(ex, te, 1) == [0] && RootsOf(ex, te, 2) == [0]
      && RootsOf(ex, te, 3) == [0];
  }

  /** Concurrent children outlast their parent: the floor acts, and the self times add up to more than the roots. */
  lemma FloorActs(children: seq<seq<nat>>, roots: seq<nat>)
    requires IsForest(SideBySide(), children, roots)
    ensures LinksOk(children) && From(children, roots, 0)
    ensures DurationSum(SideBySide(), roots) == 10 < SelfSum(Aggregate(SideBySide(), children, roots, 0))
  {
    var s := SideBySide();
    SelfTimesExactIffFits(s, children, roots);
    SelfTimesCoverRoots(s, children, roots);
    SideBySideForest(children, roots);
    SideBySideSums();
    SideBySideMisfit(children);
    hide Aggregate, SelfSum, ForestFits, IsForest, LinksOk, From, SideBySide;
  }

  lemma SideBySideSums()
    ensures DurationSum(SideBySide(), [0]) == 10 && DurationSum(SideBySide(), [1, 2]) == 16
  {
    assert [0][..0] == [] && [1, 2][..1] == [1] && [1][..0] == [];
    assert DurationSum(SideBySide(), [1]) == 8;
  }

  lemma SideBySideMisfit(children: seq<seq<nat>>)
    requires LinksOk(children) && |children| == 3 && children[0] == [1, 2]
    ensures |SideBySide()| == 3 && From(children, [0], 0) && !ForestFits(SideBySide(), children, [0], 0)
  {
    var s := SideBySide();
    SideBySideSums();
    assert [0][..0] == [];
    assert Grouped(s, [0]) == [Group("run", "openmp", [0])];
    AllChildrenFrom(children, [0], 0);
    assert AllChildren(children, [0]) == [1, 2];
    hide SideBySide, DurationSum;
    assert !GroupFits(s, children, Group("run", "openmp", [0]), 0);
  }
}
