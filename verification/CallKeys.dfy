/** What the aggregated tree says of one name and category at one level, counted over the spans: `_ct_aggregate` of
    src/analysis/call_tree.py. */
module CallKeys {
  import opened ForestLists
  import opened CallForest
  import opened CallAggregate

  /** Span i of the list has the name and the category. */
  predicate IsKey(spans: seq<Span>, i: nat, name: string, category: string) {
    i < |spans| && spans[i].name == name && spans[i].category == category
  }

  /** How many of the nodes have the key. */
  function KeyCount(spans: seq<Span>, nodes: seq<nat>, name: string, category: string): nat {
    if nodes == [] then 0
    else KeyCount(spans, nodes[1..], name, category) + if IsKey(spans, nodes[0], name, category) then 1 else 0
  }

  /** How long they took together. */
  function KeyTime(spans: seq<Span>, nodes: seq<nat>, name: string, category: string): int {
    if nodes == [] then 0
    else
      KeyTime(spans, nodes[1..], name, category)
      + if IsKey(spans, nodes[0], name, category) then spans[nodes[0]].end - spans[nodes[0]].start else 0
  }

  lemma {:induction false} KeySnoc(spans: seq<Span>, nodes: seq<nat>, i: nat, name: string, category: string)
    ensures KeyCount(spans, nodes + [i], name, category)
         == KeyCount(spans, nodes, name, category) + if IsKey(spans, i, name, category) then 1 else 0
    ensures KeyTime(spans, nodes + [i], name, category)
         == KeyTime(spans, nodes, name, category)
            + if IsKey(spans, i, name, category) then spans[i].end - spans[i].start else 0
  {
    if nodes == [] {
      assert [] + [i] == [i] && [i][1..] == [];
    } else {
      KeySnoc(spans, nodes[1..], i, name, category);
      assert (nodes + [i])[1..] == nodes[1..] + [i];
    }
  }

  /** The nodes of the key, in order, are that many and took that long. */
  lemma {:induction false} HavingCounts(spans: seq<Span>, nodes: seq<nat>, name: string, category: string)
    ensures |Having(spans, nodes, name, category)| == KeyCount(spans, nodes, name, category)
    ensures DurationSum(spans, Having(spans, nodes, name, category)) == KeyTime(spans, nodes, name, category)
  {
    if nodes != [] {
      var front, i := nodes[..|nodes|-1], nodes[|nodes|-1];
      HavingCounts(spans, front, name, category);
      KeySnoc(spans, front, i, name, category);
      assert front + [i] == nodes;
      var h := Having(spans, front, name, category);
      assert (h + [i])[..|h|] == h;
    }
  }

  /** How many nodes of a list of tree nodes have the key. */
  function Named(ts: seq<CtNode>, name: string, category: string): nat {
    if ts == [] then 0
    else
      var t := ts[|ts|-1];
      Named(ts[..|ts|-1], name, category) + if t.name == name && t.category == category then 1 else 0
  }

  lemma NamedSnoc(ts: seq<CtNode>, t: CtNode, name: string, category: string)
    ensures Named(ts + [t], name, category)
         == Named(ts, name, category) + if t.name == name && t.category == category then 1 else 0
  {
    assert (ts + [t])[..|ts|] == ts;
  }

  lemma {:induction false} InsertNamed(ts: seq<CtNode>, t: CtNode, name: string, category: string)
    ensures Named(InsertDesc(ts, t), name, category)
         == Named(ts, name, category) + if t.name == name && t.category == category then 1 else 0
  {
    if ts != [] && ts[|ts|-1].total < t.total {
      InsertNamed(ts[..|ts|-1], t, name, category);
      NamedSnoc(InsertDesc(ts[..|ts|-1], t), ts[|ts|-1], name, category);
    } else {
      NamedSnoc(ts, t, name, category);
    }
  }

  lemma {:induction false} SortNamed(ts: seq<CtNode>, name: string, category: string)
    ensures Named(SortDesc(ts), name, category) == Named(ts, name, category)
  {
    if ts != [] {
      SortNamed(ts[..|ts|-1], name, category);
      InsertNamed(SortDesc(ts[..|ts|-1]), ts[|ts|-1], name, category);
    }
  }

  /** How many groups have the key. */
  function GroupsNamed(groups: seq<Group>, name: string, category: string): nat {
    if groups == [] then 0
    else
      var g := groups[|groups|-1];
      GroupsNamed(groups[..|groups|-1], name, category) + if g.name == name && g.category == category then 1 else 0
  }

  lemma {:induction false} NoGroupNamed(groups: seq<Group>, name: string, category: string)
    requires forall g :: 0 <= g < |groups| ==> groups[g].name != name || groups[g].category != category
    ensures GroupsNamed(groups, name, category) == 0
  {
    if groups != [] { NoGroupNamed(groups[..|groups|-1], name, category); }
  }

  lemma {:induction false} OneGroupNamed(groups: seq<Group>, name: string, category: string, k: nat)
    requires OncePerKey(groups) && k < |groups| && groups[k].name == name && groups[k].category == category
    ensures GroupsNamed(groups, name, category) == 1
  {
    var last := |groups| - 1;
    if k == last {
      NoGroupNamed(groups[..last], name, category);
    } else {
      OneGroupNamed(groups[..last], name, category, k);
    }
  }

  /** A key's group, if there is one. */
  lemma {:induction false} FindGroup(groups: seq<Group>, name: string, category: string) returns (k: nat)
    requires forall g :: 0 <= g < |groups| ==> groups[g].nodes != []
    ensures k <= |groups| && (k < |groups| <==> GroupOf(groups, name, category) != [])
    ensures k < |groups| ==>
      groups[k].name == name && groups[k].category == category && groups[k].nodes == GroupOf(groups, name, category)
    ensures k == |groups| ==> forall g :: 0 <= g < |groups| ==> groups[g].name != name || groups[g].category != category
  {
    if groups == [] {
      k := 0;
    } else if groups[0].name == name && groups[0].category == category {
      k := 0;
    } else {
      var rest := groups[1..];
      var l := FindGroup(rest, name, category);
      k := l + 1;
      if l == |rest| {
        forall g | 0 <= g < |groups| ensures groups[g].name != name || groups[g].category != category {
          assert g > 0 ==> groups[g] == rest[g-1];
        }
      }
    }
  }

  /** A tree node carries its group's name and category, in that order. */
  lemma NodeNamed(spans: seq<Span>, children: seq<seq<nat>>, g: Group, low: nat)
    requires LinksOk(children) && |spans| == |children| && From(children, g.nodes, low) && low < |children|
    ensures From(children, AllChildren(children, g.nodes), low + 1)
    ensures var t := NodeOf(spans, children, g, low);
      && t.name == g.name && t.category == g.category && t.count == |g.nodes| && t.total == DurationSum(spans, g.nodes)
      && t.children == SortDesc(Aggregate(spans, children, AllChildren(children, g.nodes), low + 1))
      && t.self == if t.total > TotalOf(t.children) then t.total - TotalOf(t.children) else 0
  {
    AllChildrenFrom(children, g.nodes, low);
    SortTotal(Aggregate(spans, children, AllChildren(children, g.nodes), low + 1));
    hide Aggregate, SortDesc, TotalOf, DurationSum, AllChildren;
  }

  lemma {:induction false} InsertTotal(ts: seq<CtNode>, t: CtNode)
    ensures TotalOf(InsertDesc(ts, t)) == TotalOf(ts) + t.total
  {
    if ts != [] && ts[|ts|-1].total < t.total {
      var r := InsertDesc(ts[..|ts|-1], t);
      InsertTotal(ts[..|ts|-1], t);
      assert (r + [ts[|ts|-1]])[..|r|] == r;
    } else {
      assert (ts + [t])[..|ts|] == ts;
    }
  }

  lemma {:induction false} SortTotal(ts: seq<CtNode>)
    ensures TotalOf(SortDesc(ts)) == TotalOf(ts)
  {
    if ts != [] {
      SortTotal(ts[..|ts|-1]);
      InsertTotal(SortDesc(ts[..|ts|-1]), ts[|ts|-1]);
    }
  }

  lemma {:induction false} LevelNamed(spans: seq<Span>, children: seq<seq<nat>>, groups: seq<Group>, low: nat,
        name: string, category: string)
    requires LinksOk(children) && |spans| == |children| && GroupsFrom(children, groups, low) && low < |children|
    ensures Named(Level(spans, children, groups, low), name, category) == GroupsNamed(groups, name, category)
    ensures forall k :: 0 <= k < |groups| ==>
      && From(children, groups[k].nodes, low)
      && NodeOf(spans, children, groups[k], low) in Level(spans, children, groups, low)
  {
    if groups != [] {
      var front, g := groups[..|groups|-1], groups[|groups|-1];
      LevelNamed(spans, children, front, low, name, category);
      NodeNamed(spans, children, g, low);
      NamedSnoc(Level(spans, children, front, low), NodeOf(spans, children, g, low), name, category);
      forall k | 0 <= k < |groups|
        ensures From(children, groups[k].nodes, low)
        ensures NodeOf(spans, children, groups[k], low) in Level(spans, children, groups, low)
      {
        if k < |front| { assert groups[k] == front[k]; }
      }
      hide NodeOf, Named;
    }
  }

  /** The node a level has for a key: so many spans that took so long, above the tree of all their children, with the
      time those leave over as its own. */
  ghost predicate NodeFor(spans: seq<Span>, children: seq<seq<nat>>, nodes: seq<nat>, low: nat, name: string,
        category: string, t: CtNode)
    requires LinksOk(children) && |spans| == |children| && From(children, nodes, low) && low < |children|
  {
    && t.name == name && t.category == category
    && t.count == KeyCount(spans, nodes, name, category) && t.total == KeyTime(spans, nodes, name, category)
    && t.self == (if t.total > TotalOf(t.children) then t.total - TotalOf(t.children) else 0)
    && var kids := AllChildren(children, Having(spans, nodes, name, category));
       From(children, kids, low + 1) && t.children == SortDesc(Aggregate(spans, children, kids, low + 1))
  }

  /** A level has exactly one node for every name and category some of its spans have, none for any other, and that
      node counts and times exactly those spans. */
  lemma NodePerKey(spans: seq<Span>, children: seq<seq<nat>>, nodes: seq<nat>, low: nat, name: string, category: string)
    requires LinksOk(children) && |spans| == |children| && From(children, nodes, low) && low < |children|
    ensures var ts, n := Aggregate(spans, children, nodes, low), KeyCount(spans, nodes, name, category);
      && Named(ts, name, category) == (if n > 0 then 1 else 0)
      && (n > 0 ==> exists t :: t in ts && NodeFor(spans, children, nodes, low, name, category, t))
  {
    if nodes == [] {
      assert Aggregate(spans, children, nodes, low) == [];
    } else {
      GroupedByKey(spans, nodes, name, category);
      HavingCounts(spans, nodes, name, category);
      GroupedFrom(spans, children, nodes, low);
      LevelPerKey(spans, children, nodes, Grouped(spans, nodes), low, name, category);
    }
  }

  lemma SortedLevel(spans: seq<Span>, children: seq<seq<nat>>, nodes: seq<nat>, low: nat)
    requires LinksOk(children) && |spans| == |children| && From(children, nodes, low) && low < |children| && nodes != []
    ensures GroupsFrom(children, Grouped(spans, nodes), low)
    ensures Aggregate(spans, children, nodes, low) == SortDesc(Level(spans, children, Grouped(spans, nodes), low))
  {
    GroupedFrom(spans, children, nodes, low);
    assert nodes[0] >= low;
    hide Level, SortDesc, Grouped;
  }

  lemma LevelPerKey(spans: seq<Span>, children: seq<seq<nat>>, nodes: seq<nat>, groups: seq<Group>, low: nat,
        name: string, category: string)
    requires LinksOk(children) && |spans| == |children| && From(children, nodes, low) && low < |children| && nodes != []
    requires groups == Grouped(spans, nodes) && GroupsFrom(children, groups, low) && OncePerKey(groups)
    requires var having := Having(spans, nodes, name, category);
      && GroupOf(groups, name, category) == having
      && |having| == KeyCount(spans, nodes, name, category)
      && DurationSum(spans, having) == KeyTime(spans, nodes, name, category)
    ensures var ts, n := Aggregate(spans, children, nodes, low), KeyCount(spans, nodes, name, category);
      && Named(ts, name, category) == (if n > 0 then 1 else 0)
      && (n > 0 ==> exists t :: t in ts && NodeFor(spans, children, nodes, low, name, category, t))
  {
    hide *;
    SortedLevel(spans, children, nodes, low);
    var level := Level(spans, children, groups, low);
    LevelNamed(spans, children, groups, low, name, category);
    SortNamed(level, name, category);
    SortedByTotal(level);
    AllNonEmpty(groups);
    var k := FindGroup(groups, name, category);
    if k < |groups| {
      OneGroupNamed(groups, name, category, k);
      KeyNode(spans, children, nodes, groups[k], low);
      assert NodeOf(spans, children, groups[k], low) in SortDesc(level);
    } else {
      NoGroupNamed(groups, name, category);
    }
  }

  lemma AllNonEmpty(groups: seq<Group>)
    requires OncePerKey(groups)
    ensures forall g :: 0 <= g < |groups| ==> groups[g].nodes != []
  {
  }

  /** The node of a key's group is the node for the key. */
  lemma KeyNode(spans: seq<Span>, children: seq<seq<nat>>, nodes: seq<nat>, g: Group, low: nat)
    requires LinksOk(children) && |spans| == |children| && From(children, nodes, low) && low < |children|
    requires From(children, g.nodes, low) && g.nodes == Having(spans, nodes, g.name, g.category)
    requires |g.nodes| == KeyCount(spans, nodes, g.name, g.category)
    requires DurationSum(spans, g.nodes) == KeyTime(spans, nodes, g.name, g.category)
    ensures NodeFor(spans, children, nodes, low, g.name, g.category, NodeOf(spans, children, g, low))
  {
    NodeNamed(spans, children, g, low);
    hide SortDesc, Having, Aggregate, LinksOk, KeyCount, KeyTime, TotalOf, NodeOf, AllChildren, From, DurationSum;
  }
}
