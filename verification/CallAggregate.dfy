/** Aggregating a raw call forest: `_ct_aggregate` of src/analysis/call_tree.py. */
module CallAggregate {
  import opened ForestLists
  import opened CallForest

  datatype CtNode = CtNode(name: string, category: string, total: int, count: nat, self: int, children: seq<CtNode>)

  /** Child lists that only point forward. */
  ghost predicate LinksOk(children: seq<seq<nat>>) {
    forall p, k :: 0 <= p < |children| && 0 <= k < |children[p]| ==> p < children[p][k] < |children|
  }

  ghost predicate From(children: seq<seq<nat>>, nodes: seq<nat>, low: nat) {
    forall k :: 0 <= k < |nodes| ==> low <= nodes[k] < |children|
  }

  function Duration(s: Span): int {
    s.end - s.start
  }

  // ---- groups ----

  /** The nodes of one (name, category), keys in the order they first appear. */
  datatype Group = Group(name: string, category: string, nodes: seq<nat>)

  function AddTo(groups: seq<Group>, name: string, category: string, i: nat): seq<Group> {
    if groups == [] then [Group(name, category, [i])]
    else if groups[0].name == name && groups[0].category == category
      then [groups[0].(nodes := groups[0].nodes + [i])] + groups[1..]
    else [groups[0]] + AddTo(groups[1..], name, category, i)
  }

  function Grouped(spans: seq<Span>, nodes: seq<nat>): seq<Group> {
    if nodes == [] then [] else
    var i := nodes[|nodes|-1];
    if i < |spans| then AddTo(Grouped(spans, nodes[..|nodes|-1]), spans[i].name, spans[i].category, i)
    else Grouped(spans, nodes[..|nodes|-1])
  }

  ghost predicate GroupsFrom(children: seq<seq<nat>>, groups: seq<Group>, low: nat) {
    forall g :: 0 <= g < |groups| ==> From(children, groups[g].nodes, low)
  }

  lemma {:induction false} AddToFrom(children: seq<seq<nat>>, groups: seq<Group>, name: string, category: string,
        i: nat, low: nat)
    requires GroupsFrom(children, groups, low) && low <= i < |children|
    ensures GroupsFrom(children, AddTo(groups, name, category, i), low)
  {
    if groups != [] { AddToFrom(children, groups[1..], name, category, i, low); }
  }

  lemma {:induction false} GroupedFrom(spans: seq<Span>, children: seq<seq<nat>>, nodes: seq<nat>, low: nat)
    requires From(children, nodes, low) && |spans| == |children|
    ensures GroupsFrom(children, Grouped(spans, nodes), low)
  {
    if nodes != [] {
      GroupedFrom(spans, children, nodes[..|nodes|-1], low);
      var i := nodes[|nodes|-1];
      AddToFrom(children, Grouped(spans, nodes[..|nodes|-1]), spans[i].name, spans[i].category, i, low);
    }
  }

  /** The children of all the nodes, one list after the other. */
  function AllChildren(children: seq<seq<nat>>, nodes: seq<nat>): seq<nat> {
    if nodes == [] then [] else
    var i := nodes[|nodes|-1];
    if i < |children| then AllChildren(children, nodes[..|nodes|-1]) + children[i]
    else AllChildren(children, nodes[..|nodes|-1])
  }

  lemma {:induction false} AllChildrenFrom(children: seq<seq<nat>>, nodes: seq<nat>, low: nat)
    requires LinksOk(children) && From(children, nodes, low)
    ensures From(children, AllChildren(children, nodes), low + 1)
  {
    if nodes != [] { AllChildrenFrom(children, nodes[..|nodes|-1], low); }
  }

  // ---- the tree ----

  function TotalOf(ts: seq<CtNode>): int {
    if ts == [] then 0 else TotalOf(ts[..|ts|-1]) + ts[|ts|-1].total
  }

  function InsertDesc(ts: seq<CtNode>, t: CtNode): seq<CtNode> {
    if ts != [] && ts[|ts|-1].total < t.total then InsertDesc(ts[..|ts|-1], t) + [ts[|ts|-1]] else ts + [t]
  }

  /** Sorted by falling total; equal totals keep their order. */
  function SortDesc(ts: seq<CtNode>): seq<CtNode> {
    if ts == [] then [] else InsertDesc(SortDesc(ts[..|ts|-1]), ts[|ts|-1])
  }

  function DurationSum(spans: seq<Span>, nodes: seq<nat>): int {
    if nodes == [] then 0 else
    DurationSum(spans, nodes[..|nodes|-1]) + if nodes[|nodes|-1] < |spans| then Duration(spans[nodes[|nodes|-1]]) else 0
  }

  /** It ends because children come after their parents: the lowest node number rises at every level. */
  function Aggregate(spans: seq<Span>, children: seq<seq<nat>>, nodes: seq<nat>, low: nat): seq<CtNode>
    requires LinksOk(children) && |spans| == |children| && From(children, nodes, low) && low <= |children|
    decreases |children| - low, |nodes| + 1
  {
    GroupedFrom(spans, children, nodes, low);
    if nodes == [] then [] else assert nodes[0] >= low; SortDesc(Level(spans, children, Grouped(spans, nodes), low))
  }

  function Level(spans: seq<Span>, children: seq<seq<nat>>, groups: seq<Group>, low: nat): seq<CtNode>
    requires LinksOk(children) && |spans| == |children| && GroupsFrom(children, groups, low) && low < |children|
    decreases |children| - low, 0, |groups|
  {
    if groups == [] then [] else
    Level(spans, children, groups[..|groups|-1], low) + [NodeOf(spans, children, groups[|groups|-1], low)]
  }

  /** One node of a level; its own time never goes below zero. */
  function NodeOf(spans: seq<Span>, children: seq<seq<nat>>, g: Group, low: nat): CtNode
    requires LinksOk(children) && |spans| == |children| && From(children, g.nodes, low) && low < |children|
    decreases |children| - low, 0, 0
  {
    AllChildrenFrom(children, g.nodes, low);
    var kids := Aggregate(spans, children, AllChildren(children, g.nodes), low + 1);
    var total := DurationSum(spans, g.nodes);
    var own := total - TotalOf(kids);
    CtNode(g.name, g.category, total, |g.nodes|, if own > 0 then own else 0, SortDesc(kids))
  }

  // ---- what the tree adds up to ----

  /** A count or a time, per span and per node. */
  function SpanMetric(spans: seq<Span>, i: nat, time: bool): int
    requires i < |spans|
  {
    if time then Duration(spans[i]) else 1
  }

  function NodeMetric(t: CtNode, time: bool): int {
    if time then t.total else t.count
  }

  /** The metric summed over a whole tree. */
  function TreeSum(ts: seq<CtNode>, time: bool): int {
    if ts == [] then 0
    else TreeSum(ts[..|ts|-1], time) + NodeMetric(ts[|ts|-1], time) + TreeSum(ts[|ts|-1].children, time)
  }

  /** The metric of a span and of everything below it in the forest. */
  function Below(spans: seq<Span>, children: seq<seq<nat>>, i: nat, time: bool): int
    requires LinksOk(children) && |spans| == |children| && i < |children|
    decreases |children| - i, 0
  {
    SpanMetric(spans, i, time) + BelowAll(spans, children, children[i], |children[i]|, i + 1, time)
  }

  /** The same over the first k of a list of nodes. */
  function BelowAll(spans: seq<Span>, children: seq<seq<nat>>, nodes: seq<nat>, k: nat, low: nat, time: bool): int
    requires LinksOk(children) && |spans| == |children| && k <= |nodes| && From(children, nodes, low)
    requires low <= |children|
    decreases |children| - low, 1, k
  {
    if k == 0 then 0 else BelowAll(spans, children, nodes, k - 1, low, time) + Below(spans, children, nodes[k-1], time)
  }

  /** Weights that give each node the metric of itself and everything below it. */
  ghost predicate AreBelow(spans: seq<Span>, children: seq<seq<nat>>, w: seq<int>, time: bool) {
    |w| == |spans| == |children|
      && forall i :: 0 <= i < |w| ==> w[i] == SpanMetric(spans, i, time) + SumOver(w, children[i])
  }

  function Belows(spans: seq<Span>, children: seq<seq<nat>>, time: bool, n: nat): (w: seq<int>)
    requires LinksOk(children) && |spans| == |children| && n <= |spans|
    ensures |w| == n && forall i :: 0 <= i < n ==> w[i] == Below(spans, children, i, time)
  {
    if n == 0 then [] else Belows(spans, children, time, n - 1) + [Below(spans, children, n - 1, time)]
  }

  lemma {:induction false} BelowAllIsSum(spans: seq<Span>, children: seq<seq<nat>>, w: seq<int>, nodes: seq<nat>,
        k: nat, low: nat, time: bool)
    requires LinksOk(children) && |spans| == |children| == |w| && k <= |nodes| && From(children, nodes, low)
    requires low <= |children|
    requires forall i :: 0 <= i < |w| ==> w[i] == Below(spans, children, i, time)
    ensures BelowAll(spans, children, nodes, k, low, time) == SumOver(w, nodes[..k])
  {
    if k > 0 {
      BelowAllIsSum(spans, children, w, nodes, k - 1, low, time);
      assert nodes[..k][..k-1] == nodes[..k-1];
    }
  }

  lemma WeightsExist(spans: seq<Span>, children: seq<seq<nat>>, time: bool) returns (w: seq<int>)
    requires LinksOk(children) && |spans| == |children|
    ensures AreBelow(spans, children, w, time)
  {
    w := Belows(spans, children, time, |spans|);
    forall i | 0 <= i < |w| ensures w[i] == SpanMetric(spans, i, time) + SumOver(w, children[i]) {
      BelowAllIsSum(spans, children, w, children[i], |children[i]|, i + 1, time);
      assert children[i][..|children[i]|] == children[i];
    }
  }

  // ---- sorting and grouping change no sum ----

  lemma {:induction false} InsertSum(ts: seq<CtNode>, t: CtNode, time: bool)
    ensures TreeSum(InsertDesc(ts, t), time) == TreeSum(ts, time) + NodeMetric(t, time) + TreeSum(t.children, time)
  {
    if ts != [] && ts[|ts|-1].total < t.total {
      var r := InsertDesc(ts[..|ts|-1], t);
      InsertSum(ts[..|ts|-1], t, time);
      assert (r + [ts[|ts|-1]])[..|r|] == r;
    } else {
      assert (ts + [t])[..|ts|] == ts;
    }
  }

  lemma {:induction false} SortSum(ts: seq<CtNode>, time: bool)
    ensures TreeSum(SortDesc(ts), time) == TreeSum(ts, time)
  {
    if ts != [] {
      SortSum(ts[..|ts|-1], time);
      InsertSum(SortDesc(ts[..|ts|-1]), ts[|ts|-1], time);
    }
  }

  function GroupSum(w: seq<int>, groups: seq<Group>): int {
    if groups == [] then 0 else GroupSum(w, groups[..|groups|-1]) + SumOver(w, groups[|groups|-1].nodes)
  }

  lemma {:induction false} GroupSumFront(w: seq<int>, groups: seq<Group>)
    requires groups != []
    ensures GroupSum(w, groups) == SumOver(w, groups[0].nodes) + GroupSum(w, groups[1..])
  {
    if |groups| == 1 {
      assert groups[..0] == [] && groups[1..] == [];
    } else {
      GroupSumFront(w, groups[..|groups|-1]);
      assert groups[1..][..|groups|-2] == groups[..|groups|-1][1..];
    }
  }

  lemma {:induction false} AddToSum(w: seq<int>, groups: seq<Group>, name: string, category: string, i: nat)
    requires i < |w|
    ensures GroupSum(w, AddTo(groups, name, category, i)) == GroupSum(w, groups) + w[i]
  {
    var added := AddTo(groups, name, category, i);
    if groups == [] {
      SumOverSnoc(w, [], i);
      assert added[..0] == [] && [] + [i] == [i];
    } else {
      GroupSumFront(w, groups);
      GroupSumFront(w, added);
      if groups[0].name == name && groups[0].category == category {
        SumOverSnoc(w, groups[0].nodes, i);
        assert added[1..] == groups[1..];
      } else {
        AddToSum(w, groups[1..], name, category, i);
        assert added[1..] == AddTo(groups[1..], name, category, i);
      }
    }
  }

  lemma {:induction false} GroupedSum(spans: seq<Span>, w: seq<int>, nodes: seq<nat>)
    requires |w| == |spans| && forall k :: 0 <= k < |nodes| ==> nodes[k] < |w|
    ensures GroupSum(w, Grouped(spans, nodes)) == SumOver(w, nodes)
  {
    if nodes != [] {
      var i := nodes[|nodes|-1];
      GroupedSum(spans, w, nodes[..|nodes|-1]);
      AddToSum(w, Grouped(spans, nodes[..|nodes|-1]), spans[i].name, spans[i].category, i);
    }
  }

  // ---- one node per name and category ----

  function Having(spans: seq<Span>, nodes: seq<nat>, name: string, category: string): seq<nat> {
    if nodes == [] then [] else
    var i := nodes[|nodes|-1];
    if i < |spans| && spans[i].name == name && spans[i].category == category
    then Having(spans, nodes[..|nodes|-1], name, category) + [i] else Having(spans, nodes[..|nodes|-1], name, category)
  }

  /** The nodes of the group of a key, if there is one. */
  function GroupOf(groups: seq<Group>, name: string, category: string): seq<nat> {
    if groups == [] then []
    else if groups[0].name == name && groups[0].category == category then groups[0].nodes
    else GroupOf(groups[1..], name, category)
  }

  ghost predicate OncePerKey(groups: seq<Group>) {
    && (forall g, h :: 0 <= g < h < |groups| ==>
      groups[g].name != groups[h].name || groups[g].category != groups[h].category)
    && (forall g :: 0 <= g < |groups| ==> groups[g].nodes != [])
  }

  /** A group of these has the key. */
  ghost predicate HasKey(groups: seq<Group>, name: string, category: string) {
    exists g :: 0 <= g < |groups| && groups[g].name == name && groups[g].category == category
  }

  lemma {:induction false} AddToKnown(groups: seq<Group>, name: string, category: string, i: nat, n: string, c: string)
    ensures HasKey(AddTo(groups, name, category, i), n, c) ==> (n == name && c == category) || HasKey(groups, n, c)
  {
    var added := AddTo(groups, name, category, i);
    if groups != [] && HasKey(added, n, c) {
      var g :| 0 <= g < |added| && added[g].name == n && added[g].category == c;
      if g > 0 && !(groups[0].name == name && groups[0].category == category) {
        AddToKnown(groups[1..], name, category, i, n, c);
        assert added[1..][g-1] == added[g];
        if HasKey(groups[1..], n, c) {
          var h :| 0 <= h < |groups[1..]| && groups[1..][h].name == n && groups[1..][h].category == c;
          assert groups[h + 1] == groups[1..][h];
        }
      }
    }
  }

  lemma OncePerKeyCons(first: Group, rest: seq<Group>)
    ensures OncePerKey([first] + rest)
      <==> OncePerKey(rest) && first.nodes != [] && !HasKey(rest, first.name, first.category)
  {
    var all := [first] + rest;
    if OncePerKey(all) {
      forall g, h | 0 <= g < h < |rest| ensures rest[g].name != rest[h].name || rest[g].category != rest[h].category {
        assert all[g + 1] == rest[g] && all[h + 1] == rest[h];
      }
      forall g | 0 <= g < |rest|
        ensures rest[g].nodes != [] && (rest[g].name != first.name || rest[g].category != first.category)
      {
        assert all[g + 1] == rest[g] && all[0] == first;
      }
    }
  }

  lemma {:induction false} AddToOnce(groups: seq<Group>, name: string, category: string, i: nat)
    requires OncePerKey(groups)
    ensures OncePerKey(AddTo(groups, name, category, i))
  {
    if groups == [] {
      OncePerKeyCons(Group(name, category, [i]), []);
      assert [Group(name, category, [i])] + [] == [Group(name, category, [i])];
    } else {
      var first, rest := groups[0], groups[1..];
      assert groups == [first] + rest;
      OncePerKeyCons(first, rest);
      if first.name == name && first.category == category {
        OncePerKeyCons(first.(nodes := first.nodes + [i]), rest);
      } else {
        AddToOnce(rest, name, category, i);
        AddToKnown(rest, name, category, i, first.name, first.category);
        hide OncePerKey, HasKey;
        OncePerKeyCons(first, AddTo(rest, name, category, i));
      }
    }
  }

  lemma {:induction false} AddToKeys(groups: seq<Group>, name: string, category: string, i: nat, n: string, c: string)
    requires OncePerKey(groups)
    ensures OncePerKey(AddTo(groups, name, category, i))
    ensures GroupOf(AddTo(groups, name, category, i), n, c)
         == if n == name && c == category then GroupOf(groups, n, c) + [i] else GroupOf(groups, n, c)
  {
    AddToOnce(groups, name, category, i);
    AddToGroup(groups, name, category, i, n, c);
  }

  lemma {:induction false} AddToGroup(groups: seq<Group>, name: string, category: string, i: nat, n: string, c: string)
    ensures GroupOf(AddTo(groups, name, category, i), n, c)
         == if n == name && c == category then GroupOf(groups, n, c) + [i] else GroupOf(groups, n, c)
  {
    if groups != [] && !(groups[0].name == name && groups[0].category == category) {
      AddToGroup(groups[1..], name, category, i, n, c);
      assert AddTo(groups, name, category, i)[1..] == AddTo(groups[1..], name, category, i);
    } else if groups != [] {
      assert AddTo(groups, name, category, i)[1..] == groups[1..];
    }
  }

  /** Each (name, category) makes one group, of exactly the nodes that have it, in order. */
  lemma {:induction false} GroupedByKey(spans: seq<Span>, nodes: seq<nat>, name: string, category: string)
    ensures OncePerKey(Grouped(spans, nodes))
    ensures GroupOf(Grouped(spans, nodes), name, category) == Having(spans, nodes, name, category)
  {
    if nodes != [] {
      var i := nodes[|nodes|-1];
      GroupedByKey(spans, nodes[..|nodes|-1], name, category);
      if i < |spans| {
        AddToKeys(Grouped(spans, nodes[..|nodes|-1]), spans[i].name, spans[i].category, i, name, category);
      }
    }
  }

  ghost predicate Falling(ts: seq<CtNode>) {
    forall a, b :: 0 <= a < b < |ts| ==> ts[a].total >= ts[b].total
  }

  lemma {:induction false} InsertMembers(ts: seq<CtNode>, t: CtNode)
    ensures |InsertDesc(ts, t)| == |ts| + 1 && forall x :: x in InsertDesc(ts, t) <==> x in ts || x == t
  {
    if ts != [] && ts[|ts|-1].total < t.total {
      InsertMembers(ts[..|ts|-1], t);
      assert forall x :: x in ts <==> x in ts[..|ts|-1] || x == ts[|ts|-1];
    }
  }

  lemma {:induction false} InsertFalling(ts: seq<CtNode>, t: CtNode)
    requires Falling(ts)
    ensures Falling(InsertDesc(ts, t))
  {
    if ts != [] && ts[|ts|-1].total < t.total {
      var front := ts[..|ts|-1];
      InsertFalling(front, t);
      InsertMembers(front, t);
      var out := InsertDesc(front, t);
      forall a | 0 <= a < |out| ensures out[a].total >= ts[|ts|-1].total {
        assert out[a] in out;
      }
    }
  }

  /** Siblings come by falling total, and none is lost. */
  lemma {:induction false} SortedByTotal(ts: seq<CtNode>)
    ensures Falling(SortDesc(ts)) && |SortDesc(ts)| == |ts| && forall x :: x in SortDesc(ts) <==> x in ts
  {
    if ts != [] {
      SortedByTotal(ts[..|ts|-1]);
      InsertFalling(SortDesc(ts[..|ts|-1]), ts[|ts|-1]);
      InsertMembers(SortDesc(ts[..|ts|-1]), ts[|ts|-1]);
      assert forall x :: x in ts <==> x in ts[..|ts|-1] || x == ts[|ts|-1];
    }
  }

  // ---- the theorem ----

  function MetricSum(spans: seq<Span>, nodes: seq<nat>, time: bool): int {
    if time then DurationSum(spans, nodes) else |nodes|
  }

  /** A group's own metric and that of all its children is that of its members and everything below them. */
  lemma {:induction false} MembersSum(spans: seq<Span>, children: seq<seq<nat>>, w: seq<int>, nodes: seq<nat>,
        time: bool)
    requires AreBelow(spans, children, w, time) && forall k :: 0 <= k < |nodes| ==> nodes[k] < |w|
    ensures SumOver(w, nodes) == MetricSum(spans, nodes, time) + SumOver(w, AllChildren(children, nodes))
  {
    if nodes != [] {
      var i := nodes[|nodes|-1];
      MembersSum(spans, children, w, nodes[..|nodes|-1], time);
      SumOverConcat(w, AllChildren(children, nodes[..|nodes|-1]), children[i]);
    }
  }

  lemma {:induction false} AggregateSum(spans: seq<Span>, children: seq<seq<nat>>, w: seq<int>, nodes: seq<nat>,
        low: nat, time: bool)
    requires LinksOk(children) && AreBelow(spans, children, w, time) && From(children, nodes, low) && low <= |children|
    ensures TreeSum(Aggregate(spans, children, nodes, low), time) == SumOver(w, nodes)
    decreases |children| - low, |nodes| + 1
  {
    if nodes != [] {
      assert nodes[0] >= low;
      GroupedFrom(spans, children, nodes, low);
      LevelSum(spans, children, w, Grouped(spans, nodes), low, time);
      SortSum(Level(spans, children, Grouped(spans, nodes), low), time);
      GroupedSum(spans, w, nodes);
      hide Level, SortDesc, TreeSum, SumOver, Grouped;
    }
  }

  lemma {:induction false} LevelSum(spans: seq<Span>, children: seq<seq<nat>>, w: seq<int>, groups: seq<Group>,
        low: nat, time: bool)
    requires LinksOk(children) && AreBelow(spans, children, w, time) && GroupsFrom(children, groups, low)
    requires low < |children|
    ensures TreeSum(Level(spans, children, groups, low), time) == GroupSum(w, groups)
    decreases |children| - low, 0, |groups|
  {
    if groups != [] {
      var front, g := groups[..|groups|-1], groups[|groups|-1];
      LevelSum(spans, children, w, front, low, time);
      NodeSum(spans, children, w, g, low, time);
      TreeSumSnoc(Level(spans, children, front, low), NodeOf(spans, children, g, low), time);
    }
  }

  lemma TreeSumSnoc(ts: seq<CtNode>, t: CtNode, time: bool)
    ensures TreeSum(ts + [t], time) == TreeSum(ts, time) + NodeMetric(t, time) + TreeSum(t.children, time)
  {
    assert (ts + [t])[..|ts|] == ts;
  }

  lemma {:induction false} NodeSum(spans: seq<Span>, children: seq<seq<nat>>, w: seq<int>, g: Group, low: nat,
        time: bool)
    requires LinksOk(children) && AreBelow(spans, children, w, time) && From(children, g.nodes, low) && low < |children|
    ensures var t := NodeOf(spans, children, g, low);
      NodeMetric(t, time) + TreeSum(t.children, time) == SumOver(w, g.nodes)
    decreases |children| - low, 0, 0
  {
    hide *;
    AllChildrenFrom(children, g.nodes, low);
    var inner := AllChildren(children, g.nodes);
    BelowSizes(spans, children, w, time, g.nodes, low);
    AggregateSum(spans, children, w, inner, low + 1, time);
    SortSum(Aggregate(spans, children, inner, low + 1), time);
    MembersSum(spans, children, w, g.nodes, time);
    NodeParts(spans, children, g, low, time);
  }

  lemma BelowSizes(spans: seq<Span>, children: seq<seq<nat>>, w: seq<int>, time: bool, nodes: seq<nat>, low: nat)
    requires AreBelow(spans, children, w, time) && From(children, nodes, low)
    ensures |spans| == |children| == |w| && forall k :: 0 <= k < |nodes| ==> nodes[k] < |w|
  {
  }

  lemma NodeParts(spans: seq<Span>, children: seq<seq<nat>>, g: Group, low: nat, time: bool)
    requires LinksOk(children) && |spans| == |children| && From(children, g.nodes, low) && low < |children|
    ensures From(children, AllChildren(children, g.nodes), low + 1)
    ensures var t := NodeOf(spans, children, g, low);
      && t.children == SortDesc(Aggregate(spans, children, AllChildren(children, g.nodes), low + 1))
      && NodeMetric(t, time) == MetricSum(spans, g.nodes, time)
  {
    AllChildrenFrom(children, g.nodes, low);
  }

  /** The metric of each span by itself. */
  function Metrics(spans: seq<Span>, time: bool, n: nat): (ms: seq<int>)
    requires n <= |spans|
    ensures |ms| == n && forall i :: 0 <= i < n ==> ms[i] == SpanMetric(spans, i, time)
  {
    if n == 0 then [] else Metrics(spans, time, n - 1) + [SpanMetric(spans, n - 1, time)]
  }

  lemma {:induction false} WeightsTelescope(spans: seq<Span>, children: seq<seq<nat>>, w: seq<int>, time: bool, n: nat)
    requires AreBelow(spans, children, w, time) && n <= |w|
    ensures SumAll(w, n) == SumAll(Metrics(spans, time, |spans|), n) + SumChildren(w, children, n)
  {
    if n > 0 { WeightsTelescope(spans, children, w, time, n - 1); }
  }

  /** The aggregated tree of a thread counts every span once and holds exactly the spans' time, level by level. */
  lemma TreeHoldsEverySpan(spans: seq<Span>, children: seq<seq<nat>>, roots: seq<nat>, time: bool)
    requires IsForest(spans, children, roots)
    ensures LinksOk(children) && From(children, roots, 0)
    ensures TreeSum(Aggregate(spans, children, roots, 0), time) == SumAll(Metrics(spans, time, |spans|), |spans|)
  {
    forall p, k | 0 <= p < |children| && 0 <= k < |children[p]| ensures p < children[p][k] < |children| {
      LinksForward(spans, children, roots, p, k);
    }
    RootsOfMeans(Explicits(spans, |spans|), Temporals(spans, |spans|), |spans|);
    assert From(children, roots, 0);
    var w := WeightsExist(spans, children, time);
    AggregateSum(spans, children, w, roots, 0, time);
    OneNodePerSpan(spans, children, roots, w);
    WeightsTelescope(spans, children, w, time, |spans|);
  }
}
