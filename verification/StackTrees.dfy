/** The stack-built call tree and the calling-context tree, each filled in place one sample at a time. */
module StackTrees {
  import opened StackPaths

  function At(m: map<Path, int>, p: Path): int {
    if p in m then m[p] else 0
  }

  /** After the first n samples, and the first i frames of the next one. */
  ghost predicate Walked(ss: seq<Sample>, n: nat, full: Path, duration: int, i: nat, total: map<Path, int>)
    requires n <= |ss| && i <= |full|
  {
    forall p ::
      && (p in total <==> p != [] && (Reached(ss, n, p) || p <= full[..i]))
      && (p in total ==> total[p] == Through(ss, n, p) + if p <= full[..i] then duration else 0)
  }

  lemma {:induction false} NotReached(ss: seq<Sample>, n: nat, p: Path)
    requires n <= |ss| && !Reached(ss, n, p)
    ensures Through(ss, n, p) == 0 && Ending(ss, n, p) == 0 && EndCount(ss, n, p) == 0
  {
    if n > 0 {
      forall i | 0 <= i < n - 1 ensures !(p <= Full(ss[i])) {}
      NotReached(ss, n - 1, p);
    }
  }

  lemma PrefixStep(full: Path, i: nat, p: Path)
    requires i < |full|
    ensures p <= full[..i+1] <==> p <= full[..i] || p == full[..i+1]
  {
    if p <= full[..i+1] && |p| <= i { assert p == full[..|p|] && full[..i][..|p|] == full[..|p|]; }
    if p <= full[..i] { assert full[..i+1][..|p|] == full[..i][..|p|] == p; }
  }

  lemma WalkStep(ss: seq<Sample>, n: nat, full: Path, duration: int, i: nat, total: map<Path, int>)
    requires n <= |ss| && i < |full| && Walked(ss, n, full, duration, i, total)
    ensures Walked(ss, n, full, duration, i + 1, total[full[..i+1] := At(total, full[..i+1]) + duration])
  {
    var q := full[..i+1];
    var total' := total[q := At(total, q) + duration];
    if q !in total { NotReached(ss, n, q); }
    forall p
      ensures p in total' <==> p != [] && (Reached(ss, n, p) || p <= full[..i+1])
      ensures p in total' ==> total'[p] == Through(ss, n, p) + if p <= full[..i+1] then duration else 0
    {
      PrefixStep(full, i, p);
      assert p in total <==> p != [] && (Reached(ss, n, p) || p <= full[..i]);
      if p == q { assert !(q <= full[..i]); }
    }
  }

  lemma ReachedStep(ss: seq<Sample>, n: nat, p: Path)
    requires n < |ss|
    ensures Reached(ss, n + 1, p) <==> Reached(ss, n, p) || p <= Full(ss[n])
  {
    if i :| 0 <= i < n + 1 && p <= Full(ss[i]) { if i < n { assert Reached(ss, n, p); } }
    if i :| 0 <= i < n && p <= Full(ss[i]) { assert 0 <= i < n + 1; }
    if p <= Full(ss[n]) { assert 0 <= n < n + 1; }
  }

  /** All frames of the sample done: the next sample's turn. */
  lemma WalkEnds(ss: seq<Sample>, n: nat, total: map<Path, int>, next: Path, duration: int)
    requires n < |ss| && Walked(ss, n, Full(ss[n]), ss[n].duration, |Full(ss[n])|, total)
    ensures Walked(ss, n + 1, next, duration, 0, total)
  {
    var full := Full(ss[n]);
    assert full[..|full|] == full && next[..0] == [];
    forall p
      ensures p in total <==> p != [] && (Reached(ss, n + 1, p) || p <= next[..0])
      ensures p in total ==> total[p] == Through(ss, n + 1, p) + if p <= next[..0] then duration else 0
    {
      ReachedStep(ss, n, p);
    }
  }

  ghost predicate Counted(ss: seq<Sample>, n: nat, count: map<Path, nat>)
    requires n <= |ss|
  {
    forall p :: (if p in count then count[p] else 0) == EndCount(ss, n, p)
  }

  lemma CountStep(ss: seq<Sample>, n: nat, count: map<Path, nat>)
    requires n < |ss| && Counted(ss, n, count)
    ensures var p := Full(ss[n]); Counted(ss, n + 1, count[p := (if p in count then count[p] else 0) + 1])
  {
  }

  class StackTree {
    var total: map<Path, int>
    var count: map<Path, nat>
    var kids: map<Path, seq<string>>

    /** What the tree holds after the first n samples. */
    ghost predicate Holds(ss: seq<Sample>, n: nat)
      requires n <= |ss|
      reads this
    {
      Walked(ss, n, [], 0, 0, total) && TreeOk(total.Keys, kids) && Counted(ss, n, count)
    }

    constructor ()
      ensures total == map[] && count == map[] && kids == map[]
    {
      total, count, kids := map[], map[], map[];
    }

    /** One level: the node of a frame below its parent, made if it is missing, takes the sample's time. */
    method Visit(parent: Path, frame: string, duration: int)
      requires TreeOk(total.Keys, kids)
      modifies this`total, this`kids
      ensures total == old(total)[parent + [frame] := At(old(total), parent + [frame]) + duration]
      ensures TreeOk(total.Keys, kids)
    {
      var p := parent + [frame];
      ghost var nodes := total.Keys;
      if p !in total {
        AddNode(nodes, kids, parent, frame);
        hide TreeOk;
        kids := kids[parent := KidsAt(kids, parent) + [frame]];
        total := total[p := 0];
        assert total.Keys == nodes + {p};
      }
      total := total[p := total[p] + duration];
      assert total.Keys == nodes + {p};
    }

    /** Walks one sample's path from the roots. */
    method Walk(ghost ss: seq<Sample>, ghost n: nat, full: Path, duration: int)
      requires n <= |ss| && Walked(ss, n, full, duration, 0, total) && TreeOk(total.Keys, kids)
      modifies this`total, this`kids
      ensures Walked(ss, n, full, duration, |full|, total) && TreeOk(total.Keys, kids)
    {
      hide *;
      var i := 0;
      while i < |full|
        invariant i <= |full| && Walked(ss, n, full, duration, i, total) && TreeOk(total.Keys, kids)
      {
        assert full[..i+1] == full[..i] + [full[i]];
        WalkStep(ss, n, full, duration, i, total);
        Visit(full[..i], full[i], duration);
        i := i + 1;
      }
    }

    method Add(ghost ss: seq<Sample>, ghost n: nat, s: Sample)
      requires n < |ss| && s == ss[n] && Holds(ss, n)
      modifies this
      ensures Holds(ss, n + 1)
    {
      var full := Full(s);
      Restart(ss, n, full, s.duration, total);
      CountStep(ss, n, count);
      hide *;
      Walk(ss, n, full, s.duration);
      count := count[full := (if full in count then count[full] else 0) + 1];
      WalkEnds(ss, n, total, [], 0);
    }

    /** Builds the tree of all samples. */
    method Build(ss: seq<Sample>)
      requires total == map[] && count == map[] && kids == map[]
      modifies this
      ensures Holds(ss, |ss|)
    {
      Empty(ss);
      var n := 0;
      assert total.Keys == {};
      assert Holds(ss, 0);
      while n < |ss|
        invariant n <= |ss| && Holds(ss, n)
      {
        hide Holds;
        Add(ss, n, ss[n]);
        n := n + 1;
      }
    }
  }

  lemma Empty(ss: seq<Sample>)
    ensures Walked(ss, 0, [], 0, 0, map[]) && TreeOk({}, map[]) && Counted(ss, 0, map[])
  {
  }

  lemma Restart(ss: seq<Sample>, n: nat, full: Path, duration: int, total: map<Path, int>)
    requires n <= |ss| && Walked(ss, n, [], 0, 0, total)
    ensures Walked(ss, n, full, duration, 0, total)
  {
    assert full[..0] == [];
  }

  // ---- the calling-context tree ----

  /** The root and every path some sample runs through, each with the time that ended there. */
  ghost predicate SelfTimes(ss: seq<Sample>, n: nat, selfNs: map<Path, int>)
    requires n <= |ss|
  {
    forall p :: (p in selfNs <==> p == [] || Reached(ss, n, p)) && (p in selfNs ==> selfNs[p] == Ending(ss, n, p))
  }

  /** The time of the first n samples and, once propagation has climbed from the leaf to frame k, of the next one. */
  ghost predicate Climbed(ss: seq<Sample>, n: nat, full: Path, duration: int, k: nat, incl: map<Path, int>)
    requires n <= |ss|
  {
    forall p :: At(incl, p) == Through(ss, n, p) + if k <= |p| && p <= full then duration else 0
  }

  lemma ClimbStep(ss: seq<Sample>, n: nat, full: Path, duration: int, k: nat, incl: map<Path, int>)
    requires n <= |ss| && 0 < k <= |full| + 1 && Climbed(ss, n, full, duration, k, incl)
    ensures Climbed(ss, n, full, duration, k - 1, incl[full[..k-1] := At(incl, full[..k-1]) + duration])
  {
    var q := full[..k-1];
    var incl' := incl[q := At(incl, q) + duration];
    forall p ensures At(incl', p) == Through(ss, n, p) + if k - 1 <= |p| && p <= full then duration else 0 {
      assert At(incl, p) == Through(ss, n, p) + if k <= |p| && p <= full then duration else 0;
      assert |p| == k - 1 && p <= full ==> p == full[..|p|];
    }
  }

  lemma ClimbEnds(ss: seq<Sample>, n: nat, incl: map<Path, int>)
    requires n < |ss| && Climbed(ss, n, Full(ss[n]), ss[n].duration, 0, incl)
    ensures Climbed(ss, n + 1, [], 0, 0, incl)
  {
  }

  /** The nodes on the way to a leaf. */
  ghost predicate Grown(ss: seq<Sample>, n: nat, full: Path, i: nat, selfNs: map<Path, int>)
    requires n <= |ss| && i <= |full|
  {
    forall p :: (p in selfNs <==> p == [] || Reached(ss, n, p) || p <= full[..i])
      && (p in selfNs ==> selfNs[p] == Ending(ss, n, p))
  }

  lemma GrowStep(ss: seq<Sample>, n: nat, full: Path, i: nat, selfNs: map<Path, int>)
    requires n <= |ss| && i < |full| && Grown(ss, n, full, i, selfNs)
    ensures Grown(ss, n, full, i + 1, if full[..i+1] in selfNs then selfNs else selfNs[full[..i+1] := 0])
  {
    var q := full[..i+1];
    if q !in selfNs { NotReached(ss, n, q); }
    forall p
      ensures (p in selfNs || p == q) <==> p == [] || Reached(ss, n, p) || p <= full[..i+1]
    {
      PrefixStep(full, i, p);
    }
  }

  lemma SelfEnds(ss: seq<Sample>, n: nat, selfNs: map<Path, int>)
    requires n < |ss| && Grown(ss, n, Full(ss[n]), |Full(ss[n])|, selfNs)
    ensures Full(ss[n]) in selfNs && SelfTimes(ss, n + 1, selfNs[Full(ss[n]) := selfNs[Full(ss[n])] + ss[n].duration])
  {
    var full := Full(ss[n]);
    assert full[..|full|] == full;
    forall p ensures p in selfNs || p == full <==> p == [] || Reached(ss, n + 1, p) {
      ReachedStep(ss, n, p);
    }
  }

  class ContextTree {
    var selfNs: map<Path, int>
    var incl: map<Path, int>

    ghost predicate Holds(ss: seq<Sample>, n: nat)
      requires n <= |ss|
      reads this
    {
      SelfTimes(ss, n, selfNs) && Climbed(ss, n, [], 0, 0, incl)
    }

    constructor ()
      ensures selfNs == map[[] := 0] && incl == map[]
    {
      selfNs, incl := map[[] := 0], map[];
    }

    /** get_or_add_child along the path. */
    method Grow(ghost ss: seq<Sample>, ghost n: nat, full: Path)
      requires n <= |ss| && SelfTimes(ss, n, selfNs)
      modifies this`selfNs
      ensures Grown(ss, n, full, |full|, selfNs)
    {
      var i := 0;
      assert full[..0] == [];
      assert Grown(ss, n, full, 0, selfNs);
      hide *;
      while i < |full|
        invariant i <= |full| && Grown(ss, n, full, i, selfNs)
      {
        GrowStep(ss, n, full, i, selfNs);
        if full[..i+1] !in selfNs {
          selfNs := selfNs[full[..i+1] := 0];
        }
        i := i + 1;
      }
    }

    /** The leaf's time goes to it and to all its ancestors, the root included. */
    method Climb(ghost ss: seq<Sample>, ghost n: nat, full: Path, duration: int)
      requires n <= |ss| && Climbed(ss, n, full, duration, |full| + 1, incl)
      modifies this`incl
      ensures Climbed(ss, n, full, duration, 0, incl)
    {
      hide *;
      var k: nat := |full| + 1;
      while k > 0
        invariant k <= |full| + 1 && Climbed(ss, n, full, duration, k, incl)
      {
        ClimbStep(ss, n, full, duration, k, incl);
        incl := incl[full[..k-1] := At(incl, full[..k-1]) + duration];
        k := k - 1;
      }
    }

    /** The leaf, made if need be, takes the sample's own time. */
    method AddSelf(ghost ss: seq<Sample>, ghost n: nat, full: Path, duration: int)
      requires n < |ss| && full == Full(ss[n]) && duration == ss[n].duration && SelfTimes(ss, n, selfNs)
      modifies this`selfNs
      ensures SelfTimes(ss, n + 1, selfNs)
    {
      hide *;
      Grow(ss, n, full);
      SelfEnds(ss, n, selfNs);
      selfNs := selfNs[full := selfNs[full] + duration];
    }

    method Add(ghost ss: seq<Sample>, ghost n: nat, s: Sample)
      requires n < |ss| && s == ss[n] && Holds(ss, n)
      modifies this
      ensures Holds(ss, n + 1)
    {
      hide SelfTimes, Climbed, Full;
      var full := Full(s);
      ClimbStarts(ss, n, full, s.duration, incl);
      AddSelf(ss, n, full, s.duration);
      Climb(ss, n, full, s.duration);
      ClimbEnds(ss, n, incl);
    }

    method Build(ss: seq<Sample>)
      requires selfNs == map[[] := 0] && incl == map[]
      modifies this
      ensures Holds(ss, |ss|)
    {
      var n := 0;
      NothingClimbed(ss);
      hide SelfTimes, Climbed;
      assert Holds(ss, 0);
      hide Holds;
      while n < |ss|
        invariant n <= |ss| && Holds(ss, n)
      {
        Add(ss, n, ss[n]);
        n := n + 1;
      }
    }
  }

  lemma NothingClimbed(ss: seq<Sample>)
    ensures SelfTimes(ss, 0, map[[] := 0]) && Climbed(ss, 0, [], 0, 0, map[])
  {
  }

  lemma ClimbStarts(ss: seq<Sample>, n: nat, full: Path, duration: int, incl: map<Path, int>)
    requires n <= |ss| && Climbed(ss, n, [], 0, 0, incl)
    ensures Climbed(ss, n, full, duration, |full| + 1, incl)
  {
  }

  // ---- what the two trees mean ----

  /** A stack node's total is its own leaf time plus its children's totals, so the floor in to_ctnode never acts. */
  lemma FloorNeverActs(ss: seq<Sample>, total: map<Path, int>, kids: map<Path, seq<string>>, p: Path)
    requires Walked(ss, |ss|, [], 0, 0, total) && TreeOk(total.Keys, kids) && NoNegative(ss) && p in total
    ensures total[p] - KidTotal(total, p, KidsAt(kids, p)) == Ending(ss, |ss|, p) >= 0
  {
    var ks := KidsAt(kids, p);
    forall i | 0 <= i < |ss| && p < Full(ss[i]) ensures Full(ss[i])[|p|] in ks {
      var f := Full(ss[i])[|p|];
      assert p + [f] <= Full(ss[i]);
      assert Reached(ss, |ss|, p + [f]);
      assert p + [f] in total.Keys;
    }
    assert KidsOf(ss, |ss|, p, ks);
    TimeSplits(ss, |ss|, p, ks);
    EndingNotNegative(ss, |ss|, p);
    KidTotalIs(ss, total, p, ks);
  }

  function KidTotal(total: map<Path, int>, p: Path, ks: seq<string>): int {
    if ks == [] then 0 else KidTotal(total, p, ks[..|ks|-1]) + At(total, p + [ks[|ks|-1]])
  }

  lemma {:induction false} KidTotalIs(ss: seq<Sample>, total: map<Path, int>, p: Path, ks: seq<string>)
    requires Walked(ss, |ss|, [], 0, 0, total)
    ensures KidTotal(total, p, ks) == ThroughKids(ss, |ss|, p, ks)
  {
    if ks != [] {
      var q := p + [ks[|ks|-1]];
      KidTotalIs(ss, total, p, ks[..|ks|-1]);
      if q !in total { NotReached(ss, |ss|, q); }
    }
  }

  /** For the same samples the two trees have the same nodes below the root, and every node's total in one is its
      inclusive time in the other. */
  lemma TotalsAreInclusive(ss: seq<Sample>, total: map<Path, int>, selfNs: map<Path, int>, incl: map<Path, int>,
        p: Path)
    requires Walked(ss, |ss|, [], 0, 0, total) && SelfTimes(ss, |ss|, selfNs)
    requires Climbed(ss, |ss|, [], 0, 0, incl) && p != []
    ensures p in total <==> p in selfNs
    ensures p in total ==> total[p] == At(incl, p)
  {
  }

  /** An inclusive time is the self time plus the children's inclusive times, whatever children are listed as long as
      each child is, once. */
  lemma InclusiveIsSubtree(ss: seq<Sample>, selfNs: map<Path, int>, incl: map<Path, int>, p: Path, ks: seq<string>)
    requires SelfTimes(ss, |ss|, selfNs) && Climbed(ss, |ss|, [], 0, 0, incl) && p in selfNs
    requires KidsOf(ss, |ss|, p, ks)
    ensures At(incl, p) == selfNs[p] + KidTotal(incl, p, ks)
  {
    TimeSplits(ss, |ss|, p, ks);
    KidInclusive(ss, incl, p, ks);
  }

  lemma {:induction false} KidInclusive(ss: seq<Sample>, incl: map<Path, int>, p: Path, ks: seq<string>)
    requires Climbed(ss, |ss|, [], 0, 0, incl)
    ensures KidTotal(incl, p, ks) == ThroughKids(ss, |ss|, p, ks)
  {
    if ks != [] { KidInclusive(ss, incl, p, ks[..|ks|-1]); }
  }

  /** The self times of the listed nodes at or below p. */
  function SelfBelow(ss: seq<Sample>, n: nat, p: Path, nodes: seq<Path>): int
    requires n <= |ss|
  {
    if nodes == [] then 0
    else SelfBelow(ss, n, p, nodes[..|nodes|-1]) + if p <= nodes[|nodes|-1] then Ending(ss, n, nodes[|nodes|-1]) else 0
  }

  lemma {:induction false} SelfBelowStep(ss: seq<Sample>, n: nat, p: Path, nodes: seq<Path>)
    requires 0 < n <= |ss| && forall a, b :: 0 <= a < b < |nodes| ==> nodes[a] != nodes[b]
    ensures SelfBelow(ss, n, p, nodes) == SelfBelow(ss, n - 1, p, nodes)
         + if p <= Full(ss[n-1]) && Full(ss[n-1]) in nodes then ss[n-1].duration else 0
  {
    if nodes != [] {
      var last, front := nodes[|nodes|-1], nodes[..|nodes|-1];
      SelfBelowStep(ss, n, p, front);
      assert forall q :: q in nodes <==> q in front || q == last;
      assert last !in front;
    }
  }

  lemma {:induction false} NoSelf(ss: seq<Sample>, p: Path, nodes: seq<Path>)
    ensures SelfBelow(ss, 0, p, nodes) == 0
  {
    if nodes != [] { NoSelf(ss, p, nodes[..|nodes|-1]); }
  }

  lemma {:induction false} SelfBelowIs(ss: seq<Sample>, n: nat, p: Path, nodes: seq<Path>)
    requires n <= |ss| && forall a, b :: 0 <= a < b < |nodes| ==> nodes[a] != nodes[b]
    requires forall i :: 0 <= i < n ==> Full(ss[i]) in nodes
    ensures SelfBelow(ss, n, p, nodes) == Through(ss, n, p)
  {
    if n == 0 {
      NoSelf(ss, p, nodes);
    } else {
      SelfBelowIs(ss, n - 1, p, nodes);
      SelfBelowStep(ss, n, p, nodes);
    }
  }

  /** A list of all nodes has every sample's leaf. */
  lemma LeavesListed(ss: seq<Sample>, selfNs: map<Path, int>, nodes: seq<Path>)
    requires SelfTimes(ss, |ss|, selfNs) && forall q :: q in nodes <==> q in selfNs
    ensures forall i :: 0 <= i < |ss| ==> Full(ss[i]) in nodes
  {
    forall i | 0 <= i < |ss| ensures Full(ss[i]) in nodes {
      assert Full(ss[i]) <= Full(ss[i]);
      assert Reached(ss, |ss|, Full(ss[i]));
    }
  }

  /** An inclusive time is the sum of the self times of the node's subtree, in whatever order the nodes are visited. */
  lemma SubtreeSelfTimes(ss: seq<Sample>, selfNs: map<Path, int>, incl: map<Path, int>, p: Path, nodes: seq<Path>)
    requires SelfTimes(ss, |ss|, selfNs) && Climbed(ss, |ss|, [], 0, 0, incl)
    requires (forall q :: q in nodes <==> q in selfNs) && forall a, b :: 0 <= a < b < |nodes| ==> nodes[a] != nodes[b]
    ensures At(incl, p) == SelfBelow(ss, |ss|, p, nodes) && forall q :: q in nodes ==> selfNs[q] == Ending(ss, |ss|, q)
  {
    LeavesListed(ss, selfNs, nodes);
    SelfBelowIs(ss, |ss|, p, nodes);
  }

  // ---- total_exclusive_ns ----

  const ROOT_FRAME: string := "[root]"

  /** The frame a node carries: the root has one too, and nothing keeps a sample from having the same. */
  function FrameOf(p: Path): string {
    if p == [] then ROOT_FRAME else p[|p|-1]
  }

  /** The self times of the nodes listed, without those whose frame is the root's. */
  function TotalExclusive(selfNs: map<Path, int>, nodes: seq<Path>): int {
    if nodes == [] then 0
    else
      var p := nodes[|nodes|-1];
      TotalExclusive(selfNs, nodes[..|nodes|-1]) + if FrameOf(p) != ROOT_FRAME then At(selfNs, p) else 0
  }

  /** The time of the first n samples that are, or are not, named like the root. */
  function TimeNamed(ss: seq<Sample>, n: nat, root: bool): int
    requires n <= |ss|
  {
    if n == 0 then 0
    else TimeNamed(ss, n - 1, root) + if (ss[n-1].name == ROOT_FRAME) == root then ss[n-1].duration else 0
  }

  /** The listed nodes that count, over the first n samples. */
  function EndingElsewhere(ss: seq<Sample>, n: nat, nodes: seq<Path>): int
    requires n <= |ss|
  {
    if nodes == [] then 0
    else
      var p := nodes[|nodes|-1];
      EndingElsewhere(ss, n, nodes[..|nodes|-1]) + if FrameOf(p) != ROOT_FRAME then Ending(ss, n, p) else 0
  }

  /** One more sample adds its time to the node it ends at, if that node counts. */
  lemma {:induction false} EndingElsewhereStep(ss: seq<Sample>, n: nat, nodes: seq<Path>)
    requires 0 < n <= |ss| && forall a, b :: 0 <= a < b < |nodes| ==> nodes[a] != nodes[b]
    ensures EndingElsewhere(ss, n, nodes) == EndingElsewhere(ss, n - 1, nodes)
         + if ss[n-1].name != ROOT_FRAME && Full(ss[n-1]) in nodes then ss[n-1].duration else 0
  {
    if nodes != [] {
      var last, front := nodes[|nodes|-1], nodes[..|nodes|-1];
      EndingElsewhereStep(ss, n, front);
      assert forall q :: q in nodes <==> q in front || q == last;
      assert last !in front;
      assert FrameOf(Full(ss[n-1])) == ss[n-1].name;
    }
  }

  lemma {:induction false} NothingEnds(ss: seq<Sample>, nodes: seq<Path>)
    ensures EndingElsewhere(ss, 0, nodes) == 0
  {
    if nodes != [] { NothingEnds(ss, nodes[..|nodes|-1]); }
  }

  lemma {:induction false} EndingElsewhereIs(ss: seq<Sample>, n: nat, nodes: seq<Path>)
    requires n <= |ss| && forall a, b :: 0 <= a < b < |nodes| ==> nodes[a] != nodes[b]
    requires forall i :: 0 <= i < n ==> Full(ss[i]) in nodes
    ensures EndingElsewhere(ss, n, nodes) == TimeNamed(ss, n, false)
  {
    if n == 0 {
      NothingEnds(ss, nodes);
    } else {
      EndingElsewhereIs(ss, n - 1, nodes);
      EndingElsewhereStep(ss, n, nodes);
    }
  }

  lemma {:induction false} TotalExclusiveIs(ss: seq<Sample>, selfNs: map<Path, int>, nodes: seq<Path>)
    requires SelfTimes(ss, |ss|, selfNs) && forall q :: q in nodes ==> q in selfNs
    ensures TotalExclusive(selfNs, nodes) == EndingElsewhere(ss, |ss|, nodes)
  {
    if nodes != [] { TotalExclusiveIs(ss, selfNs, nodes[..|nodes|-1]); }
  }

  lemma {:induction false} ThroughRoot(ss: seq<Sample>, n: nat)
    requires n <= |ss|
    ensures Through(ss, n, []) == TimeNamed(ss, n, true) + TimeNamed(ss, n, false)
  {
    if n > 0 { ThroughRoot(ss, n - 1); }
  }

  lemma RootHasAll(ss: seq<Sample>, incl: map<Path, int>)
    requires Climbed(ss, |ss|, [], 0, 0, incl)
    ensures At(incl, []) == Through(ss, |ss|, [])
  {
  }

  /** total_exclusive_ns is the time of the samples not named "[root]", whatever frames they run through. So it is all
      the time there is, the root's inclusive time, exactly when the samples of that name take none. */
  lemma ExclusiveTotal(ss: seq<Sample>, selfNs: map<Path, int>, incl: map<Path, int>, nodes: seq<Path>)
    requires SelfTimes(ss, |ss|, selfNs) && Climbed(ss, |ss|, [], 0, 0, incl)
    requires (forall q :: q in nodes <==> q in selfNs) && forall a, b :: 0 <= a < b < |nodes| ==> nodes[a] != nodes[b]
    ensures TotalExclusive(selfNs, nodes) == TimeNamed(ss, |ss|, false)
    ensures TotalExclusive(selfNs, nodes) == At(incl, []) <==> TimeNamed(ss, |ss|, true) == 0
  {
    hide *;
    LeavesListed(ss, selfNs, nodes);
    TotalExclusiveIs(ss, selfNs, nodes);
    EndingElsewhereIs(ss, |ss|, nodes);
    ThroughRoot(ss, |ss|);
    RootHasAll(ss, incl);
  }

  /** With no negative durations: when no sample of that name takes any time. */
  lemma {:induction false} NoTimeNamedRoot(ss: seq<Sample>, n: nat)
    requires n <= |ss| && NoNegative(ss)
    ensures TimeNamed(ss, n, true) >= 0
    ensures TimeNamed(ss, n, true) == 0 <==> forall i :: 0 <= i < n && ss[i].name == ROOT_FRAME ==> ss[i].duration == 0
  {
    if n > 0 { NoTimeNamedRoot(ss, n - 1); }
  }

  /** One sample of 5 ns named "[root]" under main: all of it is left out. */
  lemma RootNameLosesTime(selfNs: map<Path, int>, incl: map<Path, int>, nodes: seq<Path>)
    requires var ss := [Sample(["main"], ROOT_FRAME, 5)]; SelfTimes(ss, 1, selfNs) && Climbed(ss, 1, [], 0, 0, incl)
    requires (forall q :: q in nodes <==> q in selfNs) && forall a, b :: 0 <= a < b < |nodes| ==> nodes[a] != nodes[b]
    ensures TotalExclusive(selfNs, nodes) == 0 && At(incl, []) == 5
  {
    var ss := [Sample(["main"], ROOT_FRAME, 5)];
    ExclusiveTotal(ss, selfNs, incl, nodes);
    assert TimeNamed(ss, 0, false) == 0 && TimeNamed(ss, 1, false) == 0;
    assert Through(ss, 0, []) == 0 && Through(ss, 1, []) == 5;
  }
}
