/** Call paths and what two trees over them must hold: the stack-built call tree (`_ct_build_from_stacks` of
    src/analysis/call_tree.py) and the calling-context tree (src/analysis/cct.py). A node is named by its path of
    frames from the root. */
module StackPaths {

  type Path = seq<string>

  /** frames: the ancestors, innermost first. */
  datatype Sample = Sample(frames: seq<string>, name: string, duration: int)

  function Reversed(s: seq<string>): (r: seq<string>)
    ensures |r| == |s| && forall k :: 0 <= k < |s| ==> r[k] == s[|s| - 1 - k]
  {
    if s == [] then [] else Reversed(s[1..]) + [s[0]]
  }

  /** Root first, the span's own name last. */
  function Full(s: Sample): (p: Path)
    ensures p != []
  {
    Reversed(s.frames) + [s.name]
  }

  // ---- time per path ----

  /** The time of the first n samples whose path runs through p. */
  function Through(ss: seq<Sample>, n: nat, p: Path): int
    requires n <= |ss|
  {
    if n == 0 then 0 else Through(ss, n - 1, p) + if p <= Full(ss[n-1]) then ss[n-1].duration else 0
  }

  /** The time of those that end at p. */
  function Ending(ss: seq<Sample>, n: nat, p: Path): int
    requires n <= |ss|
  {
    if n == 0 then 0 else Ending(ss, n - 1, p) + if p == Full(ss[n-1]) then ss[n-1].duration else 0
  }

  function EndCount(ss: seq<Sample>, n: nat, p: Path): nat
    requires n <= |ss|
  {
    if n == 0 then 0 else EndCount(ss, n - 1, p) + if p == Full(ss[n-1]) then 1 else 0
  }

  predicate Reached(ss: seq<Sample>, n: nat, p: Path)
    requires n <= |ss|
  {
    exists i :: 0 <= i < n && p <= Full(ss[i])
  }

  function ThroughKids(ss: seq<Sample>, n: nat, p: Path, kids: seq<string>): int
    requires n <= |ss|
  {
    if kids == [] then 0 else ThroughKids(ss, n, p, kids[..|kids|-1]) + Through(ss, n, p + [kids[|kids|-1]])
  }

  /** The frames one step below p that some sample runs through, each once. */
  ghost predicate KidsOf(ss: seq<Sample>, n: nat, p: Path, kids: seq<string>)
    requires n <= |ss|
  {
    && (forall a, b :: 0 <= a < b < |kids| ==> kids[a] != kids[b])
    && (forall i :: 0 <= i < n && p < Full(ss[i]) ==> Full(ss[i])[|p|] in kids)
  }

  /** One more sample adds its time to the one child it runs through, if it goes below p at all. */
  lemma {:induction false} KidsStep(ss: seq<Sample>, n: nat, p: Path, kids: seq<string>)
    requires 0 < n <= |ss| && forall a, b :: 0 <= a < b < |kids| ==> kids[a] != kids[b]
    ensures ThroughKids(ss, n, p, kids) == ThroughKids(ss, n - 1, p, kids)
         + if p < Full(ss[n-1]) && Full(ss[n-1])[|p|] in kids then ss[n-1].duration else 0
  {
    if kids != [] {
      var last := kids[|kids|-1];
      var front := kids[..|kids|-1];
      KidsStep(ss, n, p, front);
      assert forall f :: f in kids <==> f in front || f == last;
      assert last !in front;
      var q := Full(ss[n-1]);
      assert p + [last] <= q <==> p < q && q[|p|] == last;
    }
  }

  /** A node's time is that of the samples ending there and of its children. */
  lemma {:induction false} TimeSplits(ss: seq<Sample>, n: nat, p: Path, kids: seq<string>)
    requires n <= |ss| && KidsOf(ss, n, p, kids)
    ensures Through(ss, n, p) == Ending(ss, n, p) + ThroughKids(ss, n, p, kids)
  {
    if n == 0 {
      NoTime(ss, p, kids);
    } else {
      TimeSplits(ss, n - 1, p, kids);
      KidsStep(ss, n, p, kids);
    }
  }

  lemma {:induction false} NoTime(ss: seq<Sample>, p: Path, kids: seq<string>)
    ensures ThroughKids(ss, 0, p, kids) == 0
  {
    if kids != [] { NoTime(ss, p, kids[..|kids|-1]); }
  }

  ghost predicate NoNegative(ss: seq<Sample>) {
    forall i :: 0 <= i < |ss| ==> ss[i].duration >= 0
  }

  lemma {:induction false} EndingNotNegative(ss: seq<Sample>, n: nat, p: Path)
    requires n <= |ss| && NoNegative(ss)
    ensures Ending(ss, n, p) >= 0
  {
    if n > 0 { EndingNotNegative(ss, n - 1, p); }
  }

  // ---- children per node ----

  function KidsAt(kids: map<Path, seq<string>>, p: Path): seq<string> {
    if p in kids then kids[p] else []
  }

  /** The nodes of a tree: children lists and nodes agree, and no child is listed twice. */
  ghost predicate TreeOk(nodes: set<Path>, kids: map<Path, seq<string>>) {
    && (forall p, f :: f in KidsAt(kids, p) <==> p + [f] in nodes)
    && (forall p, a, b :: 0 <= a < b < |KidsAt(kids, p)| ==> KidsAt(kids, p)[a] != KidsAt(kids, p)[b])
  }

  lemma SameStep(q: Path, g: string, p: Path, f: string)
    ensures q + [g] == p + [f] <==> q == p && g == f
  {
    if q + [g] == p + [f] {
      assert |q| == |p|;
      assert (q + [g])[..|q|] == q && (p + [f])[..|p|] == p;
      assert (q + [g])[|q|] == g && (p + [f])[|p|] == f;
    }
  }

  /** A new node is listed with its parent. */
  lemma AddNode(nodes: set<Path>, kids: map<Path, seq<string>>, p: Path, f: string)
    requires TreeOk(nodes, kids) && p + [f] !in nodes
    ensures TreeOk(nodes + {p + [f]}, kids[p := KidsAt(kids, p) + [f]])
  {
    var kids' := kids[p := KidsAt(kids, p) + [f]];
    var nodes' := nodes + {p + [f]};
    assert f !in KidsAt(kids, p);
    forall q, g ensures g in KidsAt(kids', q) <==> q + [g] in nodes' {
      SameStep(q, g, p, f);
      assert g in KidsAt(kids, q) <==> q + [g] in nodes;
      if q == p {
        assert KidsAt(kids', q) == KidsAt(kids, q) + [f];
      } else {
        assert KidsAt(kids', q) == KidsAt(kids, q);
      }
    }
    forall q, a, b | 0 <= a < b < |KidsAt(kids', q)| ensures KidsAt(kids', q)[a] != KidsAt(kids', q)[b] {
      if q == p {
        assert KidsAt(kids', q) == KidsAt(kids, q) + [f];
      } else {
        assert KidsAt(kids', q) == KidsAt(kids, q);
      }
    }
  }
}
