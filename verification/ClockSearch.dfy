/** `_shortest` of src/analysis/cp_clock.py: in-place Bellman-Ford and the
    extraction of a negative cycle from the predecessor array. */
module ClockSearch {
  import opened Options
  import opened ClockGraph

  // ---- stepping back along the predecessor array ----

  predicate Linked(n: nat, edges: seq<Edge>, pred: seq<int>)
  {
    |pred| == n && forall v :: 0 <= v < n ==> -1 <= pred[v] < |edges|
  }

  /** The node reached from x by k steps back; a node without predecessor stays put. */
  ghost function Back(n: nat, edges: seq<Edge>, pred: seq<int>, x: nat, k: nat): (y: nat)
    requires InRange(n, edges) && Linked(n, edges, pred) && x < n
    ensures y < n
  {
    if k == 0 then x
    else
      var z := Back(n, edges, pred, x, k - 1);
      if pred[z] < 0 then z else edges[pred[z]].u
  }

  lemma {:induction false} BackAdd(n: nat, edges: seq<Edge>, pred: seq<int>, x: nat, a: nat, b: nat)
    requires InRange(n, edges) && Linked(n, edges, pred) && x < n
    ensures Back(n, edges, pred, Back(n, edges, pred, x, a), b) == Back(n, edges, pred, x, a + b)
  {
    if b > 0 { BackAdd(n, edges, pred, x, a, b - 1); }
  }

  /** Once two steps coincide they coincide for ever. */
  lemma BackShift(n: nat, edges: seq<Edge>, pred: seq<int>, x: nat, a: nat, b: nat, t: nat)
    requires InRange(n, edges) && Linked(n, edges, pred) && x < n
    requires Back(n, edges, pred, x, a) == Back(n, edges, pred, x, b)
    ensures Back(n, edges, pred, x, a + t) == Back(n, edges, pred, x, b + t)
  {
    BackAdd(n, edges, pred, x, a, t);
    BackAdd(n, edges, pred, x, b, t);
  }

  /** More than n values below n repeat. */
  lemma {:induction false} Pigeonhole(n: nat, s: seq<nat>) returns (i: nat, j: nat)
    requires |s| == n + 1 && forall k :: 0 <= k < |s| ==> s[k] < n
    ensures i < j <= n && s[i] == s[j]
  {
    if k :| 0 <= k < n && s[k] == s[n] {
      i, j := k, n;
    } else {
      // the last value occurs once: rename n-1 to it among the first n values
      var s' := seq(n, k requires 0 <= k < n => if s[k] == n - 1 then s[n] else s[k]);
      i, j := Pigeonhole(n - 1, s');
    }
  }

  /** n steps back from x land on a cycle of at most n nodes, if no step up to the n-th meets an
      unset entry; nor does any later one. */
  lemma OnCycle(n: nat, edges: seq<Edge>, pred: seq<int>, x: nat) returns (p: nat)
    requires InRange(n, edges) && Linked(n, edges, pred) && x < n
    requires forall k :: 0 <= k <= n ==> pred[Back(n, edges, pred, x, k)] >= 0
    ensures 1 <= p <= n
    ensures var y := Back(n, edges, pred, x, n);
            && Back(n, edges, pred, y, p) == y
            && forall k :: 0 <= k <= p ==> pred[Back(n, edges, pred, y, k)] >= 0
  {
    var i, j := Pigeonhole(n, seq(n + 1, k requires 0 <= k <= n => Back(n, edges, pred, x, k)));
    p := j - i;
    var y := Back(n, edges, pred, x, n);
    forall k | 0 <= k <= p ensures Back(n, edges, pred, y, k) == Back(n, edges, pred, x, n + k - p) {
      BackAdd(n, edges, pred, x, n, k);
      BackShift(n, edges, pred, x, i, j, n + k - j);
    }
  }

  /** Up to the first return to y no node repeats. */
  lemma DistinctUntilReturn(n: nat, edges: seq<Edge>, pred: seq<int>, y: nat, L: nat, l: nat, m: nat)
    requires InRange(n, edges) && Linked(n, edges, pred) && y < n
    requires Back(n, edges, pred, y, L) == y && l < m < L
    requires forall k :: 1 <= k < L ==> Back(n, edges, pred, y, k) != y
    ensures Back(n, edges, pred, y, l) != Back(n, edges, pred, y, m)
  {
    if Back(n, edges, pred, y, l) == Back(n, edges, pred, y, m) {
      BackShift(n, edges, pred, y, l, m, L - m);
    }
  }

  // ---- what relaxing keeps ----

  /** The edge's end has not risen since the edge improved it, and it is slack if its start improved later. */
  ghost predicate Tight(d: seq<Ns>, when: seq<nat>, e: Edge)
    requires e.u < |d| == |when| && e.v < |d|
  {
    && d[e.v].Fin? && d[e.u].Fin?
    && d[e.v].val >= d[e.u].val + e.w
    && (when[e.u] >= when[e.v] ==> d[e.v].val > d[e.u].val + e.w)
  }

  /** A set predecessor is the edge of the node's last improvement. */
  ghost predicate TreeAt(n: nat, edges: seq<Edge>, d: seq<Ns>, pred: seq<int>, rnd: seq<nat>, when: seq<nat>, v: nat)
    requires InRange(n, edges) && Linked(n, edges, pred) && |d| == |rnd| == |when| == n && v < n
  {
    && (pred[v] < 0 <==> rnd[v] == 0)
    && (pred[v] >= 0 ==>
          var e := edges[pred[v]];
          && e.v == v && Tight(d, when, e)
          && rnd[e.u] >= rnd[v] - 1)
  }

  ghost predicate Tree(n: nat, edges: seq<Edge>, d: seq<Ns>, pred: seq<int>, rnd: seq<nat>, when: seq<nat>)
    requires InRange(n, edges) && Linked(n, edges, pred) && |d| == |rnd| == |when| == n
  {
    forall v :: 0 <= v < n ==> TreeAt(n, edges, d, pred, rnd, when, v)
  }

  /** After the first k edges of round r: an edge can still improve something only if its start
      improved since the edge was last looked at. */
  ghost predicate Recent(n: nat, edges: seq<Edge>, d: seq<Ns>, rnd: seq<nat>, r: nat, k: nat)
    requires InRange(n, edges) && |d| == |rnd| == n
  {
    forall j :: 0 <= j < |edges| && Relaxable(d, edges[j]) ==>
      rnd[edges[j].u] >= (if j < k then r else r - 1)
  }

  ghost predicate WalkedAt(n: nat, edges: seq<Edge>, source: Option<nat>, d: seq<Ns>, origin: seq<nat>,
        walk: seq<seq<nat>>, v: nat)
    requires InRange(n, edges) && |d| == |origin| == |walk| == n && v < n
  {
    && (source.Some? ==> origin[v] == source.value)
    && origin[v] < n
    && (d[v].Fin? ==> WalkOf(edges, origin[v], walk[v], v, d[v].val))
  }

  /** Every finite distance is the weight of a walk from a node that started at 0. */
  ghost predicate Walked(n: nat, edges: seq<Edge>, source: Option<nat>, d: seq<Ns>, origin: seq<nat>,
        walk: seq<seq<nat>>)
    requires InRange(n, edges) && |d| == |origin| == |walk| == n
  {
    forall v :: 0 <= v < n ==> WalkedAt(n, edges, source, d, origin, walk, v)
  }

  lemma WalkExtend(edges: seq<Edge>, a: nat, p: seq<nat>, k: nat, w: int)
    requires k < |edges| && WalkOf(edges, a, p, edges[k].u, w)
    ensures WalkOf(edges, a, p + [k], edges[k].v, w + edges[k].w)
  {
    assert (p + [k])[..|p|] == p;
  }

  /** A closed chain of last improvements is a negative cycle: somewhere on it the time stamps rise. */
  lemma {:induction false} SlackSum(n: nat, edges: seq<Edge>, ks: seq<nat>, d: seq<Ns>, when: seq<nat>, m: nat)
    requires InRange(n, edges) && |d| == |when| == n && 0 < m <= |ks|
    requires forall i :: 0 <= i < |ks| ==> ks[i] < |edges|
    requires Linear(edges, ks)
    requires forall i :: 0 <= i < |ks| ==> Tight(d, when, edges[ks[i]])
    ensures var a, b := edges[ks[0]].v, edges[ks[m-1]].u;
            && d[a].Fin? && d[b].Fin? && d[a].val >= d[b].val + Weight(edges, ks[..m])
            && (d[a].val > d[b].val + Weight(edges, ks[..m]) || when[b] < when[a])
  {
    assert ks[..m][..m-1] == ks[..m-1];
    if m > 1 { SlackSum(n, edges, ks, d, when, m - 1); }
  }

  /** In round r, the chain from a node just improved is set for r - 1 further steps. */
  lemma {:induction false} ChainSet(n: nat, edges: seq<Edge>, d: seq<Ns>, pred: seq<int>, rnd: seq<nat>, when: seq<nat>,
        x: nat, k: nat)
    requires InRange(n, edges) && Linked(n, edges, pred) && |d| == |rnd| == |when| == n && x < n
    requires Tree(n, edges, d, pred, rnd, when) && k < rnd[x]
    ensures rnd[Back(n, edges, pred, x, k)] >= rnd[x] - k
  {
    if k > 0 {
      ChainSet(n, edges, d, pred, rnd, when, x, k - 1);
      assert TreeAt(n, edges, d, pred, rnd, when, Back(n, edges, pred, x, k - 1));
    }
  }

  // ---- the search ----

  ghost predicate Started(source: Option<nat>, a: nat) {
    source.Some? ==> a == source.value
  }

  /** What the distances mean: no edge improves them, and each is the weight of a walk from the
      source (from some node, when the source is virtual). */
  ghost predicate Solution(n: nat, edges: seq<Edge>, source: Option<nat>, d: seq<Ns>)
    requires InRange(n, edges)
  {
    && |d| == n
    && (forall k :: 0 <= k < |edges| ==> !Relaxable(d, edges[k]))
    && (forall v :: 0 <= v < n && d[v].Fin? ==>
          exists a: nat, p :: Started(source, a) && a < n && WalkOf(edges, a, p, v, d[v].val))
    && (source.None? ==> forall v :: 0 <= v < n ==> d[v].Fin? && d[v].val <= 0)
    && (source.Some? && source.value < n ==> d[source.value].Fin? && d[source.value].val <= 0)
  }

  /** The history of a search: per node, the round and the time of its last improvement, and the
      walk its distance measures. */
  datatype History = History(rnd: seq<nat>, when: seq<nat>, origin: seq<nat>, walk: seq<seq<nat>>, now: nat)

  /** The state after the first k edges of round r. */
  ghost predicate Searching(n: nat, edges: seq<Edge>, source: Option<nat>, d: seq<Ns>, pred: seq<int>, h: History,
        r: nat, k: nat)
    requires InRange(n, edges)
  {
    && |d| == |h.rnd| == |h.when| == |h.origin| == |h.walk| == n && Linked(n, edges, pred)
    && Tree(n, edges, d, pred, h.rnd, h.when)
    && Recent(n, edges, d, h.rnd, r, k)
    && (forall v :: 0 <= v < n ==> h.rnd[v] <= r && h.when[v] <= h.now)
    && Walked(n, edges, source, d, h.origin, h.walk)
    && (forall v :: 0 <= v < n && (source.Some? ==> v == source.value) ==> d[v].Fin? && d[v].val <= 0)
  }

  /** The history after edge k improved its end in round r. */
  function Improved(n: nat, edges: seq<Edge>, h: History, r: nat, k: nat): History
    requires InRange(n, edges) && k < |edges| && |h.rnd| == |h.when| == |h.origin| == |h.walk| == n
  {
    var u, v := edges[k].u, edges[k].v;
    History(h.rnd[v := r], h.when[v := h.now + 1], h.origin[v := h.origin[u]], h.walk[v := h.walk[u] + [k]], h.now + 1)
  }

  lemma ImprovedTree(n: nat, edges: seq<Edge>, d: seq<Ns>, pred: seq<int>, rnd: seq<nat>, when: seq<nat>, now: nat,
        r: nat, k: nat)
    requires InRange(n, edges) && Linked(n, edges, pred) && k < |edges| && r > 0 && |d| == |rnd| == |when| == n
    requires Tree(n, edges, d, pred, rnd, when) && Relaxable(d, edges[k]) && rnd[edges[k].u] >= r - 1
    requires forall v :: 0 <= v < n ==> rnd[v] <= r && when[v] <= now
    ensures var e := edges[k];
      && Linked(n, edges, pred[e.v := k])
      && Tree(n, edges, d[e.v := Fin(d[e.u].val + e.w)], pred[e.v := k], rnd[e.v := r], when[e.v := now + 1])
  {
    var Edge(u, v, w) := edges[k];
    var d', pred', rnd', when' := d[v := Fin(d[u].val + w)], pred[v := k], rnd[v := r], when[v := now + 1];
    assert TreeAt(n, edges, d, pred, rnd, when, u) && TreeAt(n, edges, d, pred, rnd, when, v);
    forall i | 0 <= i < n ensures TreeAt(n, edges, d', pred', rnd', when', i) {
      assert TreeAt(n, edges, d, pred, rnd, when, i);
    }
  }

  lemma ImprovedRecent(n: nat, edges: seq<Edge>, d: seq<Ns>, rnd: seq<nat>, r: nat, k: nat)
    requires InRange(n, edges) && k < |edges| && r > 0 && |d| == |rnd| == n
    requires Recent(n, edges, d, rnd, r, k) && Relaxable(d, edges[k]) && forall v :: 0 <= v < n ==> rnd[v] <= r
    ensures var e := edges[k]; Recent(n, edges, d[e.v := Fin(d[e.u].val + e.w)], rnd[e.v := r], r, k + 1)
  {
  }

  lemma ImprovedWalked(n: nat, edges: seq<Edge>, source: Option<nat>, d: seq<Ns>, origin: seq<nat>, walk: seq<seq<nat>>,
        k: nat)
    requires InRange(n, edges) && k < |edges| && |d| == |origin| == |walk| == n
    requires Walked(n, edges, source, d, origin, walk) && Relaxable(d, edges[k])
    ensures var e := edges[k];
      Walked(n, edges, source, d[e.v := Fin(d[e.u].val + e.w)], origin[e.v := origin[e.u]],
        walk[e.v := walk[e.u] + [k]])
  {
    var Edge(u, v, w) := edges[k];
    assert WalkedAt(n, edges, source, d, origin, walk, u);
    WalkExtend(edges, origin[u], walk[u], k, d[u].val);
    hide WalkOf;
    var d', origin', walk' := d[v := Fin(d[u].val + w)], origin[v := origin[u]], walk[v := walk[u] + [k]];
    forall i | 0 <= i < n ensures WalkedAt(n, edges, source, d', origin', walk', i) {
      assert WalkedAt(n, edges, source, d, origin, walk, i);
    }
  }

  /** One improvement keeps the search state. */
  lemma Improve(n: nat, edges: seq<Edge>, source: Option<nat>, d: seq<Ns>, pred: seq<int>, h: History, r: nat, k: nat)
    returns (h': History)
    requires InRange(n, edges) && k < |edges| && r > 0
    requires Searching(n, edges, source, d, pred, h, r, k) && Relaxable(d, edges[k])
    ensures var e := edges[k];
      && Searching(n, edges, source, d[e.v := Fin(d[e.u].val + e.w)], pred[e.v := k], h', r, k + 1)
      && h'.rnd == h.rnd[e.v := r]
  {
    assert h.rnd[edges[k].u] >= r - 1;
    hide Tree, Recent, Walked;
    h' := Improved(n, edges, h, r, k);
    ImprovedTree(n, edges, d, pred, h.rnd, h.when, h.now, r, k);
    ImprovedRecent(n, edges, d, h.rnd, r, k);
    ImprovedWalked(n, edges, source, d, h.origin, h.walk, k);
  }

  /** One edge of the chain back from x. */
  lemma ChainEdge(n: nat, edges: seq<Edge>, d: seq<Ns>, pred: seq<int>, rnd: seq<nat>, when: seq<nat>, x: nat, i: nat)
    requires InRange(n, edges) && Linked(n, edges, pred) && |d| == |rnd| == |when| == n && x < n
    requires Tree(n, edges, d, pred, rnd, when) && pred[Back(n, edges, pred, x, i)] >= 0
    ensures var e := edges[pred[Back(n, edges, pred, x, i)]];
      && e.v == Back(n, edges, pred, x, i) && e.u == Back(n, edges, pred, x, i + 1)
      && Tight(d, when, e)
  {
    assert TreeAt(n, edges, d, pred, rnd, when, Back(n, edges, pred, x, i));
  }

  /** A cycle of tight edges is negative: the time stamps cannot fall all the way round. */
  lemma TightCycleNegative(n: nat, edges: seq<Edge>, ks: seq<nat>, d: seq<Ns>, when: seq<nat>)
    requires InRange(n, edges) && |d| == |when| == n && IsCycle(edges, ks)
    requires forall i :: 0 <= i < |ks| ==> Tight(d, when, edges[ks[i]])
    ensures Weight(edges, ks) < 0
  {
    hide Tight;
    assert ks[..|ks|] == ks && edges[ks[|ks|-1]].u == edges[ks[0]].v;
    SlackSum(n, edges, ks, d, when, |ks|);
  }

  /** The edges collected between x and the first return to it form a negative cycle. */
  lemma CycleFound(n: nat, edges: seq<Edge>, d: seq<Ns>, pred: seq<int>, rnd: seq<nat>, when: seq<nat>, x: nat,
        cyc: seq<nat>)
    requires InRange(n, edges) && Linked(n, edges, pred) && |d| == |rnd| == |when| == n && x < n
    requires Tree(n, edges, d, pred, rnd, when) && |cyc| > 0
    requires Back(n, edges, pred, x, |cyc|) == x
    requires forall i :: 1 <= i < |cyc| ==> Back(n, edges, pred, x, i) != x
    requires forall i :: 0 <= i < |cyc| ==> cyc[i] == pred[Back(n, edges, pred, x, i)]
    ensures NegativeCycle(edges, cyc)
  {
    hide Tree, Tight, Weight;
    var L := |cyc|;
    forall i | 0 <= i < L
      ensures edges[cyc[i]].v == Back(n, edges, pred, x, i) && edges[cyc[i]].u == Back(n, edges, pred, x, i + 1)
      ensures Tight(d, when, edges[cyc[i]])
    {
      ChainEdge(n, edges, d, pred, rnd, when, x, i);
    }
    assert IsCycle(edges, cyc) by {
      assert Back(n, edges, pred, x, 0) == x;
      hide Back;
      forall i, j | 0 <= i < j < L ensures edges[cyc[i]].v != edges[cyc[j]].v {
        DistinctUntilReturn(n, edges, pred, x, L, i, j);
      }
    }
    hide Back, IsCycle;
    TightCycleNegative(n, edges, cyc, d, when);
  }

  /** With a virtual source the distances are an assignment that meets every constraint. */
  lemma SolutionFeasible(n: nat, edges: seq<Edge>, d: seq<Ns>)
    requires InRange(n, edges) && Solution(n, edges, None, d)
    ensures Feasible(n, edges)
  {
    var x := seq(n, v requires 0 <= v < n => if d[v].Fin? then d[v].val else 0);
    forall k | 0 <= k < |edges| ensures x[edges[k].v] <= x[edges[k].u] + edges[k].w {
      assert !Relaxable(d, edges[k]);
    }
    assert Satisfies(x, edges);
  }

  /** From a source they are the exact weights of the lightest walks. */
  lemma SolutionShortest(n: nat, edges: seq<Edge>, s: nat, d: seq<Ns>)
    requires InRange(n, edges) && s < n && Solution(n, edges, Some(s), d)
    ensures d[s] == Fin(0) && ShortestFrom(edges, s, d)
  {
    var a: nat, p :| Started(Some(s), a) && a < n && WalkOf(edges, a, p, s, d[s].val);
    ClosedBoundsWalks(n, edges, d, s, p, s, d[s].val);
    forall b, p, w | 0 <= b < n && WalkOf(edges, s, p, b, w) ensures d[b].Fin? && d[b].val <= w {
      ClosedBoundsWalks(n, edges, d, s, p, b, w);
    }
    forall b, p | 0 <= b < n && IsWalk(edges, s, p, b) ensures d[b].Fin? {
      WalkIndices(edges, s, p, b);
      assert WalkOf(edges, s, p, b, Weight(edges, p));
    }
    forall b | 0 <= b < n && d[b].Fin? ensures exists p :: WalkOf(edges, s, p, b, d[b].val) {
      var a: nat, p :| Started(Some(s), a) && a < n && WalkOf(edges, a, p, b, d[b].val);
      assert WalkOf(edges, s, p, b, d[b].val);
    }
  }

  /** n steps back from the node improved last: onto the cycle itself. */
  method StepBack(n: nat, edges: seq<Edge>, pred: seq<int>, last: nat) returns (x: nat)
    requires InRange(n, edges) && Linked(n, edges, pred) && last < n
    requires forall k :: 0 <= k <= n ==> pred[Back(n, edges, pred, last, k)] >= 0
    ensures x == Back(n, edges, pred, last, n)
  {
    x := last;
    for step := 0 to n
      invariant x == Back(n, edges, pred, last, step)
    {
      assert pred[Back(n, edges, pred, last, step)] >= 0;
      x := edges[pred[x]].u;
    }
  }

  /** The edges met on the way back from x, which has not returned to x before the last of them. */
  ghost predicate Trail(n: nat, edges: seq<Edge>, pred: seq<int>, x: nat, cyc: seq<nat>)
    requires InRange(n, edges) && Linked(n, edges, pred) && x < n
  {
    && (forall i :: 0 <= i < |cyc| ==> cyc[i] == pred[Back(n, edges, pred, x, i)])
    && (forall i :: 1 <= i < |cyc| ==> Back(n, edges, pred, x, i) != x)
  }

  lemma TrailMore(n: nat, edges: seq<Edge>, pred: seq<int>, x: nat, cyc: seq<nat>, v: nat)
    requires InRange(n, edges) && Linked(n, edges, pred) && x < n && Trail(n, edges, pred, x, cyc)
    requires v == Back(n, edges, pred, x, |cyc|) && pred[v] >= 0 && (cyc != [] ==> v != x)
    ensures pred[v] < |edges| && Trail(n, edges, pred, x, cyc + [pred[v]])
    ensures Back(n, edges, pred, x, |cyc| + 1) == edges[pred[v]].u
  {
    assert Back(n, edges, pred, x, |cyc| + 1) == edges[pred[v]].u;
    hide Back;
  }

  /** The edges from x back to its first return, at most p steps away. */
  method CollectCycle(n: nat, edges: seq<Edge>, pred: seq<int>, x: nat, ghost p: nat) returns (cyc: seq<nat>)
    requires InRange(n, edges) && Linked(n, edges, pred) && x < n
    requires 1 <= p <= n && Back(n, edges, pred, x, p) == x
    requires forall k :: 0 <= k <= p ==> pred[Back(n, edges, pred, x, k)] >= 0
    ensures 0 < |cyc| <= p && Back(n, edges, pred, x, |cyc|) == x
    ensures forall i :: 1 <= i < |cyc| ==> Back(n, edges, pred, x, i) != x
    ensures forall i :: 0 <= i < |cyc| ==> cyc[i] == pred[Back(n, edges, pred, x, i)]
  {
    var v := x;
    cyc := [];
    while true
      invariant v == Back(n, edges, pred, x, |cyc|) && |cyc| < p && (cyc != [] ==> v != x)
      invariant Trail(n, edges, pred, x, cyc)
      decreases p - |cyc|
    {
      hide Trail, Back;
      TrailMore(n, edges, pred, x, cyc, v);
      var k: nat := pred[v];
      cyc := cyc + [k];
      v := edges[k].u;
      if v == x || |cyc| > n { break; }
    }
  }

  lemma Initial(n: nat, edges: seq<Edge>, source: Option<nat>, d: seq<Ns>, pred: seq<int>, h: History)
    requires InRange(n, edges) && (source.Some? ==> source.value < n)
    requires |d| == |pred| == |h.rnd| == |h.when| == |h.origin| == |h.walk| == n
    requires forall v :: 0 <= v < n ==>
      && d[v] == (if source.Some? && v != source.value then Inf else Fin(0))
      && pred[v] == -1 && h.rnd[v] == 0 && h.when[v] == 0 && h.walk[v] == []
      && h.origin[v] == (if source.Some? then source.value else v)
    ensures Searching(n, edges, source, d, pred, h, 0, |edges|)
  {
    forall v | 0 <= v < n
      ensures TreeAt(n, edges, d, pred, h.rnd, h.when, v) && WalkedAt(n, edges, source, d, h.origin, h.walk, v)
    {}
  }

  /** A round without improvement has solved the system. */
  lemma Settled(n: nat, edges: seq<Edge>, source: Option<nat>, d: seq<Ns>, pred: seq<int>, h: History, r: nat)
    requires InRange(n, edges) && (source.Some? ==> source.value < n)
    requires r > 0 && Searching(n, edges, source, d, pred, h, r, |edges|)
    requires forall v :: 0 <= v < n ==> h.rnd[v] < r
    ensures Solution(n, edges, source, d)
  {
    forall v | 0 <= v < n && d[v].Fin?
      ensures exists a: nat, p :: Started(source, a) && a < n && WalkOf(edges, a, p, v, d[v].val)
    {
      assert WalkedAt(n, edges, source, d, h.origin, h.walk, v);
      assert Started(source, h.origin[v]);
    }
  }

  /** One round: every edge once. x is the node improved last, -1 if none was. */
  method Pass(n: nat, edges: seq<Edge>, source: Option<nat>, d0: seq<Ns>, pred0: seq<int>, ghost h0: History,
        ghost round: nat)
    returns (d: seq<Ns>, pred: seq<int>, x: int, ghost h: History)
    requires InRange(n, edges)
    requires Searching(n, edges, source, d0, pred0, h0, round, |edges|)
    ensures Searching(n, edges, source, d, pred, h, round + 1, |edges|)
    ensures if x < 0 then forall v :: 0 <= v < n ==> h.rnd[v] <= round else x < n && h.rnd[x] == round + 1
  {
    d, pred, h := d0, pred0, h0;
    x := -1;
    for k := 0 to |edges|
      invariant Searching(n, edges, source, d, pred, h, round + 1, k)
      invariant if x < 0 then forall v :: 0 <= v < n ==> h.rnd[v] <= round else x < n && h.rnd[x] == round + 1
    {
      var Edge(u, v, w) := edges[k];
      if d[u].Fin? && (d[v].Inf? || d[u].val + w < d[v].val) {
        h := Improve(n, edges, source, d, pred, h, round + 1, k);
        d := d[v := Fin(d[u].val + w)];
        pred := pred[v := k];
        x := v;
      }
    }
  }

  method Shortest(n: nat, edges: seq<Edge>, source: Option<nat>) returns (r: Outcome)
    requires InRange(n, edges) && (source.Some? ==> source.value < n)
    ensures r.Distances? ==> Solution(n, edges, source, r.d)
    ensures r.Distances? && source.Some? ==> ShortestFrom(edges, source.value, r.d)
    ensures source.None? ==> (r.Distances? <==> Feasible(n, edges))
    ensures r.Cycle? ==> NegativeCycle(edges, r.ks) && |r.ks| <= n && !Feasible(n, edges)
  {
    var d: seq<Ns> := seq(n, i => if source.Some? then Inf else Fin(0));
    if source.Some? { d := d[source.value := Fin(0)]; }
    var pred: seq<int> := seq(n, i => -1);
    var x: int := -1;
    ghost var h := History(seq(n, i => 0), seq(n, i => 0),
                           seq(n, i => if source.Some? then source.value else i), seq(n, i => []), 0);
    Initial(n, edges, source, d, pred, h);
    for round := 0 to n + 1
      invariant Searching(n, edges, source, d, pred, h, round, |edges|)
      invariant round > 0 ==> 0 <= x < n && h.rnd[x] == round
    {
      d, pred, x, h := Pass(n, edges, source, d, pred, h, round);
      if x < 0 {
        Settled(n, edges, source, d, pred, h, round + 1);
        if source.None? { SolutionFeasible(n, edges, d); } else { SolutionShortest(n, edges, source.value, d); }
        return Distances(d);
      }
    }
    forall k | 0 <= k <= n ensures pred[Back(n, edges, pred, x, k)] >= 0 {
      ChainSet(n, edges, d, pred, h.rnd, h.when, x, k);
      assert TreeAt(n, edges, d, pred, h.rnd, h.when, Back(n, edges, pred, x, k));
    }
    ghost var p := OnCycle(n, edges, pred, x);
    x := StepBack(n, edges, pred, x);
    var cyc := CollectCycle(n, edges, pred, x, p);
    CycleFound(n, edges, d, pred, h.rnd, h.when, x, cyc);
    NegativeCycleInfeasible(n, edges, cyc);
    return Cycle(cyc);
  }
}
