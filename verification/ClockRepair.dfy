/** The value level of the repair loop in src/analysis/cp_clock.py, `solve`:
    the constraint system of a list of pairs, and what relaxing one pair does. */
module ClockRepair {
  import opened ClockGraph

  /** t(u) - t(v) of one dependency, and the constraint it came from. */
  datatype Need = Need(need: int, cid: int)

  /** Every dependency from domain a to domain b, largest need first. */
  datatype PairView = PairView(a: nat, b: nat, needs: seq<Need>, strength: int)

  predicate Descending(needs: seq<Need>) {
    forall i, j :: 0 <= i < j < |needs| ==> needs[i].need >= needs[j].need
  }

  predicate Proper(n: nat, p: PairView) {
    p.a < n && p.b < n && Descending(p.needs)
  }

  ghost predicate WellFormed(n: nat, ps: seq<PairView>) {
    forall i :: 0 <= i < |ps| ==> Proper(n, ps[i])
  }

  ghost predicate AllNeed(ps: seq<PairView>) {
    forall i :: 0 <= i < |ps| ==> ps[i].needs != []
  }

  function PairEdge(p: PairView): Edge
    requires p.needs != []
  {
    Edge(p.b, p.a, -p.needs[0].need)
  }

  function PairEdges(ps: seq<PairView>): (r: seq<Edge>)
    requires AllNeed(ps)
    ensures |r| == |ps|
  {
    seq(|ps|, i requires 0 <= i < |ps| => PairEdge(ps[i]))
  }

  /** The bounds of the first m domains. */
  function BoundEdges(bounds: seq<Ns>, ref: nat, m: nat): seq<Edge>
    requires m <= |bounds|
  {
    if m == 0 then []
    else
      var rest := BoundEdges(bounds, ref, m - 1);
      if m - 1 != ref && bounds[m-1].Fin?
      then rest + [Edge(ref, m - 1, bounds[m-1].val), Edge(m - 1, ref, bounds[m-1].val)]
      else rest
  }

  function System(ps: seq<PairView>, bounds: seq<Ns>, ref: nat): seq<Edge>
    requires AllNeed(ps)
  {
    PairEdges(ps) + BoundEdges(bounds, ref, |bounds|)
  }

  ghost predicate NonNegative(bounds: seq<Ns>) {
    forall i :: 0 <= i < |bounds| && bounds[i].Fin? ==> bounds[i].val >= 0
  }

  // ---- what the system means, without reference to its edges ----

  ghost predicate WithinBounds(x: seq<int>, bounds: seq<Ns>) {
    forall i :: 0 <= i < |bounds| && i < |x| && bounds[i].Fin? ==> -bounds[i].val <= x[i] <= bounds[i].val
  }

  ghost predicate MeetsNeeds(x: seq<int>, ps: seq<PairView>) {
    forall i, j :: 0 <= i < |ps| && 0 <= j < |ps[i].needs| && ps[i].a < |x| && ps[i].b < |x| ==>
      x[ps[i].b] - x[ps[i].a] >= ps[i].needs[j].need
  }

  /** Offsets, relative to the reference, that honour every bound and every need. */
  ghost predicate Consistent(x: seq<int>, n: nat, ps: seq<PairView>, bounds: seq<Ns>, ref: nat) {
    |x| == n && ref < n && x[ref] == 0 && WithinBounds(x, bounds) && MeetsNeeds(x, ps)
  }

  ghost predicate Solvable(n: nat, ps: seq<PairView>, bounds: seq<Ns>, ref: nat) {
    exists x :: Consistent(x, n, ps, bounds, ref)
  }

  lemma {:induction false} BoundEdgesRange(bounds: seq<Ns>, ref: nat, m: nat)
    requires m <= |bounds| && ref < |bounds|
    ensures InRange(|bounds|, BoundEdges(bounds, ref, m))
  {
    if m > 0 { BoundEdgesRange(bounds, ref, m - 1); }
  }

  lemma SystemRange(n: nat, ps: seq<PairView>, bounds: seq<Ns>, ref: nat)
    requires WellFormed(n, ps) && AllNeed(ps) && |bounds| == n && ref < n
    ensures InRange(n, System(ps, bounds, ref))
  {
    BoundEdgesRange(bounds, ref, n);
  }

  lemma {:induction false} BoundEdgesMean(x: seq<int>, bounds: seq<Ns>, ref: nat, m: nat)
    requires m <= |bounds| == |x| && ref < |bounds|
    ensures InRange(|x|, BoundEdges(bounds, ref, m))
    ensures Satisfies(x, BoundEdges(bounds, ref, m)) <==>
              forall i :: 0 <= i < m && i != ref && bounds[i].Fin? ==>
                x[ref] - bounds[i].val <= x[i] <= x[ref] + bounds[i].val
  {
    BoundEdgesRange(bounds, ref, m);
    if m > 0 {
      BoundEdgesMean(x, bounds, ref, m - 1);
      var rest, all := BoundEdges(bounds, ref, m - 1), BoundEdges(bounds, ref, m);
      assert forall k :: 0 <= k < |rest| ==> all[k] == rest[k];
      if m - 1 != ref && bounds[m-1].Fin? {
        assert all[|rest|] == Edge(ref, m - 1, bounds[m-1].val) && all[|rest|+1] == Edge(m - 1, ref, bounds[m-1].val);
        if Satisfies(x, all) {
          assert Satisfies(x, rest);
        }
      }
    }
  }

  /** An assignment with the reference at 0 solves the system exactly when it is consistent. */
  lemma SystemMeans(x: seq<int>, n: nat, ps: seq<PairView>, bounds: seq<Ns>, ref: nat)
    requires WellFormed(n, ps) && AllNeed(ps) && |bounds| == n == |x| && ref < n && NonNegative(bounds) && x[ref] == 0
    ensures InRange(n, System(ps, bounds, ref))
    ensures Satisfies(x, System(ps, bounds, ref)) <==> Consistent(x, n, ps, bounds, ref)
  {
    SystemRange(n, ps, bounds, ref);
    BoundEdgesMean(x, bounds, ref, n);
    var pe, be, s := PairEdges(ps), BoundEdges(bounds, ref, n), System(ps, bounds, ref);
    assert forall k :: 0 <= k < |be| ==> s[|pe| + k] == be[k];
    assert forall k :: 0 <= k < |pe| ==> s[k] == pe[k] == PairEdge(ps[k]);
    if Satisfies(x, s) {
      assert Satisfies(x, be);
      forall i, j | 0 <= i < |ps| && 0 <= j < |ps[i].needs|
        ensures x[ps[i].b] - x[ps[i].a] >= ps[i].needs[j].need
      {
        assert x[s[i].v] <= x[s[i].u] + s[i].w;
      }
    }
    if Consistent(x, n, ps, bounds, ref) {
      forall k | 0 <= k < |s| ensures x[s[k].v] <= x[s[k].u] + s[k].w {
        if k < |pe| {
          assert x[ps[k].b] - x[ps[k].a] >= ps[k].needs[0].need;
        } else {
          assert s[k] == be[k - |pe|];
        }
      }
    }
  }

  /** Only differences matter: a feasible system has a consistent assignment. */
  lemma FeasibleConsistent(n: nat, ps: seq<PairView>, bounds: seq<Ns>, ref: nat)
    requires WellFormed(n, ps) && AllNeed(ps) && |bounds| == n && ref < n && NonNegative(bounds)
    ensures InRange(n, System(ps, bounds, ref))
    ensures Feasible(n, System(ps, bounds, ref)) <==> Solvable(n, ps, bounds, ref)
  {
    SystemRange(n, ps, bounds, ref);
    var s := System(ps, bounds, ref);
    if Feasible(n, s) {
      var f: seq<int> :| |f| == n && Satisfies(f, s);
      var x := seq(n, i requires 0 <= i < n => f[i] - f[ref]);
      forall k | 0 <= k < |s| ensures x[s[k].v] <= x[s[k].u] + s[k].w {
        assert f[s[k].v] <= f[s[k].u] + s[k].w;
      }
      SystemMeans(x, n, ps, bounds, ref);
    }
    if x :| Consistent(x, n, ps, bounds, ref) {
      SystemMeans(x, n, ps, bounds, ref);
    }
  }

  // ---- a negative cycle always passes through a pair ----

  lemma {:induction false} BoundEdgesNonNegative(bounds: seq<Ns>, ref: nat, m: nat)
    requires m <= |bounds| && NonNegative(bounds)
    ensures forall k :: 0 <= k < |BoundEdges(bounds, ref, m)| ==> BoundEdges(bounds, ref, m)[k].w >= 0
  {
    if m > 0 { BoundEdgesNonNegative(bounds, ref, m - 1); }
  }

  lemma {:induction false} NonNegativeWeight(edges: seq<Edge>, ks: seq<nat>)
    requires forall i :: 0 <= i < |ks| ==> ks[i] < |edges| && edges[ks[i]].w >= 0
    ensures Weight(edges, ks) >= 0
  {
    if ks != [] { NonNegativeWeight(edges, ks[..|ks|-1]); }
  }

  lemma CycleHasPair(ps: seq<PairView>, bounds: seq<Ns>, ref: nat, ks: seq<nat>)
    requires AllNeed(ps) && NonNegative(bounds) && NegativeCycle(System(ps, bounds, ref), ks)
    ensures exists i :: 0 <= i < |ks| && ks[i] < |ps|
    ensures forall i :: 0 <= i < |ks| ==> ks[i] < |System(ps, bounds, ref)|
    ensures Weight(System(ps, bounds, ref), ks) < 0
  {
    var s := System(ps, bounds, ref);
    if forall i :: 0 <= i < |ks| ==> ks[i] >= |ps| {
      BoundEdgesNonNegative(bounds, ref, |bounds|);
      forall i | 0 <= i < |ks| ensures s[ks[i]].w >= 0 {
        assert s[ks[i]] == BoundEdges(bounds, ref, |bounds|)[ks[i] - |ps|];
      }
      NonNegativeWeight(s, ks);
      assert false;
    }
  }

  // ---- relaxing one pair ----

  function AtMost(needs: seq<Need>, allowed: int): (r: seq<Need>)
    ensures |r| <= |needs|
  {
    if needs == [] then []
    else (if needs[0].need <= allowed then [needs[0]] else []) + AtMost(needs[1..], allowed)
  }

  function Ids(needs: seq<Need>): (r: seq<int>)
    ensures |r| == |needs|
  {
    seq(|needs|, i requires 0 <= i < |needs| => needs[i].cid)
  }

  function Above(needs: seq<Need>, allowed: int): seq<int> {
    if needs == [] then []
    else (if needs[0].need > allowed then [needs[0].cid] else []) + Above(needs[1..], allowed)
  }

  lemma {:induction false} AtMostAll(needs: seq<Need>, allowed: int)
    requires forall i :: 0 <= i < |needs| ==> needs[i].need <= allowed
    ensures AtMost(needs, allowed) == needs && Above(needs, allowed) == []
  {
    if needs != [] { AtMostAll(needs[1..], allowed); }
  }

  /** Of needs in descending order the ones given up are a prefix. */
  lemma {:induction false} AtMostIsSuffix(needs: seq<Need>, allowed: int) returns (cut: nat)
    requires Descending(needs)
    ensures cut <= |needs| && AtMost(needs, allowed) == needs[cut..]
    ensures forall i :: 0 <= i < |needs| ==> (needs[i].need > allowed <==> i < cut)
    ensures Above(needs, allowed) == Ids(needs[..cut])
  {
    if needs == [] || needs[0].need <= allowed {
      AtMostAll(needs, allowed);
      cut := 0;
    } else {
      var c := AtMostIsSuffix(needs[1..], allowed);
      cut := c + 1;
      assert needs[cut..] == needs[1..][c..];
      assert Ids(needs[..cut]) == [needs[0].cid] + Ids(needs[1..][..c]);
      forall i | 0 <= i < |needs| ensures needs[i].need > allowed <==> i < cut {
        assert i > 0 ==> needs[i] == needs[1..][i - 1];
      }
    }
  }

  function Relaxed(ps: seq<PairView>, k: nat, allowed: int): seq<PairView>
    requires k < |ps|
  {
    var kept := AtMost(ps[k].needs, allowed);
    if kept == [] then ps[..k] + ps[k+1..] else ps[k := ps[k].(needs := kept)]
  }

  /** Pair k has weaker evidence than pair j, or equally weak evidence and a larger need. */
  ghost predicate Weaker(ps: seq<PairView>, k: nat, j: nat)
    requires AllNeed(ps) && k < |ps| && j < |ps|
  {
    || ps[k].strength < ps[j].strength
    || (ps[k].strength == ps[j].strength && ps[k].needs[0].need > ps[j].needs[0].need)
  }

  /** Position i of the cycle holds the pair that is relaxed: no pair on the cycle is weaker, and every pair at an
      earlier position is stronger. */
  ghost predicate WeakestAt(ps: seq<PairView>, ks: seq<nat>, i: nat)
    requires AllNeed(ps)
  {
    && i < |ks| && ks[i] < |ps|
    && (forall j :: 0 <= j < |ks| && ks[j] < |ps| ==> !Weaker(ps, ks[j], ks[i]))
    && (forall j :: 0 <= j < i && ks[j] < |ps| ==> Weaker(ps, ks[i], ks[j]))
  }

  /** The pair on the cycle that is relaxed: weakest evidence, then largest need, then first on the cycle. */
  ghost predicate Weakest(ps: seq<PairView>, ks: seq<nat>, k: nat)
    requires AllNeed(ps)
  {
    exists i :: 0 <= i < |ks| && ks[i] == k && WeakestAt(ps, ks, i)
  }

  /** One round of the loop: some negative cycle's weakest pair gives up what the cycle lacks. */
  ghost predicate RepairStep(bounds: seq<Ns>, ref: nat, ps: seq<PairView>, ps': seq<PairView>) {
    AllNeed(ps) && exists ks, k: nat ::
      && NegativeCycle(System(ps, bounds, ref), ks)
      && Weakest(ps, ks, k)
      && ps' == Relaxed(ps, k, ps[k].needs[0].need + Weight(System(ps, bounds, ref), ks))
  }

  lemma StepWitness(bounds: seq<Ns>, ref: nat, ps: seq<PairView>, ps': seq<PairView>, ks: seq<nat>, k: nat)
    requires AllNeed(ps) && NegativeCycle(System(ps, bounds, ref), ks) && Weakest(ps, ks, k)
    requires ps' == Relaxed(ps, k, ps[k].needs[0].need + Weight(System(ps, bounds, ref), ks))
    ensures RepairStep(bounds, ref, ps, ps')
  {
    hide AllNeed, NegativeCycle, Weakest, Relaxed, System, Weight;
  }

  ghost predicate Repairs(bounds: seq<Ns>, ref: nat, trace: seq<seq<PairView>>) {
    |trace| > 0 && forall i, j :: 0 <= i < |trace| && 0 <= j < |trace| && j == i + 1 ==>
      RepairStep(bounds, ref, trace[i], trace[j])
  }

  function Count(ps: seq<PairView>): nat {
    if ps == [] then 0 else Count(ps[..|ps|-1]) + |ps[|ps|-1].needs|
  }

  lemma CountSnoc(ps: seq<PairView>, p: PairView)
    ensures Count(ps + [p]) == Count(ps) + |p.needs|
  {
    assert (ps + [p])[..|ps|] == ps;
  }

  lemma {:induction false} CountUpdate(ps: seq<PairView>, k: nat, p: PairView)
    requires k < |ps|
    ensures Count(ps[k := p]) == Count(ps) - |ps[k].needs| + |p.needs|
    ensures Count(ps[..k] + ps[k+1..]) == Count(ps) - |ps[k].needs|
  {
    var m := |ps| - 1;
    if k == m {
      assert ps[k := p][..m] == ps[..m] && ps[..k] + ps[k+1..] == ps[..m];
    } else {
      CountUpdate(ps[..m], k, p);
      CountSnoc(ps[..m], ps[m]);
      CountSnoc(ps[..m][k := p], ps[m]);
      CountSnoc(ps[..m][..k] + ps[..m][k+1..], ps[m]);
      hide Count;
      assert ps == ps[..m] + [ps[m]];
      assert ps[k := p] == ps[..m][k := p] + [ps[m]];
      assert ps[..k] + ps[k+1..] == ps[..m][..k] + ps[..m][k+1..] + [ps[m]];
    }
  }

  /** A round gives up at least one need. */
  lemma {:induction false} RelaxedShrinks(n: nat, ps: seq<PairView>, k: nat, allowed: int)
    requires WellFormed(n, ps) && AllNeed(ps) && k < |ps| && allowed < ps[k].needs[0].need
    ensures WellFormed(n, Relaxed(ps, k, allowed)) && AllNeed(Relaxed(ps, k, allowed))
    ensures Count(Relaxed(ps, k, allowed)) < Count(ps)
  {
    var cut := AtMostIsSuffix(ps[k].needs, allowed);
    var p := ps[k].(needs := AtMost(ps[k].needs, allowed));
    assert Proper(n, ps[k]) && Proper(n, p);
    CountUpdate(ps, k, p);
    var ps' := Relaxed(ps, k, allowed);
    forall i | 0 <= i < |ps'| ensures Proper(n, ps'[i]) && ps'[i].needs != [] {
      assert ps'[i] == p || ps'[i] == ps[i] || (i + 1 < |ps| && ps'[i] == ps[i + 1]);
    }
  }
}
