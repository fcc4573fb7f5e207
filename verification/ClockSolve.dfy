/** `solve` and `analyze_clocks` of src/analysis/cp_clock.py: the repair loop and
    the tightest offset interval of every clock domain. */
module ClockSolve {
  import opened Options
  import opened ClockGraph
  import opened ClockRepair
  import opened ClockSearch
  import opened ClockBounds

  const REFERENCE: seq<string> := ["host", "0"]
  const SHIFTABLE: set<string> := {"opencl"}

  class Pair {
    const a: nat
    const b: nat
    var strength: int
    var needs: seq<Need>

    constructor (a: nat, b: nat, needs: seq<Need>, strength: int)
      ensures View() == PairView(a, b, needs, strength)
    {
      this.a, this.b, this.needs, this.strength := a, b, needs, strength;
    }

    function View(): PairView
      reads this
    {
      PairView(a, b, needs, strength)
    }
  }

  function Views(ps: seq<Pair>): (r: seq<PairView>)
    reads ps
    ensures |r| == |ps| && forall i :: 0 <= i < |ps| ==> r[i] == ps[i].View()
  {
    seq(|ps|, i requires 0 <= i < |ps| reads ps => ps[i].View())
  }

  /** An infinite lower end stands for no lower bound. */
  class ClockAnalysis {
    var lo: seq<Ns>
    var hi: seq<Ns>
    var shift: seq<int>
    var feasibleAsRecorded: bool
    var constraints: nat
    var contradicted: set<int>

    constructor (constraints: nat)
      ensures feasibleAsRecorded && contradicted == {} && this.constraints == constraints
    {
      lo, hi, shift := [], [], [];
      feasibleAsRecorded := true;
      this.constraints := constraints;
      contradicted := {};
    }

    method SetEnds(lo: seq<Ns>, hi: seq<Ns>, shift: seq<int>)
      modifies this`lo, this`hi, this`shift
      ensures this.lo == lo && this.hi == hi && this.shift == shift
    {
      this.lo, this.hi, this.shift := lo, hi, shift;
    }
  }

  // ---- what the repair leaves ----

  function Keep(ps: seq<PairView>): seq<PairView> {
    if ps == [] then []
    else Keep(ps[..|ps|-1]) + (if ps[|ps|-1].needs != [] then [ps[|ps|-1]] else [])
  }

  /** Each pair lost a prefix of its needs, and gone is exactly what was lost. */
  ghost predicate Remainder(before: seq<PairView>, after: seq<PairView>, gone: set<int>) {
    && |after| == |before|
    && (forall i :: 0 <= i < |before| ==> Suffix(before[i], after[i]))
    && (forall c :: c in gone <==> exists i :: 0 <= i < |before| && Lost(before[i], after[i], c))
  }

  ghost predicate Suffix(p: PairView, q: PairView) {
    && q.a == p.a && q.b == p.b && q.strength == p.strength
    && |q.needs| <= |p.needs| && q.needs == p.needs[|p.needs| - |q.needs|..]
  }

  ghost predicate Lost(p: PairView, q: PairView, c: int) {
    exists j :: 0 <= j < |p.needs| - |q.needs| && p.needs[j].cid == c
  }

  lemma {:induction false} KeepMembers(ps: seq<PairView>)
    ensures forall p :: p in Keep(ps) <==> p in ps && p.needs != []
  {
    if ps != [] {
      KeepMembers(ps[..|ps|-1]);
      assert ps == ps[..|ps|-1] + [ps[|ps|-1]];
    }
  }

  /** Pairs without needs constrain nothing. */
  lemma KeepMeets(x: seq<int>, ps: seq<PairView>)
    ensures MeetsNeeds(x, Keep(ps)) <==> MeetsNeeds(x, ps)
  {
    KeepMembers(ps);
    if MeetsNeeds(x, ps) {
      forall i | 0 <= i < |Keep(ps)| ensures exists m :: 0 <= m < |ps| && ps[m] == Keep(ps)[i] {
        assert Keep(ps)[i] in ps;
      }
    }
    if MeetsNeeds(x, Keep(ps)) {
      forall i | 0 <= i < |ps| && ps[i].needs != [] ensures exists m :: 0 <= m < |Keep(ps)| && Keep(ps)[m] == ps[i] {
        assert ps[i] in ps;
      }
    }
  }

  lemma KeepSolvable(n: nat, ps: seq<PairView>, bounds: seq<Ns>, ref: nat)
    ensures forall x :: Consistent(x, n, Keep(ps), bounds, ref) <==> Consistent(x, n, ps, bounds, ref)
    ensures Solvable(n, Keep(ps), bounds, ref) <==> Solvable(n, ps, bounds, ref)
  {
    forall x: seq<int> ensures Consistent(x, n, Keep(ps), bounds, ref) <==> Consistent(x, n, ps, bounds, ref) {
      KeepMeets(x, ps);
    }
  }

  /** The pairs of `alive`, in order. */
  ghost function KeepIn(ps: seq<Pair>, alive: set<Pair>): (r: seq<Pair>)
    ensures forall p | p in r :: p in ps && p in alive
    ensures forall p | p in ps && p in alive :: p in r
  {
    if ps == [] then []
    else if ps[|ps|-1] in alive then KeepIn(ps[..|ps|-1], alive) + [ps[|ps|-1]]
    else KeepIn(ps[..|ps|-1], alive)
  }

  ghost predicate Distinct(ps: seq<Pair>) {
    forall i, j :: 0 <= i < j < |ps| ==> ps[i] != ps[j]
  }

  lemma {:induction false} KeepInDistinct(ps: seq<Pair>, alive: set<Pair>)
    requires Distinct(ps)
    ensures Distinct(KeepIn(ps, alive))
  {
    if ps != [] { KeepInDistinct(ps[..|ps|-1], alive); }
  }

  lemma {:induction false} KeepInViews(ps: seq<Pair>, alive: set<Pair>)
    requires forall p :: p in ps ==> (p in alive <==> p.needs != [])
    ensures Views(KeepIn(ps, alive)) == Keep(Views(ps))
  {
    if ps != [] {
      var front, last := ps[..|ps|-1], ps[|ps|-1];
      KeepInViews(front, alive);
      assert ps == front + [last] && last in ps;
      ViewsSnoc(front, last);
      ViewsSnoc(KeepIn(front, alive), last);
      KeepSnoc(Views(front), last.View());
      hide Views, Keep;
    }
  }

  lemma ViewsSnoc(ps: seq<Pair>, p: Pair)
    ensures Views(ps + [p]) == Views(ps) + [p.View()]
  {
  }

  lemma KeepSnoc(vs: seq<PairView>, v: PairView)
    ensures Keep(vs + [v]) == if v.needs != [] then Keep(vs) + [v] else Keep(vs)
  {
    assert (vs + [v])[..|vs|] == vs;
  }

  lemma RemoveConcat<T>(a: seq<T>, b: seq<T>, k: nat)
    requires k < |a|
    ensures (a + b)[..k] + (a + b)[k+1..] == a[..k] + a[k+1..] + b
  {}

  lemma KeepInStep(ps: seq<Pair>, alive: set<Pair>)
    requires ps != []
    ensures var m := |ps| - 1;
      KeepIn(ps, alive) == KeepIn(ps[..m], alive) + (if ps[m] in alive then [ps[m]] else [])
  {}

  lemma {:induction false} KeepInRemove(ps: seq<Pair>, alive: set<Pair>, k: nat)
    requires Distinct(ps) && k < |KeepIn(ps, alive)|
    ensures var l := KeepIn(ps, alive); KeepIn(ps, alive - {l[k]}) == l[..k] + l[k+1..]
  {
    if ps != [] {
      hide KeepIn;
      var l, m := KeepIn(ps, alive), |ps| - 1;
      KeepInStep(ps, alive);
      KeepInStep(ps, alive - {l[k]});
      var rest := KeepIn(ps[..m], alive);
      var tail := if ps[m] in alive then [ps[m]] else [];
      if k < |rest| {
        RemoveConcat(rest, tail, k);
        assert l[k] == rest[k] && rest[k] in rest;
        assert ps[m] != l[k];
        KeepInRemove(ps[..m], alive, k);
      } else {
        assert l[k] == ps[m] && ps[m] !in ps[..m];
        assert l[..k] == rest && l[k+1..] == [];
        KeepInSame(ps[..m], alive, alive - {ps[m]});
      }
    }
  }

  lemma {:induction false} KeepInSame(ps: seq<Pair>, alive: set<Pair>, alive': set<Pair>)
    requires forall p :: p in ps ==> (p in alive <==> p in alive')
    ensures KeepIn(ps, alive) == KeepIn(ps, alive')
  {
    if ps != [] { KeepInSame(ps[..|ps|-1], alive, alive'); }
  }

  function IdSet(ids: seq<int>): set<int> {
    set c | c in ids
  }

  lemma RemainderStart(ps: seq<PairView>)
    ensures Remainder(ps, ps, {})
  {}

  lemma RemainderStep(before: seq<PairView>, mid: seq<PairView>, gone: set<int>, m: nat, cut: nat, ids: seq<int>)
    requires Remainder(before, mid, gone) && m < |mid| && cut <= |mid[m].needs| && ids == Ids(mid[m].needs[..cut])
    ensures Remainder(before, mid[m := mid[m].(needs := mid[m].needs[cut..])], gone + IdSet(ids))
  {
    var after, gone' := mid[m := mid[m].(needs := mid[m].needs[cut..])], gone + IdSet(ids);
    assert Suffix(before[m], mid[m]);
    assert Suffix(before[m], after[m]) by {
      var b, base := before[m].needs, |before[m].needs| - |mid[m].needs|;
      assert b[base..][cut..] == b[base + cut..];
    }
    assert forall i :: 0 <= i < |before| && i != m ==> after[i] == mid[i];
    hide Suffix, Lost;
    forall c | c in gone' ensures exists i :: 0 <= i < |before| && Lost(before[i], after[i], c) {
      LostStep(before[m], mid[m], after[m], cut, ids, c);
      if c in gone {
        var i :| 0 <= i < |before| && Lost(before[i], mid[i], c);
        assert Lost(before[i], after[i], c);
      }
    }
    forall c, i | 0 <= i < |before| && Lost(before[i], after[i], c) ensures c in gone' {
      LostStep(before[m], mid[m], after[m], cut, ids, c);
      assert i == m || Lost(before[i], mid[i], c);
    }
  }

  lemma SuffixAt(p: PairView, q: PairView, j: nat)
    requires Suffix(p, q) && j < |q.needs|
    ensures |q.needs| <= |p.needs| && p.needs[|p.needs| - |q.needs| + j] == q.needs[j]
  {
  }

  lemma IdAt(needs: seq<Need>, cut: nat, j: nat)
    requires j < cut <= |needs|
    ensures j < |Ids(needs[..cut])| && Ids(needs[..cut])[j] == needs[j].cid
  {
  }

  /** What is lost after a cut was lost before it or has just been cut off. */
  lemma LostOnly(p: PairView, q: PairView, q': PairView, cut: nat, ids: seq<int>, c: int)
    requires Suffix(p, q) && cut <= |q.needs| && ids == Ids(q.needs[..cut]) && q' == q.(needs := q.needs[cut..])
    requires Lost(p, q', c)
    ensures Lost(p, q, c) || c in IdSet(ids)
  {
    var base: nat := |p.needs| - |q.needs|;
    var j: nat :| j < |p.needs| - |q'.needs| && p.needs[j].cid == c;
    if j >= base {
      var l: nat := j - base;
      SuffixAt(p, q, l);
      IdAt(q.needs, cut, l);
      hide Suffix, Lost, Ids;
      assert ids[l] == c && c in ids;
    }
  }

  lemma LostAlso(p: PairView, q: PairView, q': PairView, cut: nat, ids: seq<int>, c: int)
    requires Suffix(p, q) && cut <= |q.needs| && ids == Ids(q.needs[..cut]) && q' == q.(needs := q.needs[cut..])
    requires Lost(p, q, c) || c in IdSet(ids)
    ensures Lost(p, q', c)
  {
    if Lost(p, q, c) {
      var j :| 0 <= j < |p.needs| - |q.needs| && p.needs[j].cid == c;
      assert j < |p.needs| - |q'.needs|;
    } else {
      var l: nat :| l < |ids| && ids[l] == c;
      assert |ids| == cut;
      SuffixAt(p, q, l);
      IdAt(q.needs, cut, l);
      hide Suffix, Ids;
      assert p.needs[|p.needs| - |q.needs| + l].cid == c;
    }
  }

  lemma LostStep(p: PairView, q: PairView, q': PairView, cut: nat, ids: seq<int>, c: int)
    requires Suffix(p, q) && cut <= |q.needs| && ids == Ids(q.needs[..cut]) && q' == q.(needs := q.needs[cut..])
    ensures Lost(p, q', c) <==> Lost(p, q, c) || c in IdSet(ids)
  {
    hide Suffix, Lost, Ids, IdSet;
    if Lost(p, q', c) { LostOnly(p, q, q', cut, ids, c); }
    if Lost(p, q, c) || c in IdSet(ids) { LostAlso(p, q, q', cut, ids, c); }
  }

  // ---- the loop ----

  /** Between rounds: the live pairs are those with needs left, and contradicted is what was lost. */
  ghost predicate Repairing(n: nat, pairs: seq<Pair>, live: seq<Pair>, alive: set<Pair>, before: seq<PairView>,
        gone: set<int>)
    reads pairs
  {
    && Distinct(pairs) && live == KeepIn(pairs, alive)
    && (forall p | p in pairs :: p in alive <==> p.needs != [])
    && WellFormed(n, Views(pairs))
    && Remainder(before, Views(pairs), gone)
  }

  lemma LiveProper(n: nat, pairs: seq<Pair>, live: seq<Pair>, alive: set<Pair>, before: seq<PairView>, gone: set<int>)
    requires Repairing(n, pairs, live, alive, before, gone)
    ensures WellFormed(n, Views(live)) && AllNeed(Views(live)) && forall p | p in live :: p in pairs
  {
    forall i | 0 <= i < |live| ensures Proper(n, Views(live)[i]) && Views(live)[i].needs != [] {
      assert live[i] in pairs;
      var j :| 0 <= j < |pairs| && pairs[j] == live[i];
      assert Views(pairs)[j] == Views(live)[i];
    }
  }

  lemma Repaired(n: nat, pairs: seq<Pair>, live: seq<Pair>, alive: set<Pair>, before: seq<PairView>, gone: set<int>)
    requires Repairing(n, pairs, live, alive, before, gone)
    ensures WellFormed(n, Views(pairs)) && Remainder(before, Views(pairs), gone) && Views(live) == Keep(Views(pairs))
  {
    KeepInViews(pairs, alive);
  }

  lemma Locate(n: nat, pairs: seq<Pair>, live: seq<Pair>, alive: set<Pair>, before: seq<PairView>, gone: set<int>,
        k: nat)
    returns (m: nat)
    requires Repairing(n, pairs, live, alive, before, gone) && k < |live|
    ensures m < |pairs| && pairs[m] == live[k] && Descending(live[k].needs)
  {
    assert live[k] in pairs;
    m :| 0 <= m < |pairs| && pairs[m] == live[k];
    assert Proper(n, Views(pairs)[m]);
  }

  method BuildSystem(live: seq<Pair>, bounds: seq<Ns>, ref: nat) returns (edges: seq<Edge>, npairs: nat)
    requires AllNeed(Views(live))
    ensures edges == System(Views(live), bounds, ref) && npairs == |live|
  {
    ghost var vs := Views(live);
    edges := [];
    for i := 0 to |live|
      invariant edges == PairEdges(vs)[..i]
    {
      assert vs[i] == live[i].View();
      edges := edges + [Edge(live[i].b, live[i].a, -live[i].needs[0].need)];
    }
    npairs := |edges|;
    for i := 0 to |bounds|
      invariant edges == PairEdges(vs) + BoundEdges(bounds, ref, i)
    {
      if i != ref && bounds[i].Fin? {
        edges := edges + [Edge(ref, i, bounds[i].val)];
        edges := edges + [Edge(i, ref, bounds[i].val)];
      }
    }
  }

  /** The pair to relax among those on the cycle: the first of the weakest ones. */
  method PickWeakest(live: seq<Pair>, cyc: seq<nat>) returns (k: nat)
    requires AllNeed(Views(live)) && exists i :: 0 <= i < |cyc| && cyc[i] < |live|
    ensures k < |live| && k in cyc && Weakest(Views(live), cyc, k)
  {
    ghost var vs, first: nat := Views(live), 0;
    var found := false;
    k := 0;
    for i := 0 to |cyc|
      invariant !found ==> forall j :: 0 <= j < i ==> cyc[j] >= |live|
      invariant found ==> first < i && k == cyc[first] && WeakestAt(vs, cyc[..i], first)
    {
      var c := cyc[i];
      if c < |live| {
        assert vs[c] == live[c].View();
        if !found {
          found, k, first := true, c, i;
        } else {
          assert vs[k] == live[k].View();
          if live[c].strength < live[k].strength ||
             (live[c].strength == live[k].strength && live[c].needs[0].need > live[k].needs[0].need)
          {
            k, first := c, i;
          }
        }
      }
    }
    assert cyc[..|cyc|] == cyc;
  }

  /** An emptied pair leaves the list. */
  method Unlist(ghost pairs: seq<Pair>, live: seq<Pair>, ghost alive: set<Pair>, k: nat)
    returns (live': seq<Pair>, ghost alive': set<Pair>)
    requires Distinct(pairs) && live == KeepIn(pairs, alive) && k < |live|
    requires forall p | p in pairs && p != live[k] :: p in alive <==> p.needs != []
    ensures live' == KeepIn(pairs, alive') && forall p | p in pairs :: p in alive' <==> p.needs != []
    ensures Views(live') == if live[k].needs == [] then Views(live)[..k] + Views(live)[k+1..] else Views(live)
  {
    live', alive' := live, alive;
    if live[k].needs == [] {
      KeepInRemove(pairs, alive, k);
      alive' := alive - {live[k]};
      live' := live[..k] + live[k+1..];
    }
  }

  /** Drops the needs of a pair above `allowed` and records them. */
  method CutNeeds(ghost pairs: seq<Pair>, ghost m: nat, live: seq<Pair>, k: nat, allowed: int, out: ClockAnalysis)
    requires Distinct(pairs) && Distinct(live) && m < |pairs| && k < |live| && pairs[m] == live[k]
    modifies pairs`needs, out`contradicted
    ensures var q := old(Views(pairs))[m].(needs := AtMost(old(Views(pairs))[m].needs, allowed));
      Views(pairs) == old(Views(pairs))[m := q] && Views(live) == old(Views(live))[k := q]
    ensures live[k].needs == AtMost(old(live[k].needs), allowed)
    ensures forall p | p in pairs && p != live[k] :: p.needs == old(p.needs)
    ensures out.contradicted == old(out.contradicted) + IdSet(Above(old(Views(pairs))[m].needs, allowed))
  {
    hide Views;
    var p := live[k];
    ghost var vp, vl, q := Views(pairs), Views(live), p.View().(needs := AtMost(p.needs, allowed));
    assert vp[m] == p.View() == vl[k];
    out.contradicted := out.contradicted + IdSet(Above(p.needs, allowed));
    p.needs := AtMost(p.needs, allowed);
    assert Views(pairs) == vp[m := q] && Views(live) == vl[k := q];
  }

  /** Cutting one pair's needs keeps the invariant, with what it lost recorded. */
  lemma CutRemains(n: nat, before: seq<PairView>, mid: seq<PairView>, gone: set<int>, m: nat, allowed: int)
    requires WellFormed(n, mid) && Remainder(before, mid, gone) && m < |mid|
    ensures var after := mid[m := mid[m].(needs := AtMost(mid[m].needs, allowed))];
      WellFormed(n, after) && Remainder(before, after, gone + IdSet(Above(mid[m].needs, allowed)))
  {
    assert Proper(n, mid[m]);
    var cut := AtMostIsSuffix(mid[m].needs, allowed);
    RemainderStep(before, mid, gone, m, cut, Above(mid[m].needs, allowed));
    var after := mid[m := mid[m].(needs := mid[m].needs[cut..])];
    forall i | 0 <= i < |mid| ensures Proper(n, after[i]) {
      assert Proper(n, mid[i]);
    }
  }

  /** Relaxes live[k] and records what it gave up; an emptied pair leaves the list. */
  method Relax(n: nat, ghost pairs: seq<Pair>, live: seq<Pair>, ghost alive: set<Pair>, ghost before: seq<PairView>,
               k: nat, allowed: int, out: ClockAnalysis)
    returns (live': seq<Pair>, ghost alive': set<Pair>)
    requires Repairing(n, pairs, live, alive, before, out.contradicted) && k < |live|
    modifies pairs`needs, out`contradicted
    ensures Repairing(n, pairs, live', alive', before, out.contradicted)
    ensures Views(live') == Relaxed(old(Views(live)), k, allowed)
  {
    hide Remainder, WellFormed, KeepIn, Above, AtMost, IdSet, Descending, Proper, Distinct, Views;
    ghost var m := Locate(n, pairs, live, alive, before, out.contradicted, k);
    KeepInDistinct(pairs, alive);
    CutRemains(n, before, Views(pairs), out.contradicted, m, allowed);
    assert Views(pairs)[m] == live[k].View() == Views(live)[k];
    CutNeeds(pairs, m, live, k, allowed, out);
    live', alive' := Unlist(pairs, live, alive, k);
  }

  /** The pairs that have needs. */
  method Listed(ghost n: nat, pairs: seq<Pair>) returns (live: seq<Pair>, ghost alive: set<Pair>)
    requires Distinct(pairs) && WellFormed(n, Views(pairs))
    ensures Repairing(n, pairs, live, alive, Views(pairs), {})
  {
    RemainderStart(Views(pairs));
    alive := set p | p in pairs && p.needs != [];
    live := [];
    for i := 0 to |pairs|
      invariant live == KeepIn(pairs[..i], alive)
    {
      assert pairs[..i+1][..i] == pairs[..i];
      if pairs[i].needs != [] { live := live + [pairs[i]]; }
    }
    assert pairs[..|pairs|] == pairs;
  }

  method CountNeeds(live: seq<Pair>) returns (total: nat)
    ensures total == Count(Views(live))
  {
    ghost var vs := Views(live);
    total := 0;
    for i := 0 to |live|
      invariant total == Count(vs[..i])
    {
      assert vs[..i+1][..i] == vs[..i] && vs[i] == live[i].View();
      total := total + |live[i].needs|;
    }
    assert vs[..|live|] == vs;
  }

  method CycleWeight(edges: seq<Edge>, cyc: seq<nat>) returns (w: int)
    requires forall i :: 0 <= i < |cyc| ==> cyc[i] < |edges|
    ensures w == Weight(edges, cyc)
  {
    w := 0;
    for i := 0 to |cyc|
      invariant w == Weight(edges, cyc[..i])
    {
      assert cyc[..i+1][..i] == cyc[..i];
      w := w + edges[cyc[i]].w;
    }
    assert cyc[..|cyc|] == cyc;
  }

  /** One round on a negative cycle: strictly fewer needs remain, and the step is a repair step. */
  method Round(n: nat, bounds: seq<Ns>, ref: nat, ghost pairs: seq<Pair>, live: seq<Pair>, ghost alive: set<Pair>,
               ghost before: seq<PairView>, edges: seq<Edge>, cyc: seq<nat>, out: ClockAnalysis)
    returns (live': seq<Pair>, ghost alive': set<Pair>)
    requires Repairing(n, pairs, live, alive, before, out.contradicted)
    requires |bounds| == n && NonNegative(bounds) && AllNeed(Views(live))
    requires edges == System(Views(live), bounds, ref) && NegativeCycle(edges, cyc)
    modifies pairs`needs, out`contradicted
    ensures Repairing(n, pairs, live', alive', before, out.contradicted)
    ensures RepairStep(bounds, ref, old(Views(live)), Views(live'))
    ensures Count(Views(live')) < old(Count(Views(live)))
  {
    hide Repairing, Relaxed, System, Weakest, RepairStep, Count, NegativeCycle, WellFormed, AllNeed, NonNegative;
    ghost var vs := Views(live);
    CycleHasPair(vs, bounds, ref, cyc);
    LiveProper(n, pairs, live, alive, before, out.contradicted);
    var k := PickWeakest(live, cyc);
    var deficit := CycleWeight(edges, cyc);
    assert vs[k] == live[k].View();
    var allowed := live[k].needs[0].need + deficit;
    RelaxedShrinks(n, vs, k, allowed);
    live', alive' := Relax(n, pairs, live, alive, before, k, allowed, out);
    StepWitness(bounds, ref, vs, Views(live'), cyc, k);
  }

  /** The system of the live pairs, and a negative cycle of it when it cannot be solved. */
  method Check(n: nat, live: seq<Pair>, bounds: seq<Ns>, ref: nat) returns (edges: seq<Edge>, cyc: Option<seq<nat>>)
    requires WellFormed(n, Views(live)) && AllNeed(Views(live)) && |bounds| == n && ref < n && NonNegative(bounds)
    ensures edges == System(Views(live), bounds, ref)
    ensures cyc.None? <==> Solvable(n, Views(live), bounds, ref)
    ensures cyc.Some? ==> NegativeCycle(edges, cyc.value)
  {
    ghost var vs := Views(live);
    FeasibleConsistent(n, vs, bounds, ref);
    var npairs;
    edges, npairs := BuildSystem(live, bounds, ref);
    var r := Shortest(n, edges, None);
    cyc := match r case Distances(_) => None case Cycle(ks) => Some(ks);
  }

  lemma RepairsMore(bounds: seq<Ns>, ref: nat, trace: seq<seq<PairView>>, vs: seq<PairView>)
    requires Repairs(bounds, ref, trace) && trace != [] && RepairStep(bounds, ref, trace[|trace|-1], vs)
    ensures Repairs(bounds, ref, trace + [vs])
  {
    hide RepairStep;
  }

  /** The repair after some rounds: a trace of repair steps, feasible as recorded until the first of them. */
  ghost predicate Progress(n: nat, bounds: seq<Ns>, ref: nat, before: seq<PairView>, now: seq<PairView>,
        vs: seq<PairView>, trace: seq<seq<PairView>>, feasible: bool, gone: set<int>, round: nat)
  {
    && Repairs(bounds, ref, trace) && trace[0] == Keep(before) && trace[|trace|-1] == vs
    && (feasible <==> round == 0)
    && (round == 0 ==> vs == Keep(before) && now == before && gone == {})
    && (round > 0 ==> !Solvable(n, before, bounds, ref))
  }

  lemma ProgressStart(n: nat, bounds: seq<Ns>, ref: nat, before: seq<PairView>)
    ensures Progress(n, bounds, ref, before, before, Keep(before), [Keep(before)], true, {}, 0)
  {
  }

  lemma ProgressStep(n: nat, bounds: seq<Ns>, ref: nat, before: seq<PairView>, now: seq<PairView>, vs: seq<PairView>,
                     trace: seq<seq<PairView>>, feasible: bool, gone: set<int>, round: nat,
                     now': seq<PairView>, vs': seq<PairView>, gone': set<int>)
    requires Progress(n, bounds, ref, before, now, vs, trace, feasible, gone, round)
    requires RepairStep(bounds, ref, vs, vs') && !Solvable(n, vs, bounds, ref)
    ensures Progress(n, bounds, ref, before, now', vs', trace + [vs'], false, gone', round + 1)
  {
    hide Solvable, RepairStep, Keep;
    KeepSolvable(n, before, bounds, ref);
    RepairsMore(bounds, ref, trace, vs');
  }

  /** A finished repair. */
  ghost predicate IsRepair(n: nat, bounds: seq<Ns>, ref: nat, before: seq<PairView>, now: seq<PairView>,
        vs: seq<PairView>, trace: seq<seq<PairView>>, feasible: bool, gone: set<int>)
  {
    && Remainder(before, now, gone) && WellFormed(n, now)
    && AllNeed(vs) && vs == Keep(now) && WellFormed(n, vs)
    && Solvable(n, now, bounds, ref)
    && (feasible <==> Solvable(n, before, bounds, ref))
    && (feasible ==> now == before && gone == {})
    && Repairs(bounds, ref, trace) && trace[0] == Keep(before) && trace[|trace|-1] == Keep(now)
  }

  lemma ProgressDone(n: nat, bounds: seq<Ns>, ref: nat, before: seq<PairView>, now: seq<PairView>, vs: seq<PairView>,
                     trace: seq<seq<PairView>>, feasible: bool, gone: set<int>, round: nat)
    requires Progress(n, bounds, ref, before, now, vs, trace, feasible, gone, round)
    requires Remainder(before, now, gone) && WellFormed(n, now) && AllNeed(vs) && vs == Keep(now) && WellFormed(n, vs)
    requires Solvable(n, vs, bounds, ref)
    ensures IsRepair(n, bounds, ref, before, now, vs, trace, feasible, gone)
  {
    hide Solvable, Keep, Remainder, WellFormed, AllNeed, Repairs;
    KeepSolvable(n, now, bounds, ref);
  }

  /** Between rounds, with what they have done so far. */
  ghost predicate Underway(n: nat, bounds: seq<Ns>, ref: nat, pairs: seq<Pair>, live: seq<Pair>, alive: set<Pair>,
        before: seq<PairView>, trace: seq<seq<PairView>>, feasible: bool, gone: set<int>, round: nat)
    reads pairs
  {
    && |bounds| == n && ref < n && NonNegative(bounds) && Repairing(n, pairs, live, alive, before, gone)
    && Progress(n, bounds, ref, before, Views(pairs), Views(live), trace, feasible, gone, round)
  }

  /** One round, unless the live pairs can be met. */
  method Advance(n: nat, bounds: seq<Ns>, ref: nat, ghost pairs: seq<Pair>, live: seq<Pair>, ghost alive: set<Pair>,
        ghost before: seq<PairView>, ghost trace: seq<seq<PairView>>, ghost round: nat, out: ClockAnalysis)
    returns (done: bool, live': seq<Pair>, ghost alive': set<Pair>, ghost trace': seq<seq<PairView>>)
    requires Underway(n, bounds, ref, pairs, live, alive, before, trace, out.feasibleAsRecorded,
      out.contradicted, round)
    modifies pairs`needs, out`contradicted, out`feasibleAsRecorded
    ensures done ==>
      IsRepair(n, bounds, ref, before, Views(pairs), Views(live'), trace', out.feasibleAsRecorded, out.contradicted)
    ensures !done ==>
      Underway(n, bounds, ref, pairs, live', alive', before, trace', out.feasibleAsRecorded, out.contradicted,
      round + 1)
    ensures !done ==> Count(Views(live')) < old(Count(Views(live)))
  {
    hide Repairing, Progress, IsRepair, NonNegative, Count, Views, RepairStep, Solvable, WellFormed, AllNeed,
      NegativeCycle, System;
    live', alive', trace' := live, alive, trace;
    LiveProper(n, pairs, live, alive, before, out.contradicted);
    var edges, cyc := Check(n, live, bounds, ref);
    done := cyc.None?;
    if done {
      Repaired(n, pairs, live, alive, before, out.contradicted);
      ProgressDone(n, bounds, ref, before, Views(pairs), Views(live), trace, out.feasibleAsRecorded,
        out.contradicted, round);
    } else {
      ghost var now, vs, feasible, gone := Views(pairs), Views(live), out.feasibleAsRecorded, out.contradicted;
      out.feasibleAsRecorded := false;
      live', alive' := Round(n, bounds, ref, pairs, live, alive, before, edges, cyc.value, out);
      ProgressStep(n, bounds, ref, before, now, vs, trace, feasible, gone, round, Views(pairs), Views(live'),
        out.contradicted);
      trace' := trace + [Views(live')];
    }
  }

  /** The rounds: needs are dropped until the live pairs can be met, and there are never more rounds than needs. */
  method RepairRounds(n: nat, bounds: seq<Ns>, ref: nat, ghost pairs: seq<Pair>, live0: seq<Pair>,
        ghost alive0: set<Pair>, ghost trace0: seq<seq<PairView>>, out: ClockAnalysis)
    returns (live: seq<Pair>, ghost trace: seq<seq<PairView>>)
    requires Underway(n, bounds, ref, pairs, live0, alive0, Views(pairs), trace0, out.feasibleAsRecorded,
      out.contradicted, 0)
    modifies pairs`needs, out`contradicted, out`feasibleAsRecorded
    ensures IsRepair(n, bounds, ref, old(Views(pairs)), Views(pairs), Views(live), trace, out.feasibleAsRecorded,
      out.contradicted)
  {
    hide *;
    ghost var before := Views(pairs);
    ghost var alive := alive0;
    live, trace := live0, trace0;
    var total := CountNeeds(live);
    for round := 0 to total + 1
      invariant Count(Views(live)) + round <= total
      invariant Underway(n, bounds, ref, pairs, live, alive, before, trace, out.feasibleAsRecorded,
        out.contradicted, round)
    {
      var done;
      done, live, alive, trace := Advance(n, bounds, ref, pairs, live, alive, before, trace, round, out);
      if done { return; }
    }
    assert false;
  }

  /** Drops needs until the system is feasible. */
  method Repair(n: nat, bounds: seq<Ns>, ref: nat, pairs: seq<Pair>, out: ClockAnalysis)
    returns (live: seq<Pair>, ghost trace: seq<seq<PairView>>)
    requires Distinct(pairs) && WellFormed(n, Views(pairs)) && |bounds| == n && ref < n && NonNegative(bounds)
    requires out.contradicted == {} && out.feasibleAsRecorded
    modifies pairs`needs, out`contradicted, out`feasibleAsRecorded
    ensures Remainder(old(Views(pairs)), Views(pairs), out.contradicted) && WellFormed(n, Views(pairs))
    ensures AllNeed(Views(live)) && Views(live) == Keep(Views(pairs)) && WellFormed(n, Views(live))
    ensures Solvable(n, Views(pairs), bounds, ref)
    ensures out.feasibleAsRecorded <==> Solvable(n, old(Views(pairs)), bounds, ref)
    ensures out.feasibleAsRecorded ==> Views(pairs) == old(Views(pairs)) && out.contradicted == {}
    ensures Repairs(bounds, ref, trace) && trace[0] == Keep(old(Views(pairs))) && trace[|trace|-1] == Keep(Views(pairs))
  {
    hide Repairing, RepairStep, Count, Keep, Solvable, WellFormed, AllNeed, Remainder, Distinct, NonNegative, Views,
      Progress, Repairs;
    ghost var alive;
    live, alive := Listed(n, pairs);
    Repaired(n, pairs, live, alive, Views(pairs), {});
    ProgressStart(n, bounds, ref, Views(pairs));
    live, trace := RepairRounds(n, bounds, ref, pairs, live, alive, [Views(live)], out);
  }

  // ---- the intervals ----

  ghost predicate UpperMet(n: nat, ps: seq<PairView>, bounds: seq<Ns>, ref: nat, hi: seq<Ns>, far: int) {
    exists x :: Consistent(x, n, ps, bounds, ref) && AtUpper(x, hi, far)
  }

  ghost predicate LowerMet(n: nat, ps: seq<PairView>, bounds: seq<Ns>, ref: nat, lo: seq<Ns>, far: int) {
    exists x :: Consistent(x, n, ps, bounds, ref) && AtLower(x, lo, far)
  }

  /** [lo, hi] is exactly what the pairs and bounds allow: every consistent assignment of offsets lies
      inside, one has all finite upper ends at once, one all finite lower ends. */
  ghost predicate Tightest(n: nat, ps: seq<PairView>, bounds: seq<Ns>, ref: nat, lo: seq<Ns>, hi: seq<Ns>) {
    && |lo| == |hi| == n
    && (forall x :: Consistent(x, n, ps, bounds, ref) ==> Between(x, lo, hi))
    && (forall far: int :: UpperMet(n, ps, bounds, ref, hi, far))
    && (forall far: int :: LowerMet(n, ps, bounds, ref, lo, far))
  }

  lemma ExactIsTightest(n: nat, ps: seq<PairView>, bounds: seq<Ns>, ref: nat, lo: seq<Ns>, hi: seq<Ns>)
    requires WellFormed(n, ps) && AllNeed(ps) && |bounds| == n && ref < n && NonNegative(bounds)
    requires InRange(n, System(ps, bounds, ref)) && Exact(n, System(ps, bounds, ref), ref, lo, hi)
    ensures Tightest(n, ps, bounds, ref, lo, hi)
  {
    hide System, Between, AtUpper, AtLower;
    var edges := System(ps, bounds, ref);
    forall x: seq<int> | |x| == n && x[ref] == 0
      ensures Anchored(x, n, edges, ref) <==> Consistent(x, n, ps, bounds, ref)
    {
      SystemMeans(x, n, ps, bounds, ref);
    }
    forall far: int ensures UpperMet(n, ps, bounds, ref, hi, far) {
      assert UpperReached(n, edges, ref, hi, far);
    }
    forall far: int ensures LowerMet(n, ps, bounds, ref, lo, far) {
      assert LowerReached(n, edges, ref, lo, far);
    }
  }

  lemma TightestKeep(n: nat, ps: seq<PairView>, bounds: seq<Ns>, ref: nat, lo: seq<Ns>, hi: seq<Ns>)
    requires Tightest(n, Keep(ps), bounds, ref, lo, hi)
    ensures Tightest(n, ps, bounds, ref, lo, hi)
  {
    hide Between, AtUpper, AtLower, Consistent, Keep;
    KeepSolvable(n, ps, bounds, ref);
    forall far: int ensures UpperMet(n, ps, bounds, ref, hi, far) {
      assert UpperMet(n, Keep(ps), bounds, ref, hi, far);
    }
    forall far: int ensures LowerMet(n, ps, bounds, ref, lo, far) {
      assert LowerMet(n, Keep(ps), bounds, ref, lo, far);
    }
  }

  /** Two searches from the reference, the second over the reversed edges. */
  method Intervals(n: nat, ref: nat, edges: seq<Edge>) returns (lo: seq<Ns>, hi: seq<Ns>)
    requires InRange(n, edges) && ref < n && Feasible(n, edges)
    ensures Exact(n, edges, ref, lo, hi)
  {
    var up := Shortest(n, edges, Some(ref));
    ReversedFeasible(n, edges);
    var rev := Reversed(edges);
    var down := Shortest(n, rev, Some(ref));
    SolutionShortest(n, edges, ref, up.d);
    SolutionShortest(n, rev, ref, down.d);
    ShortestExact(n, edges, ref, up.d, down.d);
    lo, hi := NegatedNs(down.d), up.d;
  }

  predicate Inside(x: int, lo: Ns, hi: Ns) {
    (lo.Fin? ==> lo.val <= x) && (hi.Fin? ==> x <= hi.val)
  }

  function Minus(x: Ns, y: Ns): Ns {
    if x.Fin? && y.Fin? then Fin(x.val - y.val) else Inf
  }

  /** The interval of delta_a - delta_b: its lower and upper end. */
  function OffsetRange(lo: seq<Ns>, hi: seq<Ns>, a: nat, b: nat): (Ns, Ns)
    requires |lo| == |hi| && a < |lo| && b < |lo|
  {
    (Minus(lo[a], hi[b]), Minus(hi[a], lo[b]))
  }

  function Abs(x: int): int {
    if x < 0 then -x else x
  }

  ghost predicate Ordered(lo: seq<Ns>, hi: seq<Ns>) {
    forall i :: 0 <= i < |lo| && i < |hi| && lo[i].Fin? && hi[i].Fin? ==> lo[i].val <= hi[i].val
  }

  /** The least shift that takes 0 into [lo, hi]. */
  ghost predicate LeastShift(shift: int, lo: Ns, hi: Ns) {
    Inside(shift, lo, hi) && forall s: int :: Inside(s, lo, hi) ==> Abs(shift) <= Abs(s)
  }

  /** Only domains without a bound or correction of their own are shifted. */
  ghost predicate LeastShifts(keys: seq<seq<string>>, lo: seq<Ns>, hi: seq<Ns>, shift: seq<int>) {
    |lo| == |hi| == |shift| == |keys| && forall i :: 0 <= i < |keys| ==>
      keys[i] != [] && if keys[i][0] in SHIFTABLE then LeastShift(shift[i], lo[i], hi[i]) else shift[i] == 0
  }

  function ShiftOf(key: seq<string>, lo: Ns, hi: Ns): (shift: int)
    requires key != []
    requires lo.Fin? && hi.Fin? ==> lo.val <= hi.val
    ensures if key[0] in SHIFTABLE then LeastShift(shift, lo, hi) else shift == 0
  {
    if key[0] in SHIFTABLE && !Inside(0, lo, hi)
    then if lo.Fin? && lo.val > 0 then lo.val else if hi.Fin? then hi.val else 0
    else 0
  }

  /** The reference domain's index, 0 when it is not among the keys. */
  method RefIndex(keys: seq<seq<string>>) returns (ref: nat)
    requires keys != []
    ensures ref < |keys|
    ensures REFERENCE in keys ==> keys[ref] == REFERENCE && REFERENCE !in keys[..ref]
    ensures REFERENCE !in keys ==> ref == 0
  {
    for i := 0 to |keys|
      invariant REFERENCE !in keys[..i]
    {
      if keys[i] == REFERENCE { return i; }
    }
    ref := 0;
  }

  lemma EndsOrdered(n: nat, ps: seq<PairView>, bounds: seq<Ns>, ref: nat, lo: seq<Ns>, hi: seq<Ns>)
    requires Tightest(n, ps, bounds, ref, lo, hi)
    ensures |lo| == |hi| == n && Ordered(lo, hi)
  {
    assert UpperMet(n, ps, bounds, ref, hi, 0);
    var x :| Consistent(x, n, ps, bounds, ref) && AtUpper(x, hi, 0);
  }

  /** The ends of every domain under the live pairs. */
  method Ends(n: nat, live: seq<Pair>, bounds: seq<Ns>, ref: nat) returns (lo: seq<Ns>, hi: seq<Ns>)
    requires WellFormed(n, Views(live)) && AllNeed(Views(live)) && |bounds| == n && ref < n && NonNegative(bounds)
    requires Solvable(n, Views(live), bounds, ref)
    ensures Tightest(n, Views(live), bounds, ref, lo, hi)
  {
    hide Exact, Tightest, Solvable, System;
    FeasibleConsistent(n, Views(live), bounds, ref);
    var edges, npairs := BuildSystem(live, bounds, ref);
    lo, hi := Intervals(n, ref, edges);
    ExactIsTightest(n, Views(live), bounds, ref, lo, hi);
  }

  method Shifts(keys: seq<seq<string>>, lo: seq<Ns>, hi: seq<Ns>) returns (shift: seq<int>)
    requires |lo| == |hi| == |keys| && forall i :: 0 <= i < |keys| ==> keys[i] != []
    requires Ordered(lo, hi)
    ensures LeastShifts(keys, lo, hi, shift)
  {
    hide LeastShift;
    shift := [];
    for i := 0 to |keys|
      invariant |shift| == i
      invariant forall j :: 0 <= j < i ==>
        if keys[j][0] in SHIFTABLE then LeastShift(shift[j], lo[j], hi[j]) else shift[j] == 0
    {
      shift := shift + [ShiftOf(keys[i], lo[i], hi[i])];
    }
  }

  method Solve(keys: seq<seq<string>>, bounds: seq<Ns>, pairs: seq<Pair>)
    returns (out: ClockAnalysis, ref: nat, ghost trace: seq<seq<PairView>>)
    requires keys != [] && |bounds| == |keys| && forall i :: 0 <= i < |keys| ==> keys[i] != []
    requires Distinct(pairs) && WellFormed(|keys|, Views(pairs)) && NonNegative(bounds)
    modifies pairs`needs
    ensures fresh(out) && out.constraints == Count(old(Views(pairs)))
    ensures ref < |keys| && if REFERENCE in keys then keys[ref] == REFERENCE && REFERENCE !in keys[..ref] else ref == 0
    ensures Remainder(old(Views(pairs)), Views(pairs), out.contradicted)
    ensures out.feasibleAsRecorded <==> Solvable(|keys|, old(Views(pairs)), bounds, ref)
    ensures out.feasibleAsRecorded ==> Views(pairs) == old(Views(pairs)) && out.contradicted == {}
    ensures Solvable(|keys|, Views(pairs), bounds, ref)
    ensures Tightest(|keys|, Views(pairs), bounds, ref, out.lo, out.hi)
    ensures LeastShifts(keys, out.lo, out.hi, out.shift)
    ensures Repairs(bounds, ref, trace) && trace[0] == Keep(old(Views(pairs))) && trace[|trace|-1] == Keep(Views(pairs))
  {
    hide *;
    var n := |keys|;
    ref := RefIndex(keys);
    ghost var before := Views(pairs);
    var total := CountNeeds(pairs);
    out := new ClockAnalysis(total);
    assert Views(pairs) == before;
    var live;
    live, trace := Repair(n, bounds, ref, pairs, out);
    ghost var after := Views(pairs);
    KeepSolvable(n, after, bounds, ref);
    var lo, hi := Ends(n, live, bounds, ref);
    TightestKeep(n, after, bounds, ref, lo, hi);
    EndsOrdered(n, after, bounds, ref, lo, hi);
    var shift := Shifts(keys, lo, hi);
    out.SetEnds(lo, hi, shift);
    assert Views(pairs) == after;
  }
}
