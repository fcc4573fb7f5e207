/** `analyze_clocks` of src/analysis/cp_clock.py: dependencies grouped by pair of
    clock domains, solved, and what the answer means for the dependencies themselves. */
module ClockAnalyze {
  import opened ClockGraph
  import opened ClockBounds
  import opened ClockRepair
  import opened ClockSolve

  /** A dependency: event u happened no later than event v. */
  datatype Dep = Dep(cid: int, u: nat, v: nat, strength: int)

  /** The clock domain and the recorded time of every event. */
  datatype Events = Events(domain: seq<nat>, t: seq<int>)

  predicate Crosses(ev: Events, d: Dep) {
    d.u < |ev.domain| == |ev.t| && d.v < |ev.domain| && ev.domain[d.u] != ev.domain[d.v]
  }

  predicate Joins(ev: Events, d: Dep, a: nat, b: nat) {
    Crosses(ev, d) && ev.domain[d.u] == a && ev.domain[d.v] == b
  }

  ghost predicate UniqueIds(deps: seq<Dep>) {
    forall i, j :: 0 <= i < j < |deps| ==> deps[i].cid != deps[j].cid
  }

  function NeedOf(ev: Events, d: Dep): Need
    requires Crosses(ev, d)
  {
    Need(ev.t[d.u] - ev.t[d.v], d.cid)
  }

  /** The needs from a to b, in the order of the dependencies. */
  function NeedsOf(ev: Events, deps: seq<Dep>, a: nat, b: nat): seq<Need> {
    if deps == [] then []
    else
      var d := deps[|deps|-1];
      NeedsOf(ev, deps[..|deps|-1], a, b) + (if Joins(ev, d, a, b) then [NeedOf(ev, d)] else [])
  }

  /** The weakest evidence among them. */
  function StrengthOf(ev: Events, deps: seq<Dep>, a: nat, b: nat): int {
    if deps == [] then 1
    else
      var d, s := deps[|deps|-1], StrengthOf(ev, deps[..|deps|-1], a, b);
      if Joins(ev, d, a, b) && d.strength < s then d.strength else s
  }

  /** A pair of domains is as strong as its weakest dependency, and never stronger than 1. */
  lemma {:induction false} StrengthMeans(ev: Events, deps: seq<Dep>, a: nat, b: nat)
    ensures StrengthOf(ev, deps, a, b) <= 1
    ensures forall i :: 0 <= i < |deps| && Joins(ev, deps[i], a, b) ==> StrengthOf(ev, deps, a, b) <= deps[i].strength
    ensures StrengthOf(ev, deps, a, b) < 1 ==>
      exists i :: 0 <= i < |deps| && Joins(ev, deps[i], a, b) && deps[i].strength == StrengthOf(ev, deps, a, b)
  {
    hide Joins;
    if deps != [] {
      var n := |deps| - 1;
      StrengthMeans(ev, deps[..n], a, b);
      var s := StrengthOf(ev, deps[..n], a, b);
      if StrengthOf(ev, deps, a, b) < 1 && StrengthOf(ev, deps, a, b) == s {
        var i :| 0 <= i < n && Joins(ev, deps[..n][i], a, b) && deps[..n][i].strength == s;
        assert deps[i] == deps[..n][i];
      }
      assert forall i :: 0 <= i < n ==> deps[i] == deps[..n][i];
    }
  }

  // ---- sorting the needs, largest first ----

  predicate Precedes(x: Need, y: Need) {
    x.need > y.need || (x.need == y.need && x.cid >= y.cid)
  }

  function Insert(x: Need, s: seq<Need>): (r: seq<Need>)
    ensures multiset(r) == multiset(s) + multiset{x}
  {
    if s == [] then [x]
    else if Precedes(x, s[0]) then
      assert [x] + s == [x] + s; [x] + s
    else
      assert s == [s[0]] + s[1..];
      [s[0]] + Insert(x, s[1..])
  }

  function Sorted(s: seq<Need>): (r: seq<Need>)
    ensures multiset(r) == multiset(s)
  {
    if s == [] then []
    else
      assert s == [s[0]] + s[1..];
      Insert(s[0], Sorted(s[1..]))
  }

  lemma ConsDescending(x: Need, s: seq<Need>)
    requires Descending(s) && (s != [] ==> x.need >= s[0].need)
    ensures Descending([x] + s)
  {}

  lemma {:induction false} InsertDescending(x: Need, s: seq<Need>)
    requires Descending(s)
    ensures Descending(Insert(x, s))
    ensures Insert(x, s)[0].need == (if s == [] || Precedes(x, s[0]) then x.need else s[0].need)
  {
    if s == [] || Precedes(x, s[0]) {
      ConsDescending(x, s);
    } else {
      var rest := s[1..];
      InsertDescending(x, rest);
      hide Descending;
      ConsDescending(s[0], Insert(x, rest));
    }
  }

  lemma {:induction false} SortedDescending(s: seq<Need>)
    ensures Descending(Sorted(s))
  {
    if s != [] {
      SortedDescending(s[1..]);
      InsertDescending(s[0], Sorted(s[1..]));
    }
  }

  // ---- grouping ----

  predicate HasPair(ps: seq<PairView>, a: nat, b: nat) {
    exists k :: 0 <= k < |ps| && ps[k].a == a && ps[k].b == b
  }

  ghost predicate Collected(ev: Events, deps: seq<Dep>, p: PairView) {
    && p.a != p.b && p.a in ev.domain && p.b in ev.domain
    && p.needs == NeedsOf(ev, deps, p.a, p.b) && p.strength == StrengthOf(ev, deps, p.a, p.b)
  }

  /** One pair per crossed pair of domains, holding exactly its dependencies. */
  ghost predicate Grouped(ev: Events, deps: seq<Dep>, ps: seq<PairView>) {
    && (forall k :: 0 <= k < |ps| ==> Collected(ev, deps, ps[k]))
    && DistinctKeys(ps)
    && AllPaired(ev, deps, ps)
  }

  ghost predicate DistinctKeys(ps: seq<PairView>) {
    forall j, k :: 0 <= j < k < |ps| ==> ps[j].a != ps[k].a || ps[j].b != ps[k].b
  }

  ghost predicate AllPaired(ev: Events, deps: seq<Dep>, ps: seq<PairView>) {
    forall i :: 0 <= i < |deps| && Crosses(ev, deps[i]) ==>
      HasPair(ps, ev.domain[deps[i].u], ev.domain[deps[i].v])
  }

  lemma {:induction false} NothingBetween(ev: Events, deps: seq<Dep>, a: nat, b: nat)
    requires forall i :: 0 <= i < |deps| ==> !Joins(ev, deps[i], a, b)
    ensures NeedsOf(ev, deps, a, b) == [] && StrengthOf(ev, deps, a, b) == 1
  {
    if deps != [] { NothingBetween(ev, deps[..|deps|-1], a, b); }
  }

  /** A pair first seen now starts empty. */
  lemma GroupedFresh(ev: Events, deps: seq<Dep>, ps: seq<PairView>, a: nat, b: nat)
    requires Grouped(ev, deps, ps) && !HasPair(ps, a, b) && a != b && a in ev.domain && b in ev.domain
    ensures Grouped(ev, deps, ps + [PairView(a, b, [], 1)])
  {
    var ps' := ps + [PairView(a, b, [], 1)];
    forall i | 0 <= i < |deps| ensures !Joins(ev, deps[i], a, b) {}
    NothingBetween(ev, deps, a, b);
    forall i | 0 <= i < |deps| && Crosses(ev, deps[i])
      ensures HasPair(ps', ev.domain[deps[i].u], ev.domain[deps[i].v])
    {
      var k :| 0 <= k < |ps| && ps[k].a == ev.domain[deps[i].u] && ps[k].b == ev.domain[deps[i].v];
      assert ps'[k] == ps[k];
    }
  }

  /** One more dependency goes to its pair, and to no other. */
  lemma GroupedStep(ev: Events, deps: seq<Dep>, d: Dep, ps: seq<PairView>, k: nat)
    requires Grouped(ev, deps, ps) && Crosses(ev, d) && k < |ps|
    requires ps[k].a == ev.domain[d.u] && ps[k].b == ev.domain[d.v]
    ensures var q := ps[k].(needs := ps[k].needs + [NeedOf(ev, d)],
                            strength := if d.strength < ps[k].strength then d.strength else ps[k].strength);
            Grouped(ev, deps + [d], ps[k := q])
  {
    var q := ps[k].(needs := ps[k].needs + [NeedOf(ev, d)],
                    strength := if d.strength < ps[k].strength then d.strength else ps[k].strength);
    var ps', all := ps[k := q], deps + [d];
    assert all[..|deps|] == deps;
    assert forall j :: 0 <= j < |ps| ==> ps'[j].a == ps[j].a && ps'[j].b == ps[j].b;
    forall j | 0 <= j < |ps| ensures Collected(ev, all, ps'[j]) {
      CollectedStep(ev, deps, d, ps[j]);
      assert j != k ==> !Joins(ev, d, ps[j].a, ps[j].b);
    }
    hide Collected, HasPair;
    assert DistinctKeys(ps');
    PairedStep(ev, deps, d, ps, ps', k);
  }

  lemma PairedStep(ev: Events, deps: seq<Dep>, d: Dep, ps: seq<PairView>, ps': seq<PairView>, k: nat)
    requires |ps| == |ps'| && forall j :: 0 <= j < |ps| ==> ps'[j].a == ps[j].a && ps'[j].b == ps[j].b
    requires AllPaired(ev, deps, ps) && Crosses(ev, d) && k < |ps|
    requires ps[k].a == ev.domain[d.u] && ps[k].b == ev.domain[d.v]
    ensures AllPaired(ev, deps + [d], ps')
  {
    HasPairSame(ps, ps');
    assert HasPair(ps, ps[k].a, ps[k].b);
    hide HasPair;
    var all := deps + [d];
    forall i | 0 <= i < |all| && Crosses(ev, all[i]) ensures HasPair(ps', ev.domain[all[i].u], ev.domain[all[i].v]) {
      assert all[i] == d || all[i] == deps[i];
    }
  }

  lemma CollectedStep(ev: Events, deps: seq<Dep>, d: Dep, p: PairView)
    requires Collected(ev, deps, p)
    ensures !Joins(ev, d, p.a, p.b) ==> Collected(ev, deps + [d], p)
    ensures Joins(ev, d, p.a, p.b) ==>
      Collected(ev, deps + [d], p.(needs := p.needs + [NeedOf(ev, d)],
                                   strength := if d.strength < p.strength then d.strength else p.strength))
  {
    assert (deps + [d])[..|deps|] == deps;
  }

  lemma HasPairSame(ps: seq<PairView>, ps': seq<PairView>)
    requires |ps| == |ps'| && forall j :: 0 <= j < |ps| ==> ps'[j].a == ps[j].a && ps'[j].b == ps[j].b
    ensures forall a, b :: HasPair(ps, a, b) ==> HasPair(ps', a, b)
  {
    forall a, b | HasPair(ps, a, b) ensures HasPair(ps', a, b) {
      var m :| 0 <= m < |ps| && ps[m].a == a && ps[m].b == b;
      assert ps'[m].a == a && ps'[m].b == b;
    }
  }

  lemma GroupedSkip(ev: Events, deps: seq<Dep>, d: Dep, ps: seq<PairView>)
    requires Grouped(ev, deps, ps) && !Crosses(ev, d)
    ensures Grouped(ev, deps + [d], ps)
  {
    assert (deps + [d])[..|deps|] == deps;
    forall k | 0 <= k < |ps| ensures Collected(ev, deps + [d], ps[k]) {
      assert Collected(ev, deps, ps[k]);
    }
  }

  ghost predicate Indexed(ps: seq<PairView>, byPair: map<(nat, nat), nat>) {
    && (forall k :: 0 <= k < |ps| ==> (ps[k].a, ps[k].b) in byPair && byPair[(ps[k].a, ps[k].b)] == k)
    && (forall key :: key in byPair ==> byPair[key] < |ps| && ps[byPair[key]].a == key.0 && ps[byPair[key]].b == key.1)
  }

  /** Adds one dependency to the pair it belongs to. */
  method AddNeed(order: seq<Pair>, k: nat, need: Need, strength: int)
    requires k < |order| && Distinct(order)
    modifies order[k]
    ensures var p := old(Views(order))[k];
      var least := if strength < p.strength then strength else p.strength;
      Views(order) == old(Views(order))[k := p.(needs := p.needs + [need], strength := least)]
  {
    ghost var vs := Views(order);
    var p := order[k];
    assert vs[k] == p.View();
    p.needs := p.needs + [need];
    if strength < p.strength { p.strength := strength; }
    assert Views(order) == vs[k := p.View()];
  }

  /** The index of the pair for (a, b), added if it is new. */
  method PairFor(ghost ev: Events, ghost deps: seq<Dep>, order: seq<Pair>, byPair: map<(nat, nat), nat>, a: nat, b: nat)
    returns (order': seq<Pair>, byPair': map<(nat, nat), nat>, k: nat)
    requires Distinct(order) && Grouped(ev, deps, Views(order)) && Indexed(Views(order), byPair)
    requires a != b && a in ev.domain && b in ev.domain
    ensures order' == order || exists p: Pair :: fresh(p) && order' == order + [p]
    ensures Distinct(order') && Grouped(ev, deps, Views(order')) && Indexed(Views(order'), byPair')
    ensures k < |order'| && Views(order')[k].a == a && Views(order')[k].b == b
  {
    hide Grouped, Views;
    order', byPair' := order, byPair;
    if (a, b) !in byPair {
      ghost var vs := Views(order);
      GroupedFresh(ev, deps, vs, a, b);
      var p := new Pair(a, b, [], 1);
      byPair' := byPair[(a, b) := |order|];
      order' := order + [p];
      assert Views(order') == vs + [PairView(a, b, [], 1)];
    }
    k := byPair'[(a, b)];
  }

  method Group(ev: Events, deps: seq<Dep>) returns (order: seq<Pair>)
    requires |ev.domain| == |ev.t| && forall i :: 0 <= i < |deps| ==> deps[i].u < |ev.t| && deps[i].v < |ev.t|
    ensures fresh(order) && Distinct(order) && Grouped(ev, deps, Views(order))
  {
    hide Grouped, Views, Indexed, Distinct;
    order := [];
    var byPair: map<(nat, nat), nat> := map[];
    GroupedNone(ev);
    for i := 0 to |deps|
      invariant fresh(order) && Distinct(order) && Grouped(ev, deps[..i], Views(order))
      invariant Indexed(Views(order), byPair)
    {
      var d := deps[i];
      assert deps[..i+1] == deps[..i] + [d];
      var a, b := ev.domain[d.u], ev.domain[d.v];
      if a == b {
        GroupedSkip(ev, deps[..i], d, Views(order));
      } else {
        var k;
        order, byPair, k := PairFor(ev, deps[..i], order, byPair, a, b);
        GroupedStep(ev, deps[..i], d, Views(order), k);
        IndexedUpdate(Views(order), byPair, k);
        AddNeed(order, k, Need(ev.t[d.u] - ev.t[d.v], d.cid), d.strength);
      }
    }
    assert deps[..|deps|] == deps;
  }

  lemma IndexedUpdate(ps: seq<PairView>, byPair: map<(nat, nat), nat>, k: nat)
    requires Indexed(ps, byPair) && k < |ps|
    ensures forall needs, strength :: Indexed(ps[k := ps[k].(needs := needs, strength := strength)], byPair)
  {}

  lemma GroupedNone(ev: Events)
    ensures Grouped(ev, [], []) && Indexed([], map[]) && Distinct([])
  {}

  // ---- from pairs back to dependencies ----

  predicate DistinctIds(s: seq<Need>) {
    forall j, k :: 0 <= j < k < |s| ==> s[j].cid != s[k].cid
  }

  lemma {:induction false} NeedsOfMembers(ev: Events, deps: seq<Dep>, a: nat, b: nat)
    ensures forall x :: x in NeedsOf(ev, deps, a, b) <==>
              exists i :: 0 <= i < |deps| && Joins(ev, deps[i], a, b) && x == NeedOf(ev, deps[i])
  {
    if deps != [] {
      var rest := deps[..|deps|-1];
      NeedsOfMembers(ev, rest, a, b);
      assert forall i :: 0 <= i < |rest| ==> deps[i] == rest[i];
    }
  }

  lemma {:induction false} NeedsOfDistinct(ev: Events, deps: seq<Dep>, a: nat, b: nat)
    requires UniqueIds(deps)
    ensures DistinctIds(NeedsOf(ev, deps, a, b))
  {
    if deps != [] {
      var rest, d := deps[..|deps|-1], deps[|deps|-1];
      NeedsOfDistinct(ev, rest, a, b);
      NeedsOfMembers(ev, rest, a, b);
      var s := NeedsOf(ev, rest, a, b);
      forall k | 0 <= k < |s| ensures s[k].cid != d.cid {
        assert s[k] in s;
      }
    }
  }

  lemma {:induction false} InsertDistinct(x: Need, s: seq<Need>)
    requires DistinctIds([x] + s)
    ensures DistinctIds(Insert(x, s))
  {
    if s != [] && !Precedes(x, s[0]) {
      var rest := s[1..];
      var all, less := [x] + s, [x] + rest;
      forall j, k | 0 <= j < k < |less| ensures less[j].cid != less[k].cid {
        assert less[k] == all[k + 1] && less[j] == (if j == 0 then all[0] else all[j + 1]);
      }
      InsertDistinct(x, rest);
      var r := Insert(x, rest);
      forall k | 0 <= k < |r| ensures r[k].cid != s[0].cid {
        assert r[k] in multiset(r);
        assert r[k] == x || r[k] in rest;
        assert all[0] == x && all[1] == s[0];
        if r[k] in rest {
          var j :| 0 <= j < |rest| && rest[j] == r[k];
          assert all[j + 2] == rest[j];
        }
      }
    }
  }

  lemma {:induction false} SortedDistinct(s: seq<Need>)
    requires DistinctIds(s)
    ensures DistinctIds(Sorted(s))
  {
    if s != [] {
      SortedDistinct(s[1..]);
      var t := Sorted(s[1..]);
      forall k | 0 <= k < |t| ensures t[k].cid != s[0].cid {
        assert t[k] in multiset(t);
        assert t[k] in s[1..];
      }
      InsertDistinct(s[0], t);
    }
  }

  /** A pair with its needs sorted. */
  ghost predicate Arranged(ev: Events, deps: seq<Dep>, p: PairView) {
    && p.a != p.b && Descending(p.needs) && DistinctIds(p.needs)
    && forall x ::
      x in p.needs <==> exists i :: 0 <= i < |deps| && Joins(ev, deps[i], p.a, p.b) && x == NeedOf(ev, deps[i])
  }

  lemma CollectedArranged(ev: Events, deps: seq<Dep>, p: PairView)
    requires Collected(ev, deps, p) && UniqueIds(deps)
    ensures Arranged(ev, deps, p.(needs := Sorted(p.needs)))
  {
    SortedDescending(p.needs);
    NeedsOfDistinct(ev, deps, p.a, p.b);
    SortedDistinct(p.needs);
    NeedsOfMembers(ev, deps, p.a, p.b);
    forall x ensures x in Sorted(p.needs) <==> x in p.needs {
      assert x in multiset(Sorted(p.needs)) <==> x in multiset(p.needs);
    }
  }

  ghost predicate AllArranged(ev: Events, deps: seq<Dep>, ps: seq<PairView>) {
    && (forall k :: 0 <= k < |ps| ==> Arranged(ev, deps, ps[k]))
    && DistinctKeys(ps)
    && AllPaired(ev, deps, ps)
  }

  /** The offsets put every dependency that crosses domains, and was not given up, in order. */
  ghost predicate Honours(x: seq<int>, ev: Events, deps: seq<Dep>, gone: set<int>) {
    forall i :: 0 <= i < |deps| && Crosses(ev, deps[i]) && deps[i].cid !in gone ==> InOrder(x, ev, deps[i])
  }

  ghost predicate InOrder(x: seq<int>, ev: Events, d: Dep)
    requires Crosses(ev, d)
  {
    var a, b := ev.domain[d.u], ev.domain[d.v];
    a < |x| && b < |x| ==> ev.t[d.u] + x[a] <= ev.t[d.v] + x[b]
  }

  lemma OneNeedPerId(ev: Events, deps: seq<Dep>, ps: seq<PairView>, m: nat, k: nat, m': nat, k': nat)
    requires AllArranged(ev, deps, ps) && UniqueIds(deps)
    requires m < |ps| && k < |ps[m].needs| && m' < |ps| && k' < |ps[m'].needs|
    requires ps[m].needs[k].cid == ps[m'].needs[k'].cid
    ensures m == m' && k == k'
  {
    var x, y := ps[m].needs[k], ps[m'].needs[k'];
    assert Arranged(ev, deps, ps[m]) && x in ps[m].needs;
    assert Arranged(ev, deps, ps[m']) && y in ps[m'].needs;
    var i :| 0 <= i < |deps| && Joins(ev, deps[i], ps[m].a, ps[m].b) && x == NeedOf(ev, deps[i]);
    var i' :| 0 <= i' < |deps| && Joins(ev, deps[i'], ps[m'].a, ps[m'].b) && y == NeedOf(ev, deps[i']);
    assert i == i';
  }

  /** A need still held by its pair belongs to a dependency that was not given up. */
  lemma KeptNeed(ev: Events, deps: seq<Dep>, before: seq<PairView>, after: seq<PairView>, gone: set<int>, m: nat,
        j: nat)
    returns (i: nat)
    requires AllArranged(ev, deps, before) && UniqueIds(deps) && Remainder(before, after, gone)
    requires m < |after| && j < |after[m].needs|
    ensures i < |deps| && Joins(ev, deps[i], after[m].a, after[m].b) && after[m].needs[j] == NeedOf(ev, deps[i])
    ensures deps[i].cid !in gone
  {
    assert Suffix(before[m], after[m]) && Arranged(ev, deps, before[m]);
    var base := |before[m].needs| - |after[m].needs|;
    var x := after[m].needs[j];
    assert x == before[m].needs[base + j] && x in before[m].needs;
    i :| 0 <= i < |deps| && Joins(ev, deps[i], before[m].a, before[m].b) && x == NeedOf(ev, deps[i]);
    if deps[i].cid in gone {
      var m' :| 0 <= m' < |before| && Lost(before[m'], after[m'], deps[i].cid);
      var j' :| 0 <= j' < |before[m'].needs| - |after[m'].needs| && before[m'].needs[j'].cid == deps[i].cid;
      OneNeedPerId(ev, deps, before, m, base + j, m', j');
    }
  }

  /** A dependency that was not given up is still held by its pair. */
  lemma KeptDep(ev: Events, deps: seq<Dep>, before: seq<PairView>, after: seq<PairView>, gone: set<int>, i: nat)
    returns (m: nat, j: nat)
    requires AllArranged(ev, deps, before) && Remainder(before, after, gone)
    requires i < |deps| && Crosses(ev, deps[i]) && deps[i].cid !in gone
    ensures m < |after| && j < |after[m].needs|
    ensures Joins(ev, deps[i], after[m].a, after[m].b) && after[m].needs[j] == NeedOf(ev, deps[i])
  {
    var a, b := ev.domain[deps[i].u], ev.domain[deps[i].v];
    assert HasPair(before, a, b);
    m :| 0 <= m < |before| && before[m].a == a && before[m].b == b;
    assert Arranged(ev, deps, before[m]) && Suffix(before[m], after[m]);
    assert Joins(ev, deps[i], a, b);
    assert NeedOf(ev, deps[i]) in before[m].needs;
    assert !Lost(before[m], after[m], deps[i].cid);
    j := StillNeeded(before[m], after[m], NeedOf(ev, deps[i]));
  }

  /** A need that was not lost is still there. */
  lemma StillNeeded(p: PairView, q: PairView, x: Need) returns (j: nat)
    requires Suffix(p, q) && x in p.needs && !Lost(p, q, x.cid)
    ensures j < |q.needs| && q.needs[j] == x
  {
    var k: nat :| k < |p.needs| && p.needs[k] == x;
    var base: nat := |p.needs| - |q.needs|;
    assert k >= base;
    j := k - base;
    SuffixAt(p, q, j);
  }

  /** What the pairs still need is exactly that the dependencies kept are in order. */
  lemma MeetsIffHonours(x: seq<int>, ev: Events, deps: seq<Dep>, before: seq<PairView>, after: seq<PairView>,
        gone: set<int>)
    requires AllArranged(ev, deps, before) && UniqueIds(deps) && Remainder(before, after, gone)
    ensures MeetsNeeds(x, after) <==> Honours(x, ev, deps, gone)
  {
    hide AllArranged, Remainder, UniqueIds;
    if Honours(x, ev, deps, gone) {
      forall m, j | 0 <= m < |after| && 0 <= j < |after[m].needs| && after[m].a < |x| && after[m].b < |x|
        ensures x[after[m].b] - x[after[m].a] >= after[m].needs[j].need
      {
        var i := KeptNeed(ev, deps, before, after, gone, m, j);
        assert InOrder(x, ev, deps[i]);
      }
    }
    if MeetsNeeds(x, after) {
      forall i | 0 <= i < |deps| && Crosses(ev, deps[i]) && deps[i].cid !in gone ensures InOrder(x, ev, deps[i]) {
        var m, j := KeptDep(ev, deps, before, after, gone, i);
        assert ev.domain[deps[i].u] < |x| && ev.domain[deps[i].v] < |x| ==>
          x[after[m].b] - x[after[m].a] >= after[m].needs[j].need;
      }
    }
  }

  // ---- the analysis ----

  /** Offsets within the bounds that put every dependency not given up in order. */
  ghost predicate Admits(x: seq<int>, n: nat, ev: Events, deps: seq<Dep>, gone: set<int>, bounds: seq<Ns>, ref: nat) {
    |x| == n && ref < n && x[ref] == 0 && WithinBounds(x, bounds) && Honours(x, ev, deps, gone)
  }

  ghost predicate UpperAdmitted(n: nat, ev: Events, deps: seq<Dep>, gone: set<int>, bounds: seq<Ns>, ref: nat,
        hi: seq<Ns>, far: int)
  {
    exists x :: Admits(x, n, ev, deps, gone, bounds, ref) && AtUpper(x, hi, far)
  }

  ghost predicate LowerAdmitted(n: nat, ev: Events, deps: seq<Dep>, gone: set<int>, bounds: seq<Ns>, ref: nat,
        lo: seq<Ns>, far: int)
  {
    exists x :: Admits(x, n, ev, deps, gone, bounds, ref) && AtLower(x, lo, far)
  }

  /** [lo, hi] is exactly the range of offsets the dependencies and bounds admit. */
  ghost predicate ExactOffsets(n: nat, ev: Events, deps: seq<Dep>, gone: set<int>, bounds: seq<Ns>, ref: nat,
        lo: seq<Ns>, hi: seq<Ns>)
  {
    && |lo| == |hi| == n
    && (forall x :: Admits(x, n, ev, deps, gone, bounds, ref) ==> Between(x, lo, hi))
    && (forall far: int :: UpperAdmitted(n, ev, deps, gone, bounds, ref, hi, far))
    && (forall far: int :: LowerAdmitted(n, ev, deps, gone, bounds, ref, lo, far))
  }

  lemma ConsistentIsAdmitted(n: nat, ev: Events, deps: seq<Dep>, before: seq<PairView>, after: seq<PairView>,
        gone: set<int>, bounds: seq<Ns>, ref: nat)
    requires AllArranged(ev, deps, before) && UniqueIds(deps) && Remainder(before, after, gone)
    ensures forall x :: Consistent(x, n, after, bounds, ref) <==> Admits(x, n, ev, deps, gone, bounds, ref)
  {
    forall x: seq<int> ensures Consistent(x, n, after, bounds, ref) <==> Admits(x, n, ev, deps, gone, bounds, ref) {
      hide MeetsNeeds, Honours, Remainder, AllArranged, UniqueIds;
      MeetsIffHonours(x, ev, deps, before, after, gone);
    }
  }

  lemma TightestIsExact(n: nat, ev: Events, deps: seq<Dep>, after: seq<PairView>, gone: set<int>,
                        bounds: seq<Ns>, ref: nat, lo: seq<Ns>, hi: seq<Ns>)
    requires forall x :: Consistent(x, n, after, bounds, ref) <==> Admits(x, n, ev, deps, gone, bounds, ref)
    requires Tightest(n, after, bounds, ref, lo, hi)
    ensures ExactOffsets(n, ev, deps, gone, bounds, ref, lo, hi)
  {
    hide Consistent, Admits, Between, AtUpper, AtLower;
    forall far: int ensures UpperAdmitted(n, ev, deps, gone, bounds, ref, hi, far) {
      assert UpperMet(n, after, bounds, ref, hi, far);
    }
    forall far: int ensures LowerAdmitted(n, ev, deps, gone, bounds, ref, lo, far) {
      assert LowerMet(n, after, bounds, ref, lo, far);
    }
  }

  /** Only dependencies that cross domains are ever given up. */
  lemma GoneCross(ev: Events, deps: seq<Dep>, before: seq<PairView>, after: seq<PairView>, gone: set<int>, c: int)
    requires AllArranged(ev, deps, before) && Remainder(before, after, gone) && c in gone
    ensures exists i :: 0 <= i < |deps| && Crosses(ev, deps[i]) && deps[i].cid == c
  {
    var m :| 0 <= m < |before| && Lost(before[m], after[m], c);
    var j :| 0 <= j < |before[m].needs| - |after[m].needs| && before[m].needs[j].cid == c;
    assert Arranged(ev, deps, before[m]) && before[m].needs[j] in before[m].needs;
  }

  function SortedView(p: PairView): PairView {
    p.(needs := Sorted(p.needs))
  }

  method SortAll(order: seq<Pair>)
    requires Distinct(order)
    modifies order
    ensures forall k :: 0 <= k < |order| ==> Views(order)[k] == SortedView(old(Views(order))[k])
  {
    ghost var vs := Views(order);
    for i := 0 to |order|
      invariant forall k :: 0 <= k < |order| ==> order[k].View() == if k < i then SortedView(vs[k]) else vs[k]
    {
      order[i].needs := Sorted(order[i].needs);
    }
  }

  lemma GroupedArranged(n: nat, ev: Events, deps: seq<Dep>, ps: seq<PairView>, ps': seq<PairView>)
    requires Grouped(ev, deps, ps) && UniqueIds(deps) && |ps'| == |ps|
    requires forall k :: 0 <= k < |ps| ==> ps'[k] == SortedView(ps[k])
    requires forall v :: v in ev.domain ==> v < n
    ensures AllArranged(ev, deps, ps') && WellFormed(n, ps')
  {
    forall k | 0 <= k < |ps| ensures Arranged(ev, deps, ps'[k]) && Proper(n, ps'[k]) {
      assert Collected(ev, deps, ps[k]);
      CollectedArranged(ev, deps, ps[k]);
    }
  }

  /** The clock analysis of a trace: what is given up is a set of crossing dependencies, nothing when the
      trace is feasible as recorded, and the intervals are exact for the dependencies kept. */
  method AnalyzeClocks(ev: Events, deps: seq<Dep>, keys: seq<seq<string>>, bounds: seq<Ns>)
    returns (out: ClockAnalysis, ref: nat)
    requires keys != [] && |bounds| == |keys| && (forall i :: 0 <= i < |keys| ==> keys[i] != []) && NonNegative(bounds)
    requires |ev.domain| == |ev.t| && (forall v :: v in ev.domain ==> v < |keys|)
    requires (forall i :: 0 <= i < |deps| ==> deps[i].u < |ev.t| && deps[i].v < |ev.t|) && UniqueIds(deps)
    ensures ref < |keys| && if REFERENCE in keys then keys[ref] == REFERENCE && REFERENCE !in keys[..ref] else ref == 0
    ensures forall c :: c in out.contradicted ==>
      exists i :: 0 <= i < |deps| && Crosses(ev, deps[i]) && deps[i].cid == c
    ensures out.feasibleAsRecorded <==> exists x :: Admits(x, |keys|, ev, deps, {}, bounds, ref)
    ensures out.feasibleAsRecorded ==> out.contradicted == {}
    ensures ExactOffsets(|keys|, ev, deps, out.contradicted, bounds, ref, out.lo, out.hi)
    ensures LeastShifts(keys, out.lo, out.hi, out.shift)
  {
    hide *;
    var order := Group(ev, deps);
    ghost var grouped := Views(order);
    SortAll(order);
    ghost var before := Views(order);
    GroupedArranged(|keys|, ev, deps, grouped, before);
    ghost var trace;
    out, ref, trace := Solve(keys, bounds, order);
    ghost var after := Views(order);
    ConsistentIsAdmitted(|keys|, ev, deps, before, after, out.contradicted, bounds, ref);
    TightestIsExact(|keys|, ev, deps, after, out.contradicted, bounds, ref, out.lo, out.hi);
    AsRecorded(|keys|, ev, deps, before, bounds, ref);
    forall c | c in out.contradicted
      ensures exists i :: 0 <= i < |deps| && Crosses(ev, deps[i]) && deps[i].cid == c
    {
      GoneCross(ev, deps, before, after, out.contradicted, c);
    }
  }

  lemma AsRecorded(n: nat, ev: Events, deps: seq<Dep>, before: seq<PairView>, bounds: seq<Ns>, ref: nat)
    requires AllArranged(ev, deps, before) && UniqueIds(deps)
    ensures Solvable(n, before, bounds, ref) <==> exists x :: Admits(x, n, ev, deps, {}, bounds, ref)
  {
    RemainderStart(before);
    ConsistentIsAdmitted(n, ev, deps, before, before, {}, bounds, ref);
    hide Consistent, Admits;
  }

  /** The interval of delta_a - delta_b covers every admitted pair of offsets. */
  lemma OffsetRangeCovers(x: seq<int>, n: nat, ev: Events, deps: seq<Dep>, gone: set<int>, bounds: seq<Ns>, ref: nat,
                          lo: seq<Ns>, hi: seq<Ns>, a: nat, b: nat)
    requires ExactOffsets(n, ev, deps, gone, bounds, ref, lo, hi) && Admits(x, n, ev, deps, gone, bounds, ref)
    requires a < n && b < n
    ensures Inside(x[a] - x[b], OffsetRange(lo, hi, a, b).0, OffsetRange(lo, hi, a, b).1)
  {
    assert Between(x, lo, hi);
  }

  /** Offsets of a and b, each within its own interval, that lie d apart. */
  ghost predicate Apart(lo: seq<Ns>, hi: seq<Ns>, a: nat, b: nat, d: int)
    requires |lo| == |hi| && a < |lo| && b < |lo|
  {
    exists x: int, y: int :: Inside(x, lo[a], hi[a]) && Inside(y, lo[b], hi[b]) && x - y == d
  }

  /** The later of two lower ends, or the earlier of two upper ends without any, or 0. */
  function Meeting(lo1: Ns, lo2: Ns, hi1: Ns, hi2: Ns): int {
    if lo1.Fin? then if lo2.Fin? && lo2.val > lo1.val then lo2.val else lo1.val
    else if lo2.Fin? then lo2.val
    else if hi1.Fin? then if hi2.Fin? && hi2.val < hi1.val then hi2.val else hi1.val
    else if hi2.Fin? then hi2.val
    else 0
  }

  function Ahead(x: Ns, d: int): Ns {
    if x.Fin? then Fin(x.val + d) else Inf
  }

  /** It is exactly what the two intervals by themselves leave the difference: no narrower one follows from them. */
  lemma OffsetRangeExact(lo: seq<Ns>, hi: seq<Ns>, a: nat, b: nat, d: int)
    requires |lo| == |hi| && Ordered(lo, hi) && a < |lo| && b < |lo|
    ensures Inside(d, OffsetRange(lo, hi, a, b).0, OffsetRange(lo, hi, a, b).1) <==> Apart(lo, hi, a, b, d)
  {
    if Inside(d, OffsetRange(lo, hi, a, b).0, OffsetRange(lo, hi, a, b).1) {
      var x := Meeting(lo[a], Ahead(lo[b], d), hi[a], Ahead(hi[b], d));
      assert Inside(x, lo[a], hi[a]) && Inside(x - d, lo[b], hi[b]);
      assert x - (x - d) == d;
    }
  }
}
