/** Pairing the nodes of two runs: `match_nodes` of src/analysis/causal_compare.py. Nodes are positions in the two
    lists; their structural similarity (`node_score`) is an input. */
module NodeMatching {
  import opened Options

  const MIN_NODE_SCORE: real := 0.55

  /** key is the normalized call path with its roles, source the normalized location, empty if unknown. */
  datatype Node = Node(id: nat, key: string, leaf: string, source: string, selfNs: int)

  type Pair = (nat, nat)

  /** A match, or a node without counterpart. */
  datatype Match = Match(a: Option<nat>, b: Option<nat>, score: real)

  /** score[i][j] compares the i-th node of the first run with the j-th of the second. */
  datatype Runs = Runs(xs: seq<Node>, ys: seq<Node>, score: seq<seq<real>>)

  ghost predicate UniqueIds(ns: seq<Node>) {
    forall i, j :: 0 <= i < j < |ns| ==> ns[i].id != ns[j].id
  }

  ghost predicate RunsOk(r: Runs) {
    && UniqueIds(r.xs) && UniqueIds(r.ys) && |r.score| == |r.xs|
    && forall i :: 0 <= i < |r.xs| ==> |r.score[i]| == |r.ys|
  }

  predicate InRange(r: Runs, p: Pair) {
    p.0 < |r.xs| && p.1 < |r.ys|
  }

  // ---- equal keys ----

  /** by_key_b: the last of the first n nodes with a key. */
  function LastWith(ys: seq<Node>, key: string, n: nat): (r: Option<nat>)
    requires n <= |ys|
    ensures r.Some? ==> r.value < n && ys[r.value].key == key && forall j :: r.value < j < n ==> ys[j].key != key
    ensures r.None? ==> forall j :: 0 <= j < n ==> ys[j].key != key
  {
    if n == 0 then None else if ys[n-1].key == key then Some(n - 1) else LastWith(ys, key, n - 1)
  }

  predicate FirstWith(xs: seq<Node>, i: nat)
    requires i < |xs|
  {
    forall h :: 0 <= h < i ==> xs[h].key != xs[i].key
  }

  /** The first node with a key goes with the last one of the other run that has it. */
  function KeyMatch(r: Runs, i: nat): (m: Option<nat>)
    requires i < |r.xs|
    ensures m.Some? ==> m.value < |r.ys| && r.ys[m.value].key == r.xs[i].key
  {
    if FirstWith(r.xs, i) then LastWith(r.ys, r.xs[i].key, |r.ys|) else None
  }

  predicate KeyedX(r: Runs, i: nat) {
    i < |r.xs| && KeyMatch(r, i).Some?
  }

  predicate KeyedYBefore(r: Runs, j: nat, n: nat)
    requires n <= |r.xs|
  {
    exists i :: 0 <= i < n && KeyMatch(r, i) == Some(j)
  }

  predicate KeyedY(r: Runs, j: nat) {
    KeyedYBefore(r, j, |r.xs|)
  }

  lemma {:induction false} SomeFirst(xs: seq<Node>, i: nat) returns (h: nat)
    requires i < |xs|
    ensures h <= i && xs[h].key == xs[i].key && FirstWith(xs, h)
  {
    if FirstWith(xs, i) {
      h := i;
    } else {
      var g :| 0 <= g < i && xs[g].key == xs[i].key;
      h := SomeFirst(xs, g);
    }
  }

  /** A key's last holder is still free exactly when no earlier node had the key. */
  lemma FreeIffFirst(r: Runs, i: nat)
    requires i < |r.xs| && LastWith(r.ys, r.xs[i].key, |r.ys|).Some?
    ensures KeyedYBefore(r, LastWith(r.ys, r.xs[i].key, |r.ys|).value, i) <==> !FirstWith(r.xs, i)
  {
    var j := LastWith(r.ys, r.xs[i].key, |r.ys|).value;
    if !FirstWith(r.xs, i) {
      var h := SomeFirst(r.xs, i);
      assert KeyMatch(r, h) == Some(j);
    }
  }

  /** Two nodes never share a counterpart by key. */
  lemma KeyMatchOnce(r: Runs, i: nat, h: nat)
    requires h < i < |r.xs| && KeyMatch(r, i).Some?
    ensures KeyMatch(r, h) != KeyMatch(r, i)
  {
  }

  // ---- similar nodes ----

  predicate Related(x: Node, y: Node) {
    x.leaf == y.leaf || (x.source != "" && x.source == y.source)
  }

  /** Two nodes left over by the keys that are similar enough. */
  ghost predicate Candidate(r: Runs, p: Pair)
    requires RunsOk(r)
  {
    && InRange(r, p) && !KeyedX(r, p.0) && !KeyedY(r, p.1) && Related(r.xs[p.0], r.ys[p.1])
    && r.score[p.0][p.1] >= MIN_NODE_SCORE
  }

  function Weight(r: Runs, p: Pair): int
    requires InRange(r, p)
  {
    r.xs[p.0].selfNs + r.ys[p.1].selfNs
  }

  /** The order candidates are taken in: higher score, then more time, then smaller ids. */
  predicate Before(r: Runs, p: Pair, q: Pair)
    requires |r.score| == |r.xs| && InRange(r, p) && InRange(r, q) && p.1 < |r.score[p.0]| && q.1 < |r.score[q.0]|
  {
    var s, t := r.score[p.0][p.1], r.score[q.0][q.1];
    if s != t then s > t
    else if Weight(r, p) != Weight(r, q) then Weight(r, p) > Weight(r, q)
    else if r.xs[p.0].id != r.xs[q.0].id then r.xs[p.0].id < r.xs[q.0].id
    else r.ys[p.1].id < r.ys[q.1].id
  }

  lemma BeforeTotal(r: Runs, p: Pair, q: Pair)
    requires RunsOk(r) && InRange(r, p) && InRange(r, q) && p != q
    ensures Before(r, p, q) != Before(r, q, p)
  {
    if p.0 != q.0 {
      assert if p.0 < q.0 then r.xs[p.0].id != r.xs[q.0].id else r.xs[q.0].id != r.xs[p.0].id;
    } else {
      assert if p.1 < q.1 then r.ys[p.1].id != r.ys[q.1].id else r.ys[q.1].id != r.ys[p.1].id;
    }
  }

  /** What a pair is ranked by: its score, the time of its two nodes together, their ids. */
  function RankOf(r: Runs, p: Pair): (real, int, nat, nat)
    requires RunsOk(r) && InRange(r, p)
  {
    (r.score[p.0][p.1], r.ys[p.1].selfNs + r.xs[p.0].selfNs, r.xs[p.0].id, r.ys[p.1].id)
  }

  /** The first place where two ranks differ decides: more score, more time, a smaller id. */
  predicate Outranks(x: (real, int, nat, nat), y: (real, int, nat, nat)) {
    || x.0 > y.0
    || (x.0 == y.0 && (x.1 > y.1 || (x.1 == y.1 && (x.2 < y.2 || (x.2 == y.2 && x.3 < y.3)))))
  }

  lemma BeforeMeans(r: Runs, p: Pair, q: Pair)
    requires RunsOk(r) && InRange(r, p) && InRange(r, q)
    ensures Before(r, p, q) <==> Outranks(RankOf(r, p), RankOf(r, q))
  {
  }

  lemma BeforeTransitive(r: Runs, p: Pair, q: Pair, o: Pair)
    requires RunsOk(r) && InRange(r, p) && InRange(r, q) && InRange(r, o) && Before(r, p, q) && Before(r, q, o)
    ensures Before(r, p, o)
  {
  }

  // ---- the key stage ----

  /** The pairs by key of the first n nodes, and the nodes among them without one. */
  function KeyPairs(r: Runs, n: nat): seq<Pair>
    requires n <= |r.xs|
  {
    if n == 0 then []
    else if KeyMatch(r, n - 1).Some? then KeyPairs(r, n - 1) + [(n - 1, KeyMatch(r, n - 1).value)]
    else KeyPairs(r, n - 1)
  }

  function RestX(r: Runs, n: nat): seq<nat>
    requires n <= |r.xs|
  {
    if n == 0 then [] else if KeyMatch(r, n - 1).None? then RestX(r, n - 1) + [n - 1] else RestX(r, n - 1)
  }

  ghost predicate IsIndex(ys: seq<Node>, byKey: map<string, nat>, n: nat)
    requires n <= |ys|
  {
    forall k :: if k in byKey then LastWith(ys, k, n) == Some(byKey[k]) else LastWith(ys, k, n).None?
  }

  method Index(ys: seq<Node>) returns (byKey: map<string, nat>)
    ensures IsIndex(ys, byKey, |ys|)
  {
    byKey := map[];
    var j := 0;
    while j < |ys|
      invariant 0 <= j <= |ys| && IsIndex(ys, byKey, j)
    {
      byKey := byKey[ys[j].key := j];
      j := j + 1;
    }
  }

  method KeyStage(r: Runs) returns (pairs: seq<Pair>, restX: seq<nat>, usedY: set<nat>)
    ensures pairs == KeyPairs(r, |r.xs|) && restX == RestX(r, |r.xs|) && forall j: nat :: j in usedY <==> KeyedY(r, j)
  {
    var byKey := Index(r.ys);
    pairs, restX, usedY := [], [], {};
    var i := 0;
    while i < |r.xs|
      invariant 0 <= i <= |r.xs| && pairs == KeyPairs(r, i) && restX == RestX(r, i)
      invariant forall j: nat :: j in usedY <==> KeyedYBefore(r, j, i)
    {
      var k := r.xs[i].key;
      assert if k in byKey then LastWith(r.ys, k, |r.ys|) == Some(byKey[k]) else LastWith(r.ys, k, |r.ys|).None?;
      if k in byKey { FreeIffFirst(r, i); }
      hide LastWith, FirstWith, IsIndex;
      assert KeyMatch(r, i) == if k in byKey && byKey[k] !in usedY then Some(byKey[k]) else None by {
        KeyMatchIs(r, i);
      }
      forall j: nat ensures KeyedYBefore(r, j, i + 1) <==> KeyedYBefore(r, j, i) || KeyMatch(r, i) == Some(j) {
        KeyedYStep(r, j, i);
      }
      hide KeyMatch, KeyedYBefore;
      if k in byKey && byKey[k] !in usedY {
        pairs := pairs + [(i, byKey[k])];
        usedY := usedY + {byKey[k]};
      } else {
        restX := restX + [i];
      }
      i := i + 1;
    }
  }

  lemma KeyMatchIs(r: Runs, i: nat)
    requires i < |r.xs|
    ensures KeyMatch(r, i) == if FirstWith(r.xs, i) then LastWith(r.ys, r.xs[i].key, |r.ys|) else None
  {
  }

  lemma KeyedYStep(r: Runs, j: nat, i: nat)
    requires i < |r.xs|
    ensures KeyedYBefore(r, j, i + 1) <==> KeyedYBefore(r, j, i) || KeyMatch(r, i) == Some(j)
  {
    if h :| 0 <= h < i + 1 && KeyMatch(r, h) == Some(j) { assert h < i ==> KeyedYBefore(r, j, i); }
    if h :| 0 <= h < i && KeyMatch(r, h) == Some(j) { assert 0 <= h < i + 1; }
  }

  // ---- candidates ----

  /** Candidates in the order they are taken. */
  ghost predicate Ranked(r: Runs, cands: seq<Pair>)
    requires RunsOk(r)
  {
    && (forall a :: 0 <= a < |cands| ==> Candidate(r, cands[a]))
    && (forall a, b :: 0 <= a < b < |cands| ==>
      InRange(r, cands[a]) && InRange(r, cands[b]) && Before(r, cands[a], cands[b]))
  }

  method Insert(r: Runs, cands: seq<Pair>, p: Pair) returns (out: seq<Pair>)
    requires RunsOk(r) && Ranked(r, cands) && Candidate(r, p) && p !in cands
    ensures Ranked(r, out) && forall q :: q in out <==> q in cands || q == p
  {
    var n := 0;
    while n < |cands| && Before(r, cands[n], p)
      invariant 0 <= n <= |cands|
      invariant forall a :: 0 <= a < n ==> InRange(r, cands[a]) && Before(r, cands[a], p)
    {
      n := n + 1;
    }
    out := cands[..n] + [p] + cands[n..];
    forall a | n <= a < |cands| ensures Before(r, p, cands[a]) {
      BeforeTotal(r, p, cands[n]);
      if a > n { BeforeTransitive(r, p, cands[n], cands[a]); }
    }
    hide Candidate, Before;
  }

  method Candidates(r: Runs, restX: seq<nat>, usedY: set<nat>) returns (cands: seq<Pair>)
    requires RunsOk(r) && restX == RestX(r, |r.xs|) && forall j: nat :: j in usedY <==> KeyedY(r, j)
    ensures Ranked(r, cands) && forall p: Pair :: p in cands <==> Candidate(r, p)
  {
    cands := [];
    RestXMeans(r, |r.xs|);
    var a := 0;
    while a < |restX|
      invariant 0 <= a <= |restX| && Ranked(r, cands)
      invariant forall p: Pair :: p in cands <==> Candidate(r, p) && p.0 in restX[..a]
    {
      var i := restX[a];
      assert i in restX;
      assert restX[..a+1] == restX[..a] + [i];
      var j := 0;
      while j < |r.ys|
        invariant 0 <= j <= |r.ys| && Ranked(r, cands)
        invariant forall p: Pair :: p in cands <==> Candidate(r, p) && (p.0 in restX[..a] || (p.0 == i && p.1 < j))
      {
        if j !in usedY && Related(r.xs[i], r.ys[j]) && r.score[i][j] >= MIN_NODE_SCORE {
          cands := Insert(r, cands, (i, j));
        }
        j := j + 1;
      }
      a := a + 1;
    }
    assert restX[..a] == restX;
  }

  lemma {:induction false} RestXMeans(r: Runs, n: nat)
    requires n <= |r.xs|
    ensures forall a :: 0 <= a < |RestX(r, n)| ==> RestX(r, n)[a] < n
    ensures forall i: nat :: i in RestX(r, n) <==> i < n && !KeyedX(r, i)
    ensures forall a, b :: 0 <= a < b < |RestX(r, n)| ==> RestX(r, n)[a] < RestX(r, n)[b]
  {
    hide KeyMatch;
    if n > 0 { RestXMeans(r, n - 1); }
  }

  // ---- the matches ----

  function CountX(out: seq<Match>, i: nat): nat {
    if out == [] then 0
    else if out[|out|-1].a == Some(i) then CountX(out[..|out|-1], i) + 1 else CountX(out[..|out|-1], i)
  }

  function CountY(out: seq<Match>, j: nat): nat {
    if out == [] then 0
    else if out[|out|-1].b == Some(j) then CountY(out[..|out|-1], j) + 1 else CountY(out[..|out|-1], j)
  }

  lemma CountSnoc(out: seq<Match>, m: Match, i: nat)
    ensures CountX(out + [m], i) == CountX(out, i) + if m.a == Some(i) then 1 else 0
    ensures CountY(out + [m], i) == CountY(out, i) + if m.b == Some(i) then 1 else 0
  {
    assert (out + [m])[..|out|] == out;
  }

  /** A match by key scores 1, one by similarity its score, a node without counterpart 0. */
  ghost predicate MatchOk(r: Runs, m: Match)
    requires RunsOk(r)
  {
    if m.a.Some? && m.b.Some? then
      var p: Pair := (m.a.value, m.b.value);
      InRange(r, p)
        && ((KeyMatch(r, p.0) == Some(p.1) && m.score == 1.0) || (Candidate(r, p) && m.score == r.score[p.0][p.1]))
    else (m.a.Some? || m.b.Some?) && m.score == 0.0
  }

  /** One of the matches takes a node of p, and is p or was taken before it. */
  ghost predicate Beaten(r: Runs, out: seq<Match>, p: Pair)
    requires RunsOk(r) && InRange(r, p)
  {
    exists k :: 0 <= k < |out| && BeatenBy(r, out[k], p)
  }

  ghost predicate BeatenBy(r: Runs, m: Match, p: Pair)
    requires RunsOk(r) && InRange(r, p)
  {
    && m.a.Some? && m.b.Some? && InRange(r, (m.a.value, m.b.value)) && (m.a.value == p.0 || m.b.value == p.1)
    && Candidate(r, (m.a.value, m.b.value)) && ((m.a.value, m.b.value) == p || Before(r, (m.a.value, m.b.value), p))
  }

  /** What has been matched: each node of the sets once, the others not yet. */
  ghost predicate Holds(r: Runs, out: seq<Match>, usedX: set<nat>, usedY: set<nat>)
    requires RunsOk(r)
  {
    && (forall i: nat :: CountX(out, i) == if i in usedX then 1 else 0)
    && (forall j: nat :: CountY(out, j) == if j in usedY then 1 else 0)
    && (forall k :: 0 <= k < |out| ==> MatchOk(r, out[k]))
  }

  lemma HoldsMore(r: Runs, out: seq<Match>, usedX: set<nat>, usedY: set<nat>, m: Match)
    requires RunsOk(r) && Holds(r, out, usedX, usedY) && MatchOk(r, m)
    requires (m.a.Some? ==> m.a.value !in usedX) && (m.b.Some? ==> m.b.value !in usedY)
    ensures Holds(r, out + [m], usedX + (if m.a.Some? then {m.a.value} else {}),
      usedY + if m.b.Some? then {m.b.value} else {})
  {
    forall i: nat
      ensures CountX(out + [m], i) == CountX(out, i) + if m.a == Some(i) then 1 else 0
      ensures CountY(out + [m], i) == CountY(out, i) + if m.b == Some(i) then 1 else 0
    {
      CountSnoc(out, m, i);
    }
    hide CountX, CountY, MatchOk;
  }

  /** The first a pairs have been used. */
  ghost predicate UsedAre(pairs: seq<Pair>, a: nat, usedX: set<nat>, usedY: set<nat>)
    requires a <= |pairs|
  {
    && (forall i: nat :: i in usedX <==> exists b :: 0 <= b < a && pairs[b].0 == i)
    && (forall j: nat :: j in usedY <==> exists b :: 0 <= b < a && pairs[b].1 == j)
  }

  lemma UsedMore(pairs: seq<Pair>, a: nat, usedX: set<nat>, usedY: set<nat>)
    requires a < |pairs| && UsedAre(pairs, a, usedX, usedY)
    requires forall b, c :: 0 <= b < c < |pairs| ==> pairs[b].0 != pairs[c].0 && pairs[b].1 != pairs[c].1
    ensures pairs[a].0 !in usedX && pairs[a].1 !in usedY
    ensures UsedAre(pairs, a + 1, usedX + {pairs[a].0}, usedY + {pairs[a].1})
  {
  }

  /** The matches of the pairs by key. */
  function KeyMatches(pairs: seq<Pair>): (out: seq<Match>)
    ensures |out| == |pairs|
    ensures forall a :: 0 <= a < |pairs| ==> out[a] == Match(Some(pairs[a].0), Some(pairs[a].1), 1.0)
  {
    if pairs == [] then []
    else KeyMatches(pairs[..|pairs|-1]) + [Match(Some(pairs[|pairs|-1].0), Some(pairs[|pairs|-1].1), 1.0)]
  }

  /** Every node that can match by key does, at score 1. */
  ghost predicate KeysMatched(r: Runs, out: seq<Match>) {
    forall i: nat :: KeyedX(r, i) ==> Match(Some(i), KeyMatch(r, i), 1.0) in out
  }

  lemma KeysMatchedBy(r: Runs, out: seq<Match>)
    requires KeyMatches(KeyPairs(r, |r.xs|)) <= out
    ensures KeysMatched(r, out)
  {
    KeyPairsMean(r, |r.xs|);
    var pairs := KeyPairs(r, |r.xs|);
    forall i: nat | KeyedX(r, i) ensures Match(Some(i), KeyMatch(r, i), 1.0) in out {
      var a :| 0 <= a < |pairs| && pairs[a] == (i, KeyMatch(r, i).value);
      assert out[a] == KeyMatches(pairs)[a];
    }
  }

  /** The matches by key, each node once. */
  method ByKey(r: Runs, pairs: seq<Pair>) returns (out: seq<Match>, ghost usedX: set<nat>, ghost usedY: set<nat>)
    requires RunsOk(r) && pairs == KeyPairs(r, |r.xs|)
    ensures Holds(r, out, usedX, usedY) && out == KeyMatches(pairs)
    ensures (forall i: nat :: i in usedX <==> KeyedX(r, i)) && forall j: nat :: j in usedY <==> KeyedY(r, j)
  {
    out, usedX, usedY := [], {}, {};
    KeyPairsMean(r, |r.xs|);
    assert Holds(r, [], {}, {});
    var a := 0;
    while a < |pairs|
      invariant 0 <= a <= |pairs| && Holds(r, out, usedX, usedY) && UsedAre(pairs, a, usedX, usedY)
      invariant |out| == a && forall b :: 0 <= b < a ==> out[b] == Match(Some(pairs[b].0), Some(pairs[b].1), 1.0)
    {
      var m := Match(Some(pairs[a].0), Some(pairs[a].1), 1.0);
      assert MatchOk(r, m);
      hide Holds, KeyPairs, KeyMatch, UsedAre, MatchOk;
      UsedMore(pairs, a, usedX, usedY);
      HoldsMore(r, out, usedX, usedY, m);
      out := out + [m];
      usedX, usedY := usedX + {pairs[a].0}, usedY + {pairs[a].1};
      a := a + 1;
    }
    UsedAreKeyed(r, usedX, usedY);
    assert out == KeyMatches(pairs);
  }

  lemma UsedAreKeyed(r: Runs, usedX: set<nat>, usedY: set<nat>)
    requires UsedAre(KeyPairs(r, |r.xs|), |KeyPairs(r, |r.xs|)|, usedX, usedY)
    ensures (forall i: nat :: i in usedX <==> KeyedX(r, i)) && forall j: nat :: j in usedY <==> KeyedY(r, j)
  {
    KeyPairsMean(r, |r.xs|);
    hide KeyPairs, KeyMatch;
  }

  lemma {:induction false} KeyPairsMean(r: Runs, n: nat)
    requires n <= |r.xs|
    ensures forall a :: 0 <= a < |KeyPairs(r, n)| ==>
      KeyPairs(r, n)[a].0 < n && KeyPairs(r, n)[a].1 < |r.ys|
      && KeyMatch(r, KeyPairs(r, n)[a].0) == Some(KeyPairs(r, n)[a].1)
    ensures forall a, b :: 0 <= a < b < |KeyPairs(r, n)| ==>
      KeyPairs(r, n)[a].0 != KeyPairs(r, n)[b].0 && KeyPairs(r, n)[a].1 != KeyPairs(r, n)[b].1
    ensures forall i :: 0 <= i < n && KeyMatch(r, i).Some? ==>
      exists a :: 0 <= a < |KeyPairs(r, n)| && KeyPairs(r, n)[a] == (i, KeyMatch(r, i).value)
  {
    if n > 0 {
      KeyPairsMean(r, n - 1);
      var before := KeyPairs(r, n - 1);
      forall a | 0 <= a < |before| && KeyMatch(r, n - 1).Some? ensures before[a].1 != KeyMatch(r, n - 1).value {
        KeyMatchOnce(r, n - 1, before[a].0);
      }
      hide KeyMatch;
      assert KeyMatch(r, n - 1).Some? ==> KeyPairs(r, n)[|before|] == (n - 1, KeyMatch(r, n - 1).value);
      assert forall a :: 0 <= a < |before| ==> KeyPairs(r, n)[a] == before[a];
    }
  }

  function MatchFor(r: Runs, p: Pair): Match
    requires RunsOk(r) && InRange(r, p)
  {
    Match(Some(p.0), Some(p.1), r.score[p.0][p.1])
  }

  /** The candidates taken among the first n, all among the matches. */
  ghost predicate TakenAre(r: Runs, cands: seq<Pair>, n: nat, out: seq<Match>, taken: set<Pair>)
    requires RunsOk(r) && Ranked(r, cands) && n <= |cands|
  {
    forall p :: p in taken ==> p in cands[..n] && InRange(r, p) && Candidate(r, p) && MatchFor(r, p) in out
  }

  /** A taken candidate that shares a node beats the one at n. */
  lemma BeatenByTaken(r: Runs, cands: seq<Pair>, n: nat, out: seq<Match>, taken: set<Pair>, p: Pair)
    requires RunsOk(r) && Ranked(r, cands) && n < |cands| && TakenAre(r, cands, n, out, taken) && p in taken
    requires p.0 == cands[n].0 || p.1 == cands[n].1
    ensures InRange(r, cands[n]) && Beaten(r, out, cands[n])
  {
    var a :| 0 <= a < |cands[..n]| && cands[..n][a] == p;
    assert Before(r, cands[a], cands[n]);
    var k :| 0 <= k < |out| && out[k] == MatchFor(r, p);
    assert BeatenBy(r, out[k], cands[n]);
  }

  lemma BeatenByItself(r: Runs, out: seq<Match>, p: Pair)
    requires RunsOk(r) && Candidate(r, p)
    ensures InRange(r, p) && MatchOk(r, MatchFor(r, p)) && Beaten(r, out + [MatchFor(r, p)], p)
  {
    var out' := out + [MatchFor(r, p)];
    assert BeatenBy(r, out'[|out|], p);
  }

  lemma StillBeaten(r: Runs, out: seq<Match>, m: Match, p: Pair)
    requires RunsOk(r) && InRange(r, p) && Beaten(r, out, p)
    ensures Beaten(r, out + [m], p)
  {
    var k :| 0 <= k < |out| && BeatenBy(r, out[k], p);
    assert BeatenBy(r, (out + [m])[k], p);
  }

  ghost predicate AllBeaten(r: Runs, cands: seq<Pair>, n: nat, out: seq<Match>)
    requires RunsOk(r) && n <= |cands|
  {
    forall a :: 0 <= a < n ==> InRange(r, cands[a]) && Beaten(r, out, cands[a])
  }

  lemma AllStillBeaten(r: Runs, cands: seq<Pair>, n: nat, out: seq<Match>, m: Match)
    requires RunsOk(r) && n <= |cands| && AllBeaten(r, cands, n, out)
    ensures AllBeaten(r, cands, n, out + [m])
  {
    forall a | 0 <= a < n ensures InRange(r, cands[a]) && Beaten(r, out + [m], cands[a]) {
      StillBeaten(r, out, m, cands[a]);
    }
  }

  /** The state before candidate n: the candidates taken account for all nodes used beyond the keyed ones. */
  ghost predicate GreedyOk(r: Runs, cands: seq<Pair>, n: nat, out: seq<Match>, keyedX: set<nat>, usedX: set<nat>,
        keyedY: set<nat>, usedY: set<nat>, taken: set<Pair>)
    requires RunsOk(r) && Ranked(r, cands)
  {
    && n <= |cands| && Holds(r, out, keyedX + usedX, usedY) && keyedY <= usedY && usedX !! keyedX
    && AllBeaten(r, cands, n, out) && TakenAre(r, cands, n, out, taken)
    && (forall i :: i in usedX ==> exists p :: p in taken && p.0 == i)
    && (forall j :: j in usedY && j !in keyedY ==> exists p :: p in taken && p.1 == j)
  }

  lemma AllBeatenNext(r: Runs, cands: seq<Pair>, n: nat, out: seq<Match>)
    requires RunsOk(r) && n < |cands| && AllBeaten(r, cands, n, out) && InRange(r, cands[n]) && Beaten(r, out, cands[n])
    ensures AllBeaten(r, cands, n + 1, out)
  {
  }

  /** A candidate with a used node was beaten. */
  lemma Skips(r: Runs, cands: seq<Pair>, n: nat, out: seq<Match>, keyedX: set<nat>, usedX: set<nat>, keyedY: set<nat>,
        usedY: set<nat>, taken: set<Pair>)
    requires RunsOk(r) && Ranked(r, cands) && n < |cands|
    requires GreedyOk(r, cands, n, out, keyedX, usedX, keyedY, usedY, taken)
    requires (cands[n].0 in usedX || cands[n].1 in usedY) && cands[n].1 !in keyedY
    ensures GreedyOk(r, cands, n + 1, out, keyedX, usedX, keyedY, usedY, taken)
  {
    hide Holds, Beaten, AllBeaten, Ranked;
    assert cands[..n+1] == cands[..n] + [cands[n]];
    var q :| q in taken && (q.0 == cands[n].0 || q.1 == cands[n].1);
    BeatenByTaken(r, cands, n, out, taken, q);
    AllBeatenNext(r, cands, n, out);
  }

  lemma TakenMore(r: Runs, cands: seq<Pair>, n: nat, out: seq<Match>, taken: set<Pair>)
    requires RunsOk(r) && Ranked(r, cands) && n < |cands| && TakenAre(r, cands, n, out, taken) && Candidate(r, cands[n])
    ensures TakenAre(r, cands, n + 1, out + [MatchFor(r, cands[n])], taken + {cands[n]})
  {
    assert cands[..n+1] == cands[..n] + [cands[n]];
  }

  /** A candidate with both nodes free is taken. */
  lemma Takes(r: Runs, cands: seq<Pair>, n: nat, out: seq<Match>, keyedX: set<nat>, usedX: set<nat>, keyedY: set<nat>,
        usedY: set<nat>, taken: set<Pair>)
    requires RunsOk(r) && Ranked(r, cands) && n < |cands|
    requires GreedyOk(r, cands, n, out, keyedX, usedX, keyedY, usedY, taken)
    requires Candidate(r, cands[n]) && cands[n].0 !in usedX && cands[n].0 !in keyedX && cands[n].1 !in usedY
    ensures GreedyOk(r, cands, n + 1, out + [MatchFor(r, cands[n])], keyedX, usedX + {cands[n].0}, keyedY,
      usedY + {cands[n].1}, taken + {cands[n]})
  {
    var p := cands[n];
    BeatenByItself(r, out, p);
    hide Holds, Beaten, AllBeaten, Ranked, Candidate, TakenAre;
    AllStillBeaten(r, cands, n, out, MatchFor(r, p));
    HoldsMore(r, out, keyedX + usedX, usedY, MatchFor(r, p));
    assert keyedX + usedX + {p.0} == keyedX + (usedX + {p.0});
    AllBeatenNext(r, cands, n, out + [MatchFor(r, p)]);
    TakenMore(r, cands, n, out, taken);
  }

  /** Greedily down the ranking: a candidate is matched when both its nodes are still free. */
  method Greedy(r: Runs, cands: seq<Pair>, out0: seq<Match>, ghost keyedX: set<nat>, keyedY: set<nat>)
    returns (out: seq<Match>, usedX: set<nat>, usedY: set<nat>)
    requires RunsOk(r) && Ranked(r, cands) && Holds(r, out0, keyedX, keyedY)
    requires (forall i: nat :: i in keyedX <==> KeyedX(r, i)) && forall j: nat :: j in keyedY <==> KeyedY(r, j)
    ensures Holds(r, out, keyedX + usedX, usedY) && keyedY <= usedY && AllBeaten(r, cands, |cands|, out)
    ensures usedX !! keyedX && out0 <= out
  {
    out, usedX, usedY := out0, {}, keyedY;
    assert keyedX + {} == keyedX;
    ghost var taken: set<Pair> := {};
    var n := 0;
    while n < |cands|
      invariant 0 <= n <= |cands| && out0 <= out && GreedyOk(r, cands, n, out, keyedX, usedX, keyedY, usedY, taken)
    {
      var p := cands[n];
      assert Candidate(r, p) && p.0 !in keyedX && p.1 !in keyedY;
      hide Candidate, KeyedX, KeyedY, GreedyOk, Ranked, Holds, AllBeaten;
      if p.0 in usedX || p.1 in usedY {
        Skips(r, cands, n, out, keyedX, usedX, keyedY, usedY, taken);
      } else {
        Takes(r, cands, n, out, keyedX, usedX, keyedY, usedY, taken);
        out := out + [MatchFor(r, p)];
        usedX, usedY := usedX + {p.0}, usedY + {p.1};
        taken := taken + {p};
      }
      n := n + 1;
    }
  }

  /** The nodes left over on both sides. */
  method Leftovers(r: Runs, restX: seq<nat>, out0: seq<Match>, usedX: set<nat>, usedY: set<nat>, ghost keyedX: set<nat>,
        ghost cands: seq<Pair>)
    returns (out: seq<Match>)
    requires RunsOk(r) && Holds(r, out0, keyedX + usedX, usedY) && restX == RestX(r, |r.xs|)
    requires (forall i: nat :: i in keyedX <==> KeyedX(r, i)) && usedX !! keyedX && AllBeaten(r, cands, |cands|, out0)
    ensures AllBeaten(r, cands, |cands|, out) && out0 <= out
    ensures forall i: nat :: i < |r.xs| ==> CountX(out, i) == 1
    ensures forall j: nat :: j < |r.ys| ==> CountY(out, j) == 1
    ensures forall k :: 0 <= k < |out| ==> MatchOk(r, out[k])
  {
    out := out0;
    RestXMeans(r, |r.xs|);
    ghost var doneX, doneY := keyedX + usedX, usedY;
    var a := 0;
    while a < |restX|
      invariant 0 <= a <= |restX| && Holds(r, out, doneX, doneY) && doneY == usedY
      invariant AllBeaten(r, cands, |cands|, out) && out0 <= out
      invariant forall i: nat :: i in doneX <==> i in keyedX || i in usedX || i in restX[..a]
    {
      assert restX[..a+1] == restX[..a] + [restX[a]];
      hide Holds, AllBeaten;
      if restX[a] !in usedX {
        var m := Match(Some(restX[a]), None, 0.0);
        assert restX[a] in restX;
        HoldsMore(r, out, doneX, doneY, m);
        assert doneY + {} == doneY;
        AllStillBeaten(r, cands, |cands|, out, m);
        out := out + [m];
        doneX := doneX + {restX[a]};
      }
      a := a + 1;
    }
    assert restX[..a] == restX;
    var j: nat := 0;
    while j < |r.ys|
      invariant 0 <= j <= |r.ys| && Holds(r, out, doneX, doneY) && AllBeaten(r, cands, |cands|, out) && out0 <= out
      invariant forall l: nat :: l in doneY <==> l in usedY || l < j
    {
      hide Holds, AllBeaten;
      if j !in usedY {
        var m := Match(None, Some(j), 0.0);
        HoldsMore(r, out, doneX, doneY, m);
        assert doneX + {} == doneX;
        AllStillBeaten(r, cands, |cands|, out, m);
        out := out + [m];
        doneY := doneY + {j};
      }
      j := j + 1;
    }
  }

  /** Every node of both runs exactly once; a node matches by key if it can; and no two similar nodes were passed
      over for worse matches. */
  method MatchNodes(r: Runs) returns (out: seq<Match>)
    requires RunsOk(r)
    ensures (forall i: nat :: i < |r.xs| ==> CountX(out, i) == 1) && forall j: nat :: j < |r.ys| ==> CountY(out, j) == 1
    ensures forall k :: 0 <= k < |out| ==> MatchOk(r, out[k])
    ensures KeysMatched(r, out)
    ensures forall p: Pair :: Candidate(r, p) ==> Beaten(r, out, p)
  {
    var pairs, restX, keyedY := KeyStage(r);
    var matches, keyedX, ky := ByKey(r, pairs);
    assert ky == keyedY;
    var cands := Candidates(r, restX, keyedY);
    var usedX, usedY;
    out, usedX, usedY := Greedy(r, cands, matches, keyedX, keyedY);
    out := Leftovers(r, restX, out, usedX, usedY, keyedX, cands);
    KeysMatchedBy(r, out);
    forall p: Pair | Candidate(r, p) ensures Beaten(r, out, p) {
      var a :| 0 <= a < |cands| && cands[a] == p;
    }
  }
}
