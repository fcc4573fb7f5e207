/** Lists of children kept per node, and the sums over a forest given by them. */
module ForestLists {
  import opened Options

  /** par gives some of the nodes 0, 1, ... a parent, which comes before them. */
  ghost predicate Forward(par: seq<Option<nat>>) {
    forall i :: 0 <= i < |par| && par[i].Some? ==> par[i].value < i
  }

  /** The nodes below n with parent p, in order. */
  function ListOf(par: seq<Option<nat>>, p: nat, n: nat): seq<nat>
    requires n <= |par|
  {
    if n == 0 then [] else if par[n-1] == Some(p) then ListOf(par, p, n - 1) + [n - 1] else ListOf(par, p, n - 1)
  }

  lemma {:induction false} ListOfMeans(par: seq<Option<nat>>, p: nat, n: nat)
    requires n <= |par|
    ensures forall k :: 0 <= k < |ListOf(par, p, n)| ==>
      ListOf(par, p, n)[k] < n && par[ListOf(par, p, n)[k]] == Some(p)
    ensures forall i :: 0 <= i < n && par[i] == Some(p) ==> i in ListOf(par, p, n)
  {
    if n > 0 { ListOfMeans(par, p, n - 1); }
  }

  /** A node has at most one parent of the two kinds. */
  ghost predicate OneParent(ex: seq<Option<nat>>, te: seq<Option<nat>>) {
    |ex| == |te| && Forward(ex) && Forward(te) && forall i :: 0 <= i < |ex| ==> ex[i].None? || te[i].None?
  }

  /** The nodes below n without a parent. */
  function RootsOf(ex: seq<Option<nat>>, te: seq<Option<nat>>, n: nat): seq<nat>
    requires n <= |ex| == |te|
  {
    if n == 0 then []
    else if ex[n-1].None? && te[n-1].None? then RootsOf(ex, te, n - 1) + [n - 1] else RootsOf(ex, te, n - 1)
  }

  lemma {:induction false} RootsOfMeans(ex: seq<Option<nat>>, te: seq<Option<nat>>, n: nat)
    requires n <= |ex| == |te|
    ensures forall k :: 0 <= k < |RootsOf(ex, te, n)| ==> RootsOf(ex, te, n)[k] < n
    ensures forall i: nat :: i in RootsOf(ex, te, n) <==> i < n && ex[i].None? && te[i].None?
  {
    if n > 0 { RootsOfMeans(ex, te, n - 1); }
  }

  // ---- sums ----

  function SumOver(w: seq<int>, list: seq<nat>): int {
    if list == [] then 0 else SumOver(w, list[..|list|-1]) + if list[|list|-1] < |w| then w[list[|list|-1]] else 0
  }

  lemma {:induction false} SumOverConcat(w: seq<int>, a: seq<nat>, b: seq<nat>)
    ensures SumOver(w, a + b) == SumOver(w, a) + SumOver(w, b)
  {
    if b == [] {
      assert a + b == a;
    } else {
      SumOverConcat(w, a, b[..|b|-1]);
      assert (a + b)[..|a + b|-1] == a + b[..|b|-1];
    }
  }

  lemma SumOverSnoc(w: seq<int>, a: seq<nat>, i: nat)
    requires i < |w|
    ensures SumOver(w, a + [i]) == SumOver(w, a) + w[i]
  {
    assert (a + [i])[..|a|] == a;
  }

  function SumAll(w: seq<int>, n: nat): int
    requires n <= |w|
  {
    if n == 0 then 0 else SumAll(w, n - 1) + w[n-1]
  }

  /** The weights in the lists of the nodes below p, of nodes below n. */
  function SumLists(par: seq<Option<nat>>, w: seq<int>, p: nat, n: nat): int
    requires n <= |par|
  {
    if p == 0 then 0 else SumLists(par, w, p - 1, n) + SumOver(w, ListOf(par, p - 1, n))
  }

  lemma ListStep(par: seq<Option<nat>>, w: seq<int>, p: nat, n: nat)
    requires 0 < n <= |par| <= |w|
    ensures SumOver(w, ListOf(par, p, n))
      == SumOver(w, ListOf(par, p, n - 1)) + if par[n-1] == Some(p) then w[n-1] else 0
  {
    SumOverSnoc(w, ListOf(par, p, n - 1), n - 1);
  }

  /** Node n - 1 joins its parent's list and no other. */
  lemma {:induction false} SumListsStep(par: seq<Option<nat>>, w: seq<int>, p: nat, n: nat)
    requires 0 < n <= |par| <= |w|
    ensures SumLists(par, w, p, n)
      == SumLists(par, w, p, n - 1) + if par[n-1].Some? && par[n-1].value < p then w[n-1] else 0
  {
    hide SumOver, ListOf;
    if p > 0 {
      SumListsStep(par, w, p - 1, n);
      ListStep(par, w, p - 1, n);
    }
  }

  lemma {:induction false} NoLists(par: seq<Option<nat>>, w: seq<int>, p: nat)
    ensures SumLists(par, w, p, 0) == 0
  {
    if p > 0 { NoLists(par, w, p - 1); }
  }

  lemma RootsStep(ex: seq<Option<nat>>, te: seq<Option<nat>>, w: seq<int>, n: nat)
    requires 0 < n <= |ex| == |te| <= |w|
    ensures SumOver(w, RootsOf(ex, te, n))
      == SumOver(w, RootsOf(ex, te, n - 1)) + if ex[n-1].None? && te[n-1].None? then w[n-1] else 0
  {
    SumOverSnoc(w, RootsOf(ex, te, n - 1), n - 1);
  }

  /** Whatever the weights, the roots and the lists together hold every node exactly once. */
  lemma {:induction false} EachOnce(ex: seq<Option<nat>>, te: seq<Option<nat>>, w: seq<int>, n: nat)
    requires OneParent(ex, te) && n <= |ex| <= |w|
    ensures SumOver(w, RootsOf(ex, te, n)) + SumLists(ex, w, |ex|, n) + SumLists(te, w, |ex|, n) == SumAll(w, n)
  {
    if n == 0 {
      NoLists(ex, w, |ex|);
      NoLists(te, w, |ex|);
    } else {
      hide SumOver, SumLists, RootsOf;
      EachOnce(ex, te, w, n - 1);
      SumListsStep(ex, w, |ex|, n);
      SumListsStep(te, w, |ex|, n);
      RootsStep(ex, te, w, n);
    }
  }
}
