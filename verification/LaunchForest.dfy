/** The union-find over submissions of `_launch_corr` (src/analysis/cp_alternatives.py): its parent dict, with path
    halving. */
module LaunchForest {

  /** One entry: it and its parent have the same representative, a root represents itself, and some rank grows
      along parents, which is why find ends. */
  predicate NodeOk(parent: map<nat, nat>, rep: map<nat, nat>, rank: map<nat, nat>, x: nat) {
    && x in parent && parent[x] in parent && x in rep && parent[x] in rep && x in rank && parent[x] in rank
    && rep[x] in parent && rep[x] in rep && rep[rep[x]] == rep[x] && rep[parent[x]] == rep[x]
    && (parent[x] == x <==> rep[x] == x) && (parent[x] != x ==> rank[x] < rank[parent[x]])
  }

  ghost predicate ForestOk(parent: map<nat, nat>, rep: map<nat, nat>, rank: map<nat, nat>) {
    parent.Keys == rep.Keys == rank.Keys
      && forall x {:trigger NodeOk(parent, rep, rank, x)} :: x in parent ==> NodeOk(parent, rep, rank, x)
  }

  lemma InForest(parent: map<nat, nat>, rep: map<nat, nat>, rank: map<nat, nat>, x: nat)
    requires ForestOk(parent, rep, rank) && x in parent
    ensures NodeOk(parent, rep, rank, x)
  {
  }

  lemma NewRoot(parent: map<nat, nat>, rep: map<nat, nat>, rank: map<nat, nat>, x: nat)
    requires ForestOk(parent, rep, rank) && x !in parent
    ensures ForestOk(parent[x := x], rep[x := x], rank[x := 0])
  {
    var parent' := parent[x := x];
    forall y | y in parent' ensures NodeOk(parent', rep[x := x], rank[x := 0], y) {
      if y != x { InForest(parent, rep, rank, y); }
    }
  }

  /** Path halving: an entry skips to its grandparent. */
  lemma Halve(parent: map<nat, nat>, rep: map<nat, nat>, rank: map<nat, nat>, x: nat)
    requires ForestOk(parent, rep, rank) && x in parent && parent[x] != x
    ensures parent[x] in parent && ForestOk(parent[x := parent[parent[x]]], rep, rank)
  {
    InForest(parent, rep, rank, x);
    InForest(parent, rep, rank, parent[x]);
    InForest(parent, rep, rank, parent[parent[x]]);
    var parent' := parent[x := parent[parent[x]]];
    forall y | y in parent' ensures NodeOk(parent', rep, rank, y) {
      InForest(parent, rep, rank, y);
    }
  }

  function Merged(rep: map<nat, nat>, ra: nat, rb: nat): map<nat, nat> {
    map x | x in rep :: if rep[x] == ra then rb else rep[x]
  }

  function Raised(rank: map<nat, nat>, ra: nat, rb: nat): map<nat, nat>
    requires ra in rank && rb in rank
  {
    rank[rb := if rank[rb] > rank[ra] then rank[rb] else rank[ra] + 1]
  }

  lemma HangNode(parent: map<nat, nat>, rep: map<nat, nat>, rank: map<nat, nat>, ra: nat, rb: nat, y: nat)
    requires NodeOk(parent, rep, rank, ra) && NodeOk(parent, rep, rank, rb) && parent[ra] == ra
    requires parent[rb] == rb && ra != rb
    requires NodeOk(parent, rep, rank, y)
    ensures NodeOk(parent[ra := rb], Merged(rep, ra, rb), Raised(rank, ra, rb), y)
  {
  }

  /** Hanging one root under another makes their classes one. */
  lemma Hang(parent: map<nat, nat>, rep: map<nat, nat>, rank: map<nat, nat>, ra: nat, rb: nat)
    requires ForestOk(parent, rep, rank) && ra in parent && rb in parent && parent[ra] == ra && parent[rb] == rb
    requires ra != rb
    ensures ra in rank && rb in rank && ForestOk(parent[ra := rb], Merged(rep, ra, rb), Raised(rank, ra, rb))
  {
    InForest(parent, rep, rank, ra);
    InForest(parent, rep, rank, rb);
    var parent', rep', rank' := parent[ra := rb], Merged(rep, ra, rb), Raised(rank, ra, rb);
    forall y | y in parent' ensures NodeOk(parent', rep', rank', y) {
      InForest(parent, rep, rank, y);
      HangNode(parent, rep, rank, ra, rb, y);
    }
    hide NodeOk;
    assert parent'.Keys == rep'.Keys == rank'.Keys;
  }

  lemma {:induction false} Bounded(rank: map<nat, nat>) returns (bound: nat)
    ensures forall x :: x in rank ==> rank[x] < bound
    decreases |rank|
  {
    if rank == map[] {
      bound := 0;
    } else {
      var x :| x in rank;
      var rest := Bounded(rank - {x});
      assert forall y :: y in rank && y != x ==> y in rank - {x};
      bound := if rank[x] < rest then rest else rank[x] + 1;
    }
  }

  class Forest {
    var parent: map<nat, nat>
    ghost var rep: map<nat, nat>
    ghost var rank: map<nat, nat>

    ghost predicate Valid()
      reads this
    {
      ForestOk(parent, rep, rank)
    }

    /** The class of a submission; one not seen yet stands alone. */
    ghost function Rep(x: nat): nat
      reads this
    {
      if x in rep then rep[x] else x
    }

    constructor ()
      ensures Valid() && parent == map[] && forall x :: Rep(x) == x
    {
      parent, rep, rank := map[], map[], map[];
    }

    /** find: the partition stays as it is, and the representative comes out. */
    method Find(x: nat) returns (root: nat)
      requires Valid()
      modifies this
      ensures Valid() && root == Rep(x) && root in parent && parent[root] == root
      ensures (forall y :: Rep(y) == old(Rep(y))) && old(parent).Keys <= parent.Keys
    {
      if x !in parent {
        NewRoot(parent, rep, rank, x);
        parent, rep, rank := parent[x := x], rep[x := x], rank[x := 0];
      }
      root := x;
      ghost var rep0, rank0 := rep, rank;
      InForest(parent, rep, rank, x);
      ghost var bound := Bounded(rank);
      hide ForestOk;
      while parent[root] != root
        invariant Valid() && root in parent && rep == rep0 && rank == rank0 && old(parent).Keys <= parent.Keys
        invariant x in rep && root in rep && rep[root] == rep[x] && root in rank
        decreases bound - rank[root]
      {
        InForest(parent, rep, rank, root);
        InForest(parent, rep, rank, parent[root]);
        InForest(parent, rep, rank, parent[parent[root]]);
        Halve(parent, rep, rank, root);
        parent := parent[root := parent[parent[root]]];
        root := parent[root];
      }
      InForest(parent, rep, rank, root);
    }

    /** parent[find(a)] = find(b): the two classes become one; nothing comes apart. */
    method Union(a: nat, b: nat)
      requires Valid()
      modifies this
      ensures Valid() && forall x :: Rep(x) == if old(Rep(x)) == old(Rep(a)) then old(Rep(b)) else old(Rep(x))
    {
      var rb := Find(b);
      assert rb in parent.Keys;
      InForest(parent, rep, rank, rb);
      assert Rep(rb) == rb;
      var ra := Find(a);
      hide ForestOk;
      InForest(parent, rep, rank, rb);
      InForest(parent, rep, rank, ra);
      if ra != rb {
        Hang(parent, rep, rank, ra, rb);
        rank := Raised(rank, ra, rb);
        rep := Merged(rep, ra, rb);
      } else {
        assert parent[ra := rb] == parent;
      }
      parent := parent[ra := rb];
    }
  }
}
