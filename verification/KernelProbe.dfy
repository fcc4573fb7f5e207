/** Linear probing in the kernel-name table of hooks/rocm_hook/rocprof_trace.c (`kn_slot`). Its capacity is a power
    of two, so masking with cap - 1 is the remainder modulo cap. */
module KernelProbe {

  const WORD: nat := 0x1_0000_0000_0000_0000
  const MULTIPLIER: nat := 0x9E3779B97F4A7C15

  /** A slot without a name is empty, whatever its id. */
  datatype Entry = Empty | Named(id: nat, name: string)

  /** Where the probe for an id begins. */
  function Home(id: nat, cap: nat): (h: nat)
    requires cap > 0
    ensures h < cap
  {
    ((id * MULTIPLIER) % WORD / 128) % cap
  }

  /** The slot d places after h, around the end of the table. */
  function Around(h: nat, d: nat, cap: nat): (i: nat)
    requires h < cap && d <= cap
    ensures d < cap ==> i < cap
  {
    if h + d < cap then h + d else h + d - cap
  }

  lemma AroundReaches(h: nat, i: nat, cap: nat) returns (d: nat)
    requires h < cap && i < cap
    ensures d < cap && Around(h, d, cap) == i
  {
    d := if h <= i then i - h else i + cap - h;
  }

  // ---- tables ----

  predicate Holds(s: seq<Entry>, i: nat, id: nat) {
    i < |s| && s[i].Named? && s[i].id == id
  }

  ghost predicate UniqueIds(s: seq<Entry>) {
    forall i: nat, j: nat, id :: Holds(s, i, id) && Holds(s, j, id) ==> i == j
  }

  predicate Occupied(s: seq<Entry>, i: nat) {
    i < |s| && s[i].Named?
  }

  /** Nothing empty lies between an entry's home and its slot. */
  ghost predicate Reachable(s: seq<Entry>, i: nat)
    requires i < |s| && s[i].Named?
  {
    exists d: nat :: d < |s| && Around(Home(s[i].id, |s|), d, |s|) == i && PathTo(s, s[i].id, d)
  }

  /** The first d slots of the probe for id are occupied. */
  ghost predicate PathTo(s: seq<Entry>, id: nat, d: nat)
    requires |s| > 0 && d <= |s|
  {
    forall c: nat :: c < d ==> Occupied(s, Around(Home(id, |s|), c, |s|))
  }

  ghost predicate AllReachable(s: seq<Entry>) {
    forall i :: 0 <= i < |s| && s[i].Named? ==> Reachable(s, i)
  }

  function Count(s: seq<Entry>): (n: nat)
    ensures n <= |s|
  {
    if s == [] then 0 else Count(s[..|s|-1]) + if s[|s|-1].Named? then 1 else 0
  }

  /** A table in use: at most half full, every id once, and each where its probe finds it. */
  ghost predicate TableOk(s: seq<Entry>) {
    UniqueIds(s) && AllReachable(s) && 2 * Count(s) <= |s|
  }

  lemma {:induction false} SomeEmpty(s: seq<Entry>) returns (i: nat)
    requires Count(s) < |s|
    ensures i < |s| && s[i].Empty?
  {
    if s[|s|-1].Empty? {
      i := |s| - 1;
    } else {
      i := SomeEmpty(s[..|s|-1]);
    }
  }

  lemma {:induction false} CountUpdate(s: seq<Entry>, i: nat, e: Entry)
    requires i < |s| && e.Named?
    ensures Count(s[i := e]) == Count(s) + if s[i].Named? then 0 else 1
  {
    if i == |s| - 1 {
      assert s[i := e][..|s|-1] == s[..|s|-1];
    } else {
      CountUpdate(s[..|s|-1], i, e);
      assert s[i := e][..|s|-1] == s[..|s|-1][i := e];
    }
  }

  // ---- the probe ----

  /** Where the probe for an id ends: at its entry, or at the first empty slot. */
  ghost predicate ProbeEnds(s: seq<Entry>, id: nat, d: nat, i: nat) {
    && d < |s| && i == Around(Home(id, |s|), d, |s|) && PathTo(s, id, d)
    && (s[i].Empty? || s[i].id == id)
    && forall c: nat :: c < d ==> !Holds(s, Around(Home(id, |s|), c, |s|), id)
  }

  method Probe(tab: array<Entry>, id: nat) returns (i: nat, ghost d: nat)
    requires Count(tab[..]) < tab.Length
    ensures i < tab.Length && ProbeEnds(tab[..], id, d, i)
  {
    var cap := tab.Length;
    ghost var s := tab[..];
    ghost var free := SomeEmpty(s);
    ghost var bound := AroundReaches(Home(id, cap), free, cap);
    i := Home(id, cap);
    d := 0;
    while tab[i].Named? && tab[i].id != id
      invariant i < cap && d <= bound && i == Around(Home(id, cap), d, cap)
      invariant PathTo(s, id, d) && forall c: nat :: c < d ==> !Holds(s, Around(Home(id, cap), c, cap), id)
      decreases bound - d
    {
      assert Occupied(s, Around(Home(id, cap), d, cap));
      i := if i + 1 == cap then 0 else i + 1;
      d := d + 1;
    }
  }

  /** The probe finds the id's entry if the table has one. */
  lemma ProbeFinds(s: seq<Entry>, id: nat, d: nat, i: nat, j: nat)
    requires UniqueIds(s) && AllReachable(s) && ProbeEnds(s, id, d, i) && Holds(s, j, id)
    ensures i == j
  {
    hide Home, Around;
    assert Reachable(s, j);
    var c: nat :| c < |s| && Around(Home(id, |s|), c, |s|) == j && PathTo(s, id, c);
    var h := Home(id, |s|);
    assert Holds(s, Around(h, c, |s|), id);
    if d < c {
      assert Occupied(s, Around(h, d, |s|));
      assert Holds(s, i, id);
    } else if c < d {
      assert false;
    }
  }

  // ---- storing an entry where the probe ended ----

  lemma StoreUnique(s: seq<Entry>, id: nat, name: string, d: nat, i: nat)
    requires UniqueIds(s) && AllReachable(s) && ProbeEnds(s, id, d, i)
    ensures UniqueIds(s[i := Named(id, name)])
  {
    var t := s[i := Named(id, name)];
    forall j: nat, k: nat, x | Holds(t, j, x) && Holds(t, k, x) ensures j == k {
      if j != i && x == id { ProbeFinds(s, id, d, i, j); }
      if k != i && x == id { ProbeFinds(s, id, d, i, k); }
      assert j != i ==> Holds(s, j, x);
      assert k != i ==> Holds(s, k, x);
    }
  }

  lemma PathGrows(s: seq<Entry>, t: seq<Entry>, id: nat, d: nat)
    requires |s| == |t| > 0 && d <= |s| && PathTo(s, id, d) && forall i: nat :: Occupied(s, i) ==> Occupied(t, i)
    ensures PathTo(t, id, d)
  {
  }

  lemma StoreReachable(s: seq<Entry>, id: nat, name: string, d: nat, i: nat)
    requires AllReachable(s) && ProbeEnds(s, id, d, i)
    ensures AllReachable(s[i := Named(id, name)])
  {
    var t := s[i := Named(id, name)];
    assert forall j: nat :: Occupied(s, j) ==> Occupied(t, j);
    forall j | 0 <= j < |t| && t[j].Named? ensures Reachable(t, j) {
      if j == i {
        PathGrows(s, t, id, d);
      } else {
        assert Reachable(s, j);
        var c: nat :| c < |s| && Around(Home(s[j].id, |s|), c, |s|) == j && PathTo(s, s[j].id, c);
        PathGrows(s, t, s[j].id, c);
      }
    }
  }
}
