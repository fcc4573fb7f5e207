/** Launches and the submissions they could come from, and when two of them are linked through shared submissions
    (`_launch_corr` of src/analysis/cp_alternatives.py). */
module LaunchLinks {

  /** A launch edge: its recorded submission, and the other submissions it could come from (none for a launch that
      is not in doubt). */
  datatype Launch = Launch(src: nat, others: seq<nat>)

  predicate InDoubt(ls: seq<Launch>, c: nat) {
    c < |ls| && ls[c].others != []
  }

  /** What a launch may come from in some world. */
  predicate Reaches(ls: seq<Launch>, c: nat, h: nat) {
    c < |ls| && (h == ls[c].src || h in ls[c].others)
  }

  // ---- chains ----

  ghost predicate Share(ls: seq<Launch>, c: nat, d: nat) {
    exists h: nat :: Reaches(ls, c, h) && Reaches(ls, d, h)
  }

  /** Launches each of which shares a submission with the next. */
  ghost predicate IsChain(ls: seq<Launch>, p: seq<nat>) {
    p != [] && (forall i :: 0 <= i < |p| ==> p[i] < |ls|)
      && forall i, j :: 0 <= i && j == i + 1 && j < |p| ==> Share(ls, p[i], p[j])
  }

  ghost predicate ChainFrom(ls: seq<Launch>, p: seq<nat>, c: nat, d: nat) {
    IsChain(ls, p) && p[0] == c && p[|p|-1] == d
  }

  ghost predicate Connected(ls: seq<Launch>, c: nat, d: nat) {
    exists p :: ChainFrom(ls, p, c, d)
  }

  lemma ConnectedBy(ls: seq<Launch>, c: nat, d: nat, h: nat)
    requires Reaches(ls, c, h) && Reaches(ls, d, h)
    ensures Connected(ls, c, d)
  {
    assert ChainFrom(ls, [c, d], c, d);
  }

  lemma ConnectedOn(ls: seq<Launch>, a: nat, b: nat, c: nat, d: nat, h: nat)
    requires Connected(ls, a, b) && Connected(ls, c, d) && Reaches(ls, b, h) && Reaches(ls, c, h)
    ensures Connected(ls, a, d)
  {
    var p :| ChainFrom(ls, p, a, b);
    var q :| ChainFrom(ls, q, c, d);
    assert Share(ls, b, c);
    assert ChainFrom(ls, p + q, a, d);
  }

  // ---- submissions ----

  ghost predicate LinkedBy(ls: seq<Launch>, x: nat, y: nat, c: nat, d: nat) {
    Connected(ls, c, d) && Reaches(ls, c, x) && Reaches(ls, d, y)
  }

  /** The same submission, or submissions of launches that a chain connects. */
  ghost predicate Linked(ls: seq<Launch>, x: nat, y: nat) {
    x == y || exists c: nat, d: nat :: LinkedBy(ls, x, y, c, d)
  }

  lemma LinkedOn(ls: seq<Launch>, x: nat, y: nat, z: nat)
    requires Linked(ls, x, y) && Linked(ls, y, z)
    ensures Linked(ls, x, z)
  {
    hide Connected, Reaches;
    if x != y && y != z {
      var a: nat, b: nat :| LinkedBy(ls, x, y, a, b);
      var c: nat, d: nat :| LinkedBy(ls, y, z, c, d);
      ConnectedOn(ls, a, b, c, d, y);
      assert LinkedBy(ls, x, z, a, d);
    }
  }

  lemma LinkedLaunches(ls: seq<Launch>, c: nat, d: nat)
    requires c < |ls| && d < |ls| && Linked(ls, ls[c].src, ls[d].src)
    ensures Connected(ls, c, d)
  {
    var x, y := ls[c].src, ls[d].src;
    assert Reaches(ls, c, x) && Reaches(ls, d, y);
    hide Connected, Reaches;
    if x == y {
      ConnectedBy(ls, c, d, x);
    } else {
      var a: nat, b: nat :| LinkedBy(ls, x, y, a, b);
      ConnectedBy(ls, c, c, x);
      ConnectedBy(ls, d, d, y);
      ConnectedOn(ls, c, c, a, b, x);
      ConnectedOn(ls, c, b, d, d, y);
    }
  }

  lemma LinkedWithin(ls: seq<Launch>, c: nat, x: nat, y: nat)
    requires Reaches(ls, c, x) && Reaches(ls, c, y)
    ensures Linked(ls, x, y)
  {
    ConnectedBy(ls, c, c, x);
    assert LinkedBy(ls, x, y, c, c);
  }
}
