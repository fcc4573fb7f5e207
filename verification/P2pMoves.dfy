/** The moves open to one point-to-point channel (src/analysis/cp_alternatives.py): the channel's receives are
    paired with its sends in order, and a move takes part of one run of consecutive pairings to the
    neighbouring sends. */
module P2pMoves {

  import opened Options

  /** Positions first..last of one run go to the next sends, to the previous sends, or lose the send of the
      first and move the others back. */
  datatype Move = Recorded | Later(first: nat, last: nat) | Earlier(first: nat, last: nat) | Drop(first: nat, last: nat)

  /** The send of receive m after a move; ks holds the recorded ones. */
  function Paired(ks: seq<nat>, mv: Move, m: nat): Option<int>
    requires m < |ks|
  {
    match mv
    case Recorded => Some(ks[m])
    case Later(i, j) => Some(if i <= m <= j then ks[m] + 1 else ks[m])
    case Earlier(i, j) => Some(if i <= m <= j then ks[m] as int - 1 else ks[m])
    case Drop(i, j) => if m == i then None else Some(if i < m <= j then ks[m] as int - 1 else ks[m])
  }

  predicate Touches(mv: Move, m: nat) {
    mv.Recorded? || mv.first <= m <= mv.last
  }

  predicate Increasing(ks: seq<nat>) {
    forall m, l :: 0 <= m < l < |ks| ==> ks[m] < ks[l]
  }

  /** The non-overtaking rule (section 3.5 of MPI-3.1): a partial injection of receives into the n sends that
      keeps their order. */
  ghost predicate NonOvertaking(ks: seq<nat>, mv: Move, n: nat) {
    && (forall m :: 0 <= m < |ks| && Paired(ks, mv, m).Some? ==> 0 <= Paired(ks, mv, m).value < n)
    && (forall m, l :: 0 <= m < l < |ks| && Paired(ks, mv, m).Some? && Paired(ks, mv, l).Some? ==>
          Paired(ks, mv, m).value < Paired(ks, mv, l).value)
  }

  /** A maximal run of receives paired with consecutive sends. */
  predicate IsRun(ks: seq<nat>, a: nat, e: nat) {
    && a <= e < |ks|
    && (forall m :: a <= m <= e ==> ks[m] == ks[a] + (m - a))
    && (a > 0 ==> ks[a-1] + 1 < ks[a])
    && (e < |ks| - 1 ==> ks[e] + 1 < ks[e+1])
  }

  /** A suffix of a run can go to the next sends exactly when there is a send after the run; it is unpaired. */
  lemma LaterNonOvertaking(ks: seq<nat>, n: nat, a: nat, i: nat, e: nat)
    requires Increasing(ks) && (forall m :: 0 <= m < |ks| ==> ks[m] < n) && IsRun(ks, a, e) && a <= i <= e
    ensures NonOvertaking(ks, Later(i, e), n) <==> ks[e] + 1 < n
  {
    if ks[e] + 1 >= n {
      assert Paired(ks, Later(i, e), e) == Some(ks[e] + 1);
    }
  }

  /** A prefix of a run can go to the previous sends exactly when there is a send before the run. */
  lemma EarlierNonOvertaking(ks: seq<nat>, n: nat, a: nat, i: nat, e: nat)
    requires Increasing(ks) && (forall m :: 0 <= m < |ks| ==> ks[m] < n) && IsRun(ks, a, e) && a <= i <= e
    ensures NonOvertaking(ks, Earlier(a, i), n) <==> ks[a] >= 1
  {
    if ks[a] == 0 {
      assert Paired(ks, Earlier(a, i), a) == Some(-1);
    }
  }

  /** A receive whose send was lost leaves its send to the next receive of the run, and so on. */
  lemma DropNonOvertaking(ks: seq<nat>, n: nat, a: nat, i: nat, e: nat)
    requires Increasing(ks) && (forall m :: 0 <= m < |ks| ==> ks[m] < n) && IsRun(ks, a, e) && a <= i <= e
    ensures NonOvertaking(ks, Drop(i, e), n)
  {
  }

  lemma RecordedNonOvertaking(ks: seq<nat>, n: nat)
    requires Increasing(ks) && forall m :: 0 <= m < |ks| ==> ks[m] < n
    ensures NonOvertaking(ks, Recorded, n)
  {
  }

  // ---- causality ----

  /** A send starts no later than its receive ends. */
  predicate Causal(starts: seq<int>, ends: seq<int>, m: nat, k: int)
    requires m < |ends|
  {
    0 <= k < |starts| && starts[k] <= ends[m]
  }

  /** Every pairing the move makes is causal; starts are those of the channel's sends, ends of its receives. */
  ghost predicate KeepsCausality(ks: seq<nat>, mv: Move, starts: seq<int>, ends: seq<int>)
    requires |ends| == |ks|
  {
    forall m :: 0 <= m < |ks| && Touches(mv, m) && Paired(ks, mv, m).Some? ==>
      Causal(starts, ends, m, Paired(ks, mv, m).value)
  }

  predicate Sorted(starts: seq<int>) {
    forall k, l :: 0 <= k < l < |starts| ==> starts[k] <= starts[l]
  }

  /** An earlier send started earlier, so moves to previous sends keep causality if the recorded pairs had it. */
  lemma BackwardKeepsCausality(ks: seq<nat>, mv: Move, starts: seq<int>, ends: seq<int>)
    requires |ends| == |ks| && Sorted(starts) && KeepsCausality(ks, Recorded, starts, ends)
    requires (mv.Earlier? || mv.Drop?) && NonOvertaking(ks, mv, |starts|)
    ensures KeepsCausality(ks, mv, starts, ends)
  {
    forall m | 0 <= m < |ks| && Touches(mv, m) && Paired(ks, mv, m).Some?
      ensures Causal(starts, ends, m, Paired(ks, mv, m).value)
    {
      assert Causal(starts, ends, m, ks[m]) by {
        assert Touches(Recorded, m) && Paired(ks, Recorded, m) == Some(ks[m]);
      }
    }
  }

  /** A suffix can move on exactly when each of its receives ends after the next send starts. */
  lemma LaterCausality(ks: seq<nat>, starts: seq<int>, ends: seq<int>, i: nat, e: nat)
    requires |ends| == |ks| && i <= e < |ks|
    ensures KeepsCausality(ks, Later(i, e), starts, ends)
      <==> forall m :: i <= m <= e ==> Causal(starts, ends, m, ks[m] + 1)
  {
    if KeepsCausality(ks, Later(i, e), starts, ends) {
      forall m | i <= m <= e ensures Causal(starts, ends, m, ks[m] + 1) {
        assert Touches(Later(i, e), m) && Paired(ks, Later(i, e), m) == Some(ks[m] + 1);
      }
    }
  }

  /** A move to the previous sends keeps causality exactly when each receive it moves ends after its new send starts:
      nothing the code tests, but implied by the recorded pairs. */
  lemma BackwardCausality(ks: seq<nat>, starts: seq<int>, ends: seq<int>, mv: Move)
    requires |ends| == |ks| && (mv.Earlier? || mv.Drop?) && mv.first <= mv.last < |ks|
    ensures KeepsCausality(ks, mv, starts, ends) <==>
      forall m :: (if mv.Drop? then mv.first + 1 else mv.first) <= m <= mv.last ==>
        Causal(starts, ends, m, ks[m] as int - 1)
  {
    if KeepsCausality(ks, mv, starts, ends) {
      forall m | (if mv.Drop? then mv.first + 1 else mv.first) <= m <= mv.last
        ensures Causal(starts, ends, m, ks[m] as int - 1)
      {
        assert Touches(mv, m) && Paired(ks, mv, m) == Some(ks[m] as int - 1);
      }
    }
  }

  // ---- worlds ----

  /** A move that the trace allows. */
  ghost predicate Allowed(ks: seq<nat>, mv: Move, n: nat, lost: bool) {
    NonOvertaking(ks, mv, n) && (mv.Drop? ==> lost)
  }

  /** A move confined to one run: a suffix to the next sends, a prefix to the previous ones, or a receive
      dropped with everything after it in the run. */
  ghost predicate OfOneRun(ks: seq<nat>, mv: Move, a: nat, e: nat) {
    && IsRun(ks, a, e) && !mv.Recorded? && a <= mv.first <= mv.last <= e
    && (if mv.Earlier? then mv.first == a else mv.last == e)
  }

  /** The open moves of a run are decided by three tests: is there a send after it, is there one before it, and
      were events lost. */
  lemma AllowedMoves(ks: seq<nat>, mv: Move, n: nat, lost: bool, a: nat, e: nat)
    requires Increasing(ks) && (forall m :: 0 <= m < |ks| ==> ks[m] < n) && OfOneRun(ks, mv, a, e)
    ensures Allowed(ks, mv, n, lost) <==>
      match mv case Later(_, _) => ks[e] + 1 < n case Earlier(_, _) => ks[a] >= 1 case Drop(_, _) => lost
  {
    match mv {
      case Later(i, _) => LaterNonOvertaking(ks, n, a, i, e);
      case Earlier(_, i) => EarlierNonOvertaking(ks, n, a, i, e);
      case Drop(i, _) => DropNonOvertaking(ks, n, a, i, e);
    }
  }
}
