/** Formatted records of length 0 (hp_tx_emitf of hooks/common/hp_transport.h): counted as emitted and nowhere else, so
    the counters of a run account for every record exactly when none was emitted. */
module TransportEmpties {
  import opened TransportModel
  import opened TransportBalance
  import opened TransportRuns

  predicate IsEmptyFormat(a: Action) {
    a.EmitF? && a.n == 0
  }

  function EmptiesIn(run: Run): nat {
    match run
    case Start(_) => 0
    case Then(before, a, _) => EmptiesIn(before) + if IsEmptyFormat(a) then 1 else 0
  }

  /** No step of the run emits a format of length 0. */
  predicate NoEmptyFormat(run: Run) {
    run.Then? ==> !IsEmptyFormat(run.a) && NoEmptyFormat(run.before)
  }

  /** Emitted records are sent, lost, refused, queued, batched or held: nothing is emitted and nowhere. */
  predicate Closes(s: State) {
    var c := Totals(s);
    c[Emitted] == s.sent + s.lost + c[DroppedFull] + c[Oversize] + c[FormatError]
                  + Queued(s.threads) + |Batch(s)| + Held(s.threads)
  }

  lemma StepEmpties(s: State, a: Action)
    requires Enabled(s, a)
    ensures Apply(s, a).empties == s.empties + if IsEmptyFormat(a) then 1 else 0
  {
    hide Bytes, Used, Count, NewRecord, Refuse, DropHeld, At;
    if a.EmitF? { EmitFEmpties(s, a); } else { OtherEmpties(s, a); }
  }

  lemma EmitFEmpties(s: State, a: Action)
    requires Enabled(s, a) && a.EmitF?
    ensures Apply(s, a).empties == s.empties + if IsEmptyFormat(a) then 1 else 0
  {
    hide Count, NewRecord, Refuse;
  }

  lemma OtherEmpties(s: State, a: Action)
    requires Enabled(s, a) && !a.EmitF?
    ensures Apply(s, a).empties == s.empties
  {
    hide Bytes, Used, Count, NewRecord, Refuse, DropHeld;
  }

  lemma {:induction false} EmptiesCounted(run: Run)
    requires IsRun(run)
    ensures run.s.empties == EmptiesIn(run)
  {
    if run.Then? {
      EmptiesCounted(run.before);
      StepEmpties(run.before.s, run.a);
      hide Apply, Enabled;
    }
  }

  lemma {:induction false} NoneIsZero(run: Run)
    ensures NoEmptyFormat(run) <==> EmptiesIn(run) == 0
  {
    if run.Then? { NoneIsZero(run.before); }
  }

  /** In any run the account closes without a term for empty formats exactly when none was emitted. */
  lemma ClosesIffNoEmptyFormat(run: Run)
    requires IsRun(run)
    ensures Closes(run.s) <==> NoEmptyFormat(run)
  {
    RunBalanced(run);
    EmptiesCounted(run);
    NoneIsZero(run);
    hide IsRun, EmptiesIn, NoEmptyFormat, Totals, Queued, Held, Batch, LogCounted;
  }

  function AtStart(cap: nat, neverWait: bool): State {
    State(cap, neverWait, Uninit, [], [], multiset{}, NoPass, [], 0, 0, 0, false)
  }

  /** One thread that formats one record to nothing: the account of this run does not close. */
  lemma EmptyFormatIsNowhere(cap: nat, neverWait: bool) returns (run: Run)
    ensures IsRun(run) && !Closes(run.s)
    ensures run.s.threads == [Thread(Idle, NoRing, 0)] && Totals(run.s) == multiset{Emitted}
    ensures run.s.sent == run.s.lost == 0
  {
    var s := AtStart(cap, neverWait);
    var spawned := Apply(s, Spawn);
    var before := Then(Start(s), Spawn, spawned);
    assert IsRun(before);
    var a := EmitF(0, 0, true);
    run := Then(before, a, Apply(spawned, a));
    hide Batch;
    ClosesIffNoEmptyFormat(run);
    assert run.s.threads[..0] == [];
    assert RingCounters(run.s.threads[..0]) == multiset{};
    assert Totals(run.s) == multiset{Emitted};
  }
}
