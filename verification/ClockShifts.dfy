/** What the shifts of src/analysis/cp_clock.py do to a trace: each is the smallest that satisfies the dependencies by
    itself; together they satisfy them exactly when any two of opposite direction do. */
module ClockShifts {
  import opened ClockGraph
  import opened ClockBounds
  import opened ClockRepair
  import opened ClockSolve
  import opened ClockAnalyze

  /** A trace after its analysis: the dependencies kept, the bounds, the reference domain. */
  datatype Clocks = Clocks(n: nat, ev: Events, deps: seq<Dep>, gone: set<int>, bounds: seq<Ns>, ref: nat)

  ghost predicate Admitted(c: Clocks, x: seq<int>) {
    Admits(x, c.n, c.ev, c.deps, c.gone, c.bounds, c.ref)
  }

  /** What the analysis ensures of the intervals and shifts it returns. */
  ghost predicate Analyzed(c: Clocks, keys: seq<seq<string>>, lo: seq<Ns>, hi: seq<Ns>, shift: seq<int>) {
    && |keys| == c.n && LeastShifts(keys, lo, hi, shift)
    && ExactOffsets(c.n, c.ev, c.deps, c.gone, c.bounds, c.ref, lo, hi)
  }

  // ---- admitted offsets are closed under minimum and maximum ----

  function Least(x: seq<int>, y: seq<int>): (z: seq<int>)
    requires |x| == |y|
    ensures |z| == |x|
  {
    seq(|x|, i requires 0 <= i < |x| => if x[i] < y[i] then x[i] else y[i])
  }

  function Greatest(x: seq<int>, y: seq<int>): (z: seq<int>)
    requires |x| == |y|
    ensures |z| == |x|
  {
    seq(|x|, i requires 0 <= i < |x| => if x[i] < y[i] then y[i] else x[i])
  }

  lemma LeastAdmitted(c: Clocks, x: seq<int>, y: seq<int>)
    requires Admitted(c, x) && Admitted(c, y)
    ensures Admitted(c, Least(x, y))
  {
    forall i | 0 <= i < |c.deps| && Crosses(c.ev, c.deps[i]) && c.deps[i].cid !in c.gone
      ensures InOrder(Least(x, y), c.ev, c.deps[i])
    {
      assert InOrder(x, c.ev, c.deps[i]) && InOrder(y, c.ev, c.deps[i]);
    }
  }

  lemma GreatestAdmitted(c: Clocks, x: seq<int>, y: seq<int>)
    requires Admitted(c, x) && Admitted(c, y)
    ensures Admitted(c, Greatest(x, y))
  {
    forall i | 0 <= i < |c.deps| && Crosses(c.ev, c.deps[i]) && c.deps[i].cid !in c.gone
      ensures InOrder(Greatest(x, y), c.ev, c.deps[i])
    {
      assert InOrder(x, c.ev, c.deps[i]) && InOrder(y, c.ev, c.deps[i]);
    }
  }

  // ---- one shift ----

  /** A shift forward goes to the lower end of the domain's interval, one back to the upper end. */
  lemma ShiftIsEnd(c: Clocks, keys: seq<seq<string>>, lo: seq<Ns>, hi: seq<Ns>, shift: seq<int>, i: nat)
    requires Analyzed(c, keys, lo, hi, shift) && i < c.n
    ensures shift[i] > 0 ==> lo[i] == Fin(shift[i])
    ensures shift[i] < 0 ==> hi[i] == Fin(shift[i])
    ensures forall x :: Admitted(c, x) ==> |x| == c.n && Inside(x[i], lo[i], hi[i])
  {
    forall x | Admitted(c, x) ensures |x| == c.n && Inside(x[i], lo[i], hi[i]) {
      assert Between(x, lo, hi);
    }
    var s := shift[i];
    if s > 0 {
      assert Inside(s - 1, lo[i], hi[i]) ==> Abs(s) <= Abs(s - 1);
    } else if s < 0 {
      assert Inside(s + 1, lo[i], hi[i]) ==> Abs(s) <= Abs(s + 1);
    }
  }

  lemma UpperEnds(c: Clocks, lo: seq<Ns>, hi: seq<Ns>) returns (x: seq<int>)
    requires ExactOffsets(c.n, c.ev, c.deps, c.gone, c.bounds, c.ref, lo, hi)
    ensures Admitted(c, x) && AtUpper(x, hi, 0)
  {
    assert UpperAdmitted(c.n, c.ev, c.deps, c.gone, c.bounds, c.ref, hi, 0);
    x :| Admitted(c, x) && AtUpper(x, hi, 0);
  }

  lemma LowerEnds(c: Clocks, lo: seq<Ns>, hi: seq<Ns>) returns (x: seq<int>)
    requires ExactOffsets(c.n, c.ev, c.deps, c.gone, c.bounds, c.ref, lo, hi)
    ensures Admitted(c, x) && AtLower(x, lo, 0)
  {
    assert LowerAdmitted(c.n, c.ev, c.deps, c.gone, c.bounds, c.ref, lo, 0);
    x :| Admitted(c, x) && AtLower(x, lo, 0);
  }

  /** A shift by itself is met by some admitted offsets, and no admitted offset of its domain is smaller. */
  lemma ShiftIsSmallest(c: Clocks, keys: seq<seq<string>>, lo: seq<Ns>, hi: seq<Ns>, shift: seq<int>, i: nat)
    returns (x: seq<int>)
    requires Analyzed(c, keys, lo, hi, shift) && i < c.n && shift[i] != 0
    ensures Admitted(c, x) && x[i] == shift[i]
    ensures forall y :: Admitted(c, y) ==> |y| == c.n && Abs(shift[i]) <= Abs(y[i])
  {
    ShiftIsEnd(c, keys, lo, hi, shift, i);
    if shift[i] > 0 {
      x := LowerEnds(c, lo, hi);
    } else {
      x := UpperEnds(c, lo, hi);
    }
  }

  // ---- all of them ----

  /** The offsets have every shifted domain where its shift puts it. */
  ghost predicate Meets(x: seq<int>, shift: seq<int>) {
    |x| == |shift| && forall i :: 0 <= i < |x| && shift[i] != 0 ==> x[i] == shift[i]
  }

  ghost predicate MetTogether(c: Clocks, shift: seq<int>) {
    exists x :: Admitted(c, x) && Meets(x, shift)
  }

  /** A domain shifted forward and one shifted back can be where their shifts put them. */
  ghost predicate PairMet(c: Clocks, shift: seq<int>, i: nat, j: nat) {
    i < |shift| && j < |shift| && exists x :: Admitted(c, x) && |x| == |shift| && x[i] == shift[i] && x[j] == shift[j]
  }

  ghost predicate OpposedMet(c: Clocks, shift: seq<int>) {
    forall i: nat, j: nat :: i < |shift| && j < |shift| && shift[i] > 0 && shift[j] < 0 ==> PairMet(c, shift, i, j)
  }

  /** The first m forward shifts are met. */
  ghost predicate ForwardTo(x: seq<int>, shift: seq<int>, m: nat) {
    |x| == |shift| && m <= |x| && forall i :: 0 <= i < m && shift[i] > 0 ==> x[i] == shift[i]
  }

  ghost predicate BackTo(x: seq<int>, shift: seq<int>, m: nat) {
    |x| == |shift| && m <= |x| && forall i :: 0 <= i < m && shift[i] < 0 ==> x[i] == shift[i]
  }

  /** One shift back, met together with the first m shifts forward. */
  lemma {:induction false} ForwardWith(c: Clocks, keys: seq<seq<string>>, lo: seq<Ns>, hi: seq<Ns>, shift: seq<int>,
        j: nat, m: nat)
    returns (x: seq<int>)
    requires Analyzed(c, keys, lo, hi, shift) && OpposedMet(c, shift) && j < c.n && shift[j] < 0 && m <= c.n
    ensures Admitted(c, x) && ForwardTo(x, shift, m) && x[j] == shift[j]
  {
    if m == 0 {
      ShiftIsEnd(c, keys, lo, hi, shift, j);
      x := UpperEnds(c, lo, hi);
    } else {
      var i := m - 1;
      x := ForwardWith(c, keys, lo, hi, shift, j, i);
      if shift[i] > 0 {
        assert PairMet(c, shift, i, j);
        var y :| Admitted(c, y) && |y| == |shift| && y[i] == shift[i] && y[j] == shift[j];
        LeastAdmitted(c, x, y);
        AboveForward(c, keys, lo, hi, shift, x);
        AboveForward(c, keys, lo, hi, shift, y);
        hide Admitted, OpposedMet;
        x := Least(x, y);
      }
    }
  }

  /** No admitted offset is short of a forward shift, or beyond a shift back. */
  lemma AboveForward(c: Clocks, keys: seq<seq<string>>, lo: seq<Ns>, hi: seq<Ns>, shift: seq<int>, x: seq<int>)
    requires Analyzed(c, keys, lo, hi, shift) && Admitted(c, x)
    ensures |x| == |shift| == c.n
    ensures forall i :: 0 <= i < |x| && shift[i] > 0 ==> x[i] >= shift[i]
    ensures forall i :: 0 <= i < |x| && shift[i] < 0 ==> x[i] <= shift[i]
  {
    forall i | 0 <= i < |x| ensures (shift[i] > 0 ==> x[i] >= shift[i]) && (shift[i] < 0 ==> x[i] <= shift[i]) {
      ShiftIsEnd(c, keys, lo, hi, shift, i);
    }
  }

  /** All shifts forward, met together with the first m shifts back. */
  lemma {:induction false} BackWith(c: Clocks, keys: seq<seq<string>>, lo: seq<Ns>, hi: seq<Ns>, shift: seq<int>,
        m: nat)
    returns (x: seq<int>)
    requires Analyzed(c, keys, lo, hi, shift) && OpposedMet(c, shift) && m <= c.n
    ensures Admitted(c, x) && ForwardTo(x, shift, c.n) && BackTo(x, shift, m)
  {
    if m == 0 {
      x := LowerEnds(c, lo, hi);
      forall i | 0 <= i < c.n && shift[i] > 0 ensures x[i] == shift[i] {
        ShiftIsEnd(c, keys, lo, hi, shift, i);
      }
    } else {
      var j := m - 1;
      x := BackWith(c, keys, lo, hi, shift, j);
      if shift[j] < 0 {
        var y := ForwardWith(c, keys, lo, hi, shift, j, c.n);
        GreatestAdmitted(c, x, y);
        AboveForward(c, keys, lo, hi, shift, x);
        AboveForward(c, keys, lo, hi, shift, y);
        hide Admitted, OpposedMet;
        x := Greatest(x, y);
      }
    }
  }

  /** The shifts satisfy the dependencies together exactly when every forward one does together with every one back;
      so always when all go in one direction. */
  lemma ShiftsMetIffOpposedMet(c: Clocks, keys: seq<seq<string>>, lo: seq<Ns>, hi: seq<Ns>, shift: seq<int>)
    requires Analyzed(c, keys, lo, hi, shift)
    ensures MetTogether(c, shift) <==> OpposedMet(c, shift)
    ensures (forall i :: 0 <= i < |shift| ==> shift[i] >= 0) || (forall i :: 0 <= i < |shift| ==> shift[i] <= 0) ==>
      MetTogether(c, shift)
  {
    if MetTogether(c, shift) {
      var x :| Admitted(c, x) && Meets(x, shift);
      forall i: nat, j: nat | i < |shift| && j < |shift| && shift[i] > 0 && shift[j] < 0
        ensures PairMet(c, shift, i, j)
      {
        assert x[i] == shift[i] && x[j] == shift[j];
      }
    }
    if OpposedMet(c, shift) {
      var x := BackWith(c, keys, lo, hi, shift, c.n);
      assert Meets(x, shift);
    }
  }

  // ---- the shifted trace ----

  /** The events after every domain's timestamps have been moved by its shift. */
  function Moved(ev: Events, shift: seq<int>): (r: Events)
    ensures r.domain == ev.domain && |r.t| == |ev.t|
  {
    var t := seq(|ev.t|, v requires 0 <= v < |ev.t| =>
      if v < |ev.domain| && ev.domain[v] < |shift| then ev.t[v] + shift[ev.domain[v]] else ev.t[v]);
    Events(ev.domain, t)
  }

  /** Some offsets admitted by the moved trace leave every shifted domain where it is. */
  ghost predicate MovedInOrder(c: Clocks, shift: seq<int>) {
    exists y :: Admitted(c.(ev := Moved(c.ev, shift)), y) && |y| == |shift|
      && forall i :: 0 <= i < |y| && shift[i] != 0 ==> y[i] == 0
  }

  /** Adding the shifts turns offsets of the moved trace into offsets of the recorded one. */
  lemma MovedOrder(c: Clocks, shift: seq<int>, x: seq<int>, y: seq<int>)
    requires |x| == |y| == |shift| && (forall i :: 0 <= i < |x| ==> x[i] == y[i] + shift[i])
    requires forall v :: v in c.ev.domain ==> v < |shift|
    ensures Honours(x, c.ev, c.deps, c.gone) <==> Honours(y, Moved(c.ev, shift), c.deps, c.gone)
  {
    var ev' := Moved(c.ev, shift);
    forall i | 0 <= i < |c.deps|
      ensures Crosses(c.ev, c.deps[i]) <==> Crosses(ev', c.deps[i])
      ensures Crosses(c.ev, c.deps[i]) ==> (InOrder(x, c.ev, c.deps[i]) <==> InOrder(y, ev', c.deps[i]))
    {
      if Crosses(c.ev, c.deps[i]) {
        assert c.ev.domain[c.deps[i].u] in c.ev.domain && c.ev.domain[c.deps[i].v] in c.ev.domain;
      }
    }
    hide Crosses, InOrder;
  }

  function Less(x: seq<int>, shift: seq<int>): (y: seq<int>)
    requires |x| == |shift|
    ensures |y| == |x| && forall i :: 0 <= i < |x| ==> y[i] == x[i] - shift[i]
  {
    seq(|x|, i requires 0 <= i < |x| => x[i] - shift[i])
  }

  function Plus(y: seq<int>, shift: seq<int>): (x: seq<int>)
    requires |y| == |shift|
    ensures |x| == |y| && forall i :: 0 <= i < |y| ==> x[i] == y[i] + shift[i]
  {
    seq(|y|, i requires 0 <= i < |y| => y[i] + shift[i])
  }

  /** The reference is not shifted, and every shift respects its domain's bound. */
  lemma ShiftWithinBounds(c: Clocks, keys: seq<seq<string>>, lo: seq<Ns>, hi: seq<Ns>, shift: seq<int>)
    requires Analyzed(c, keys, lo, hi, shift)
    ensures c.ref < c.n && shift[c.ref] == 0
    ensures forall i :: 0 <= i < c.n && i < |c.bounds| && shift[i] != 0 && c.bounds[i].Fin? ==>
      -c.bounds[i].val <= shift[i] <= c.bounds[i].val
  {
    var z := UpperEnds(c, lo, hi);
    if shift[c.ref] != 0 { var x := ShiftIsSmallest(c, keys, lo, hi, shift, c.ref); }
    forall i | 0 <= i < c.n && i < |c.bounds| && shift[i] != 0 && c.bounds[i].Fin?
      ensures -c.bounds[i].val <= shift[i] <= c.bounds[i].val
    {
      var x := ShiftIsSmallest(c, keys, lo, hi, shift, i);
    }
  }

  /** Applied to the trace, the shifts put its dependencies in order exactly when they are met together. */
  lemma MovedIffMet(c: Clocks, keys: seq<seq<string>>, lo: seq<Ns>, hi: seq<Ns>, shift: seq<int>)
    requires Analyzed(c, keys, lo, hi, shift) && NonNegative(c.bounds) && forall v :: v in c.ev.domain ==> v < c.n
    ensures MovedInOrder(c, shift) <==> MetTogether(c, shift)
  {
    ShiftWithinBounds(c, keys, lo, hi, shift);
    if MetTogether(c, shift) {
      var x :| Admitted(c, x) && Meets(x, shift);
      var y := Less(x, shift);
      MovedOrder(c, shift, x, y);
      assert Admitted(c.(ev := Moved(c.ev, shift)), y);
    }
    if MovedInOrder(c, shift) {
      var y :| Admitted(c.(ev := Moved(c.ev, shift)), y) && |y| == |shift|
            && forall i :: 0 <= i < |y| && shift[i] != 0 ==> y[i] == 0;
      var x := Plus(y, shift);
      MovedOrder(c, shift, x, y);
      assert Admitted(c, x) && Meets(x, shift);
    }
  }

  // ---- two shifts that go against each other ----

  const HOST_AND_TWO: seq<seq<string>> := [["host", "0"], ["opencl", "0", "1"], ["opencl", "0", "2"]]

  /** Three dependencies against the recorded times: a host event at 5 precedes one of device 1 at 0, an event of
      device 2 at 5 precedes one of the host at 0, and an event of device 2 at 20 precedes one of device 1 at 0. */
  function Crossed(): Clocks {
    Clocks(3, Events([0, 1, 2, 0, 2, 1], [5, 0, 5, 0, 20, 0]), [Dep(0, 0, 1, 1), Dep(1, 2, 3, 1), Dep(2, 4, 5, 1)], {},
           [Fin(0), Inf, Inf], 0)
  }

  lemma CrossedAdmits(x: seq<int>)
    ensures Admitted(Crossed(), x)
       <==> |x| == 3 && x[0] == 0 && x[1] >= 5 && x[2] <= -5 && x[1] - x[2] >= 20
  {
    var c := Crossed();
    if |x| == 3 {
      assert Crosses(c.ev, c.deps[0]) && (InOrder(x, c.ev, c.deps[0]) <==> x[0] + 5 <= x[1]);
      assert Crosses(c.ev, c.deps[1]) && (InOrder(x, c.ev, c.deps[1]) <==> x[2] + 5 <= x[0]);
      assert Crosses(c.ev, c.deps[2]) && (InOrder(x, c.ev, c.deps[2]) <==> x[2] + 20 <= x[1]);
      hide InOrder, Crosses;
    }
  }

  /** The devices are shifted by 5 and -5, each the smallest possible, yet the dependency between them needs them 20
      apart. */
  lemma CrossedShiftsNotMet(lo: seq<Ns>, hi: seq<Ns>, shift: seq<int>)
    requires Analyzed(Crossed(), HOST_AND_TWO, lo, hi, shift)
    ensures shift == [0, 5, -5] && !MetTogether(Crossed(), shift)
  {
    var c := Crossed();
    forall x ensures Admitted(c, x) <==> |x| == 3 && x[0] == 0 && x[1] >= 5 && x[2] <= -5 && x[1] - x[2] >= 20 {
      CrossedAdmits(x);
    }
    CrossedShift(lo, hi, shift);
    hide Admitted, Analyzed;
  }

  lemma CrossedShift(lo: seq<Ns>, hi: seq<Ns>, shift: seq<int>)
    requires Analyzed(Crossed(), HOST_AND_TWO, lo, hi, shift)
    ensures shift == [0, 5, -5]
  {
    var c := Crossed();
    var near, far := [0, 5, -15], [0, 15, -5];
    CrossedAdmits(near);
    CrossedAdmits(far);
    ShiftWithinBounds(c, HOST_AND_TWO, lo, hi, shift);
    var x := LowerEnds(c, lo, hi);
    var y := UpperEnds(c, lo, hi);
    CrossedAdmits(x);
    CrossedAdmits(y);
    assert Between(near, lo, hi) && Between(far, lo, hi);
    hide Admitted, ExactOffsets;
    assert lo[1] == Fin(5) && hi[2] == Fin(-5);
    assert Inside(5, lo[1], hi[1]) && Inside(-5, lo[2], hi[2]);
  }
}
