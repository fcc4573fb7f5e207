/** Generating a channel's options: `_p2p_alignment` of src/analysis/cp_alternatives.py for one channel. */
module P2pAlignment {
  import opened Options
  import opened P2pMoves

  /** One selected pairing: its candidate, its receive's span and end, the position of its send in the channel,
      and whether it was recorded with low confidence (events were lost). */
  datatype Pairing = Pairing(cand: nat, dst: nat, end: int, send: nat, low: bool)

  datatype Alternative = Alternative(dst: nat, src: nat)

  /** Candidates to drop and alternatives to use; -1 stands for no alternative. */
  datatype ChoiceOption = ChoiceOption(remove: seq<nat>, add: seq<int>)

  /** Alternatives are numbered after the recorded candidates. */
  class Builder {
    const recorded: nat
    var alts: seq<Alternative>

    constructor (recorded: nat)
      ensures this.recorded == recorded && alts == []
    {
      this.recorded := recorded;
      alts := [];
    }

    method Alt(dst: nat, src: nat) returns (id: int)
      modifies this
      ensures alts == old(alts) + [Alternative(dst, src)] && Names(id, alts, recorded, dst, src)
    {
      alts := alts + [Alternative(dst, src)];
      id := recorded + |alts| - 1;
    }
  }

  predicate Names(id: int, alts: seq<Alternative>, recorded: nat, dst: nat, src: nat) {
    recorded <= id < recorded + |alts| && alts[id - recorded] == Alternative(dst, src)
  }

  function Sends(ps: seq<Pairing>): (ks: seq<nat>)
    ensures |ks| == |ps| && forall m :: 0 <= m < |ps| ==> ks[m] == ps[m].send
  {
    if ps == [] then [] else Sends(ps[..|ps|-1]) + [ps[|ps|-1].send]
  }

  /** The times of the channel: when each send starts and when each receive ends. */
  datatype Channel = Channel(sends: seq<nat>, starts: seq<int>, lost: bool)

  ghost predicate ChannelOk(c: Channel, ps: seq<Pairing>, ends: seq<int>) {
    |c.starts| == |c.sends| && Sorted(c.starts) && |ends| == |ps|
      && forall m :: 0 <= m < |ps| ==> ps[m].send < |c.sends|
  }

  // ---- what an option stands for ----

  function FirstAdded(mv: Move): nat
    requires !mv.Recorded?
  {
    if mv.Drop? then mv.first + 1 else mv.first
  }

  /** The alternative pairs the j-th receive from `first` on with the send d places after its recorded one. */
  predicate Shifts(id: int, first: nat, j: nat, d: int, alts: seq<Alternative>, recorded: nat, c: Channel,
        ps: seq<Pairing>)
  {
    && first + j < |ps| && 0 <= ps[first + j].send + d < |c.sends|
    && Names(id, alts, recorded, ps[first + j].dst, c.sends[ps[first + j].send + d])
  }

  /** The receive is paired with the first send of the channel, which has no previous one. */
  predicate NoSend(first: nat, j: nat, d: int, ps: seq<Pairing>) {
    first + j < |ps| && ps[first + j].send + d < 0
  }

  /** From receive `first` on, each alternative shifts one receive that has a send to go to. */
  ghost predicate AllShift(ids: seq<int>, first: nat, d: int, alts: seq<Alternative>, recorded: nat, c: Channel,
        ps: seq<Pairing>)
  {
    forall j :: 0 <= j < |ids| ==> NoSend(first, j, d, ps) || Shifts(ids[j], first, j, d, alts, recorded, c, ps)
  }

  /** The candidates of the pairings a..e. */
  function Candidates(ps: seq<Pairing>, a: nat, e: nat): (run: seq<nat>)
    requires a <= e < |ps|
    ensures |run| == e + 1 - a
  {
    if a == e then [ps[a].cand] else Candidates(ps, a, e - 1) + [ps[e].cand]
  }

  /** The option drops the pairings of the move's receives and adds, for each that keeps a send, the alternative
      that pairs it with the send the move gives it; never the placeholder. */
  ghost predicate Denotes(o: ChoiceOption, mv: Move, alts: seq<Alternative>, recorded: nat, c: Channel,
        ps: seq<Pairing>)
  {
    if mv.Recorded? then o == ChoiceOption([], []) else
    && mv.first <= mv.last < |ps|
    && o.remove == Candidates(ps, mv.first, mv.last)
    && |o.add| == mv.last - FirstAdded(mv) + 1
    && (forall j :: 0 <= j < |o.add| ==>
      Shifts(o.add[j], FirstAdded(mv), j, if mv.Later? then 1 else -1, alts, recorded, c, ps))
  }

  ghost predicate AllDenote(opts: seq<ChoiceOption>, moves: seq<Move>, alts: seq<Alternative>, recorded: nat,
        c: Channel, ps: seq<Pairing>)
  {
    |opts| == |moves| && forall k :: 0 <= k < |opts| ==> Denotes(opts[k], moves[k], alts, recorded, c, ps)
  }

  lemma MoreAlternatives(opts: seq<ChoiceOption>, moves: seq<Move>, alts: seq<Alternative>, alts': seq<Alternative>,
        recorded: nat, c: Channel, ps: seq<Pairing>)
    requires AllDenote(opts, moves, alts, recorded, c, ps) && alts <= alts'
    ensures AllDenote(opts, moves, alts', recorded, c, ps)
  {
    forall k | 0 <= k < |opts| ensures Denotes(opts[k], moves[k], alts', recorded, c, ps) {
      assert Denotes(opts[k], moves[k], alts, recorded, c, ps);
    }
  }

  // ---- which moves are generated ----

  /** A move that is to be offered: the trace allows it and, going forward, no send starts after its receive ends. */
  ghost predicate Open(c: Channel, ks: seq<nat>, ends: seq<int>, mv: Move)
    requires |ends| == |ks|
  {
    Allowed(ks, mv, |c.starts|, c.lost) && (mv.Later? ==> KeepsCausality(ks, mv, c.starts, ends))
  }

  /** Of the runs that end before `upto`, exactly the open moves have been offered. */
  ghost predicate Complete(c: Channel, ks: seq<nat>, ends: seq<int>, moves: seq<Move>, upto: nat)
    requires |ends| == |ks|
  {
    forall mv, x: nat, y: nat :: OfOneRun(ks, mv, x, y) && y < upto ==> (mv in moves <==> Open(c, ks, ends, mv))
  }

  ghost predicate Confined(ks: seq<nat>, moves: seq<Move>, upto: nat) {
    forall mv :: mv in moves && mv != Recorded ==> exists x: nat, y: nat :: OfOneRun(ks, mv, x, y) && y < upto
  }

  lemma RunsAreApart(ks: seq<nat>, x: nat, y: nat, a: nat, e: nat)
    requires IsRun(ks, x, y) && IsRun(ks, a, e) && a <= y <= e
    ensures x == a && y == e
  {
  }

  /** Adding exactly the open moves of the next run. */
  lemma NextRunComplete(c: Channel, ks: seq<nat>, ends: seq<int>, moves: seq<Move>, added: seq<Move>, a: nat, e: nat)
    requires |ends| == |ks| && IsRun(ks, a, e)
    requires Complete(c, ks, ends, moves, a) && Confined(ks, moves, a)
    requires forall mv :: mv in added ==> OfOneRun(ks, mv, a, e)
    requires forall mv :: OfOneRun(ks, mv, a, e) ==> (mv in added <==> Open(c, ks, ends, mv))
    ensures Complete(c, ks, ends, moves + added, e + 1) && Confined(ks, moves + added, e + 1)
  {
    hide Open;
    forall mv, x: nat, y: nat | OfOneRun(ks, mv, x, y) && y < e + 1
      ensures mv in moves + added <==> Open(c, ks, ends, mv)
    {
      hide IsRun;
      assert mv in added ==> OfOneRun(ks, mv, a, e);
      assert mv in moves ==> exists u: nat, v: nat :: OfOneRun(ks, mv, u, v) && v < a;
      if y >= a { RunsAreApart(ks, x, y, a, e); }
    }
    forall mv | mv in moves + added && mv != Recorded
      ensures exists x: nat, y: nat :: OfOneRun(ks, mv, x, y) && y < e + 1
    {
      if mv in added { assert OfOneRun(ks, mv, a, e); }
    }
  }

  // ---- the moves of one run, in the order they are offered ----

  function LaterMoves(i: nat, e: nat): seq<Move>
    decreases e + 1 - i
  {
    if i > e then [] else LaterMoves(i + 1, e) + [Later(i, e)]
  }

  /** Up to but not including receive n. */
  function EarlierMoves(a: nat, n: nat): seq<Move> {
    if n <= a then [] else EarlierMoves(a, n - 1) + [Earlier(a, n - 1)]
  }

  function DropMoves(i: nat, e: nat): seq<Move>
    decreases e + 1 - i
  {
    if i > e then [] else DropMoves(i + 1, e) + [Drop(i, e)]
  }

  lemma {:induction false} LaterMovesAre(i: nat, e: nat)
    ensures forall mv :: mv in LaterMoves(i, e) <==> mv.Later? && i <= mv.first <= e && mv.last == e
    decreases e + 1 - i
  {
    if i <= e { LaterMovesAre(i + 1, e); }
  }

  lemma {:induction false} EarlierMovesAre(a: nat, n: nat)
    ensures forall mv :: mv in EarlierMoves(a, n) <==> mv.Earlier? && mv.first == a && a <= mv.last < n
  {
    if a < n { EarlierMovesAre(a, n - 1); }
  }

  lemma {:induction false} DropMovesAre(i: nat, e: nat)
    ensures forall mv :: mv in DropMoves(i, e) <==> mv.Drop? && i <= mv.first <= e && mv.last == e
    decreases e + 1 - i
  {
    if i <= e { DropMovesAre(i + 1, e); }
  }

  /** Everything offered for the run a..e, when f is the first receive from which the run fits the next sends. */
  function RunMoves(c: Channel, ks: seq<nat>, a: nat, e: nat, f: nat): seq<Move>
    requires a <= e < |ks|
  {
    (if ks[e] + 1 < |c.sends| then LaterMoves(f, e) else []) + (if ks[a] >= 1 then EarlierMoves(a, e + 1) else [])
      + (if c.lost then DropMoves(a, e) else [])
  }

  /** From f on, and not from its predecessor, every receive of the run ends after the next send starts. */
  ghost predicate Front(c: Channel, ks: seq<nat>, ends: seq<int>, a: nat, e: nat, f: nat)
    requires |ends| == |ks| && e < |ks|
  {
    && a <= f <= e + 1 && (forall m :: f <= m <= e ==> Causal(c.starts, ends, m, ks[m] + 1))
    && (f > a ==> !Causal(c.starts, ends, f - 1, ks[f-1] + 1))
  }

  /** The list holds exactly the open moves of the run. */
  lemma RunMovesAreOpen(c: Channel, ks: seq<nat>, ends: seq<int>, a: nat, e: nat, f: nat, mv: Move)
    requires |ends| == |ks| && Increasing(ks) && |c.sends| == |c.starts|
    requires forall m :: 0 <= m < |ks| ==> ks[m] < |c.starts|
    requires IsRun(ks, a, e) && (ks[e] + 1 < |c.sends| ==> Front(c, ks, ends, a, e, f))
    ensures mv in RunMoves(c, ks, a, e, f) ==> OfOneRun(ks, mv, a, e)
    ensures OfOneRun(ks, mv, a, e) ==> (mv in RunMoves(c, ks, a, e, f) <==> Open(c, ks, ends, mv))
  {
    LaterMovesAre(f, e);
    EarlierMovesAre(a, e + 1);
    DropMovesAre(a, e);
    if OfOneRun(ks, mv, a, e) {
      AllowedMoves(ks, mv, |c.starts|, c.lost, a, e);
      hide Allowed, OfOneRun;
      if mv.Later? { LaterCausality(ks, c.starts, ends, mv.first, e); }
      hide KeepsCausality;
    }
  }

  // ---- the options ----

  /** New alternatives for receives f..e, each to the next send. */
  method NextSends(b: Builder, c: Channel, ps: seq<Pairing>, f: nat, e: nat) returns (ids: seq<int>)
    requires f <= e < |ps| && forall m :: f <= m <= e ==> ps[m].send + 1 < |c.sends|
    modifies b
    ensures old(b.alts) <= b.alts && |ids| == e + 1 - f && AllShift(ids, f, 1, b.alts, b.recorded, c, ps)
  {
    ids := [];
    var m := f;
    while m <= e
      invariant f <= m <= e + 1 && |ids| == m - f && old(b.alts) <= b.alts
      invariant AllShift(ids, f, 1, b.alts, b.recorded, c, ps)
    {
      ghost var alts := b.alts;
      var id := b.Alt(ps[m].dst, c.sends[ps[m].send + 1]);
      OneMoreShift(ids, id, f, 1, alts, b.alts, b.recorded, c, ps);
      ids := ids + [id];
      m := m + 1;
    }
  }

  /** New alternatives for receives a..e, each to the previous send; -1 where there is none. */
  method PreviousSends(b: Builder, c: Channel, ps: seq<Pairing>, a: nat, e: nat) returns (ids: seq<int>)
    requires a <= e < |ps| && forall m :: a <= m <= e ==> ps[m].send < |c.sends|
    modifies b
    ensures old(b.alts) <= b.alts && |ids| == e + 1 - a && AllShift(ids, a, -1, b.alts, b.recorded, c, ps)
  {
    ids := [];
    var m := a;
    while m <= e
      invariant a <= m <= e + 1 && |ids| == m - a && old(b.alts) <= b.alts
      invariant AllShift(ids, a, -1, b.alts, b.recorded, c, ps)
    {
      ghost var alts := b.alts;
      var id := -1;
      if ps[m].send >= 1 {
        id := b.Alt(ps[m].dst, c.sends[ps[m].send - 1]);
      }
      OneMoreShift(ids, id, a, -1, alts, b.alts, b.recorded, c, ps);
      ids := ids + [id];
      m := m + 1;
    }
  }

  lemma OneMoreShift(ids: seq<int>, id: int, first: nat, d: int, alts: seq<Alternative>, alts': seq<Alternative>,
        recorded: nat, c: Channel, ps: seq<Pairing>)
    requires AllShift(ids, first, d, alts, recorded, c, ps) && alts <= alts'
    requires NoSend(first, |ids|, d, ps) || Shifts(id, first, |ids|, d, alts', recorded, c, ps)
    ensures AllShift(ids + [id], first, d, alts', recorded, c, ps)
  {
  }

  lemma {:induction false} CandidatesParts(ps: seq<Pairing>, a: nat, i: nat, e: nat)
    requires a <= i <= e < |ps|
    ensures Candidates(ps, a, e)[i - a..] == Candidates(ps, i, e)
    ensures Candidates(ps, a, e)[..i + 1 - a] == Candidates(ps, a, i)
    decreases e
  {
    if i < e {
      CandidatesParts(ps, a, i, e - 1);
    } else if a < e {
      assert Candidates(ps, a, e)[e - a..] == [ps[e].cand];
    }
  }

  lemma OneMoreOption(opts: seq<ChoiceOption>, moves: seq<Move>, o: ChoiceOption, mv: Move, alts: seq<Alternative>,
        recorded: nat, c: Channel, ps: seq<Pairing>)
    requires AllDenote(opts, moves, alts, recorded, c, ps) && Denotes(o, mv, alts, recorded, c, ps)
    ensures AllDenote(opts + [o], moves + [mv], alts, recorded, c, ps)
  {
  }

  lemma ShiftTail(ids: seq<int>, first: nat, n: nat, d: int, alts: seq<Alternative>, recorded: nat, c: Channel,
        ps: seq<Pairing>)
    requires AllShift(ids, first, d, alts, recorded, c, ps) && n <= |ids|
    ensures AllShift(ids[n..], first + n, d, alts, recorded, c, ps)
  {
    forall j | 0 <= j < |ids[n..]|
      ensures NoSend(first + n, j, d, ps) || Shifts(ids[n..][j], first + n, j, d, alts, recorded, c, ps)
    {
      var l := n + j;
      assert NoSend(first, l, d, ps) || Shifts(ids[l], first, l, d, alts, recorded, c, ps);
    }
  }

  lemma AllHaveSends(ids: seq<int>, first: nat, d: int, alts: seq<Alternative>, recorded: nat, c: Channel,
        ps: seq<Pairing>)
    requires AllShift(ids, first, d, alts, recorded, c, ps) && first + |ids| <= |ps|
    requires forall m :: first <= m < first + |ids| ==> ps[m].send + d >= 0
    ensures forall j :: 0 <= j < |ids| ==> Shifts(ids[j], first, j, d, alts, recorded, c, ps)
  {
  }

  lemma SuffixDenotes(c: Channel, ps: seq<Pairing>, a: nat, e: nat, f: nat, i: nat, ids: seq<int>,
        alts: seq<Alternative>, recorded: nat)
    requires a <= f <= i <= e < |ps| && |ids| == e + 1 - f && AllShift(ids, f, 1, alts, recorded, c, ps)
    ensures Denotes(ChoiceOption(Candidates(ps, a, e)[i - a..], ids[i - f..]), Later(i, e), alts, recorded, c, ps)
  {
    CandidatesParts(ps, a, i, e);
    ShiftTail(ids, f, i - f, 1, alts, recorded, c, ps);
    AllHaveSends(ids[i - f..], i, 1, alts, recorded, c, ps);
    hide Shifts, Candidates, AllShift;
  }

  lemma PrefixDenotes(c: Channel, ps: seq<Pairing>, a: nat, e: nat, i: nat, ids: seq<int>, alts: seq<Alternative>,
        recorded: nat)
    requires a <= i <= e < |ps| && |ids| == e + 1 - a && (forall m :: a <= m <= e ==> ps[m].send >= 1)
    requires AllShift(ids, a, -1, alts, recorded, c, ps)
    ensures Denotes(ChoiceOption(Candidates(ps, a, e)[..i + 1 - a], ids[..i + 1 - a]), Earlier(a, i), alts,
      recorded, c, ps)
  {
    CandidatesParts(ps, a, i, e);
    AllHaveSends(ids[..i + 1 - a], a, -1, alts, recorded, c, ps);
    hide Shifts, Candidates, AllShift;
  }

  lemma DropDenotes(c: Channel, ps: seq<Pairing>, a: nat, e: nat, i: nat, ids: seq<int>, alts: seq<Alternative>,
        recorded: nat)
    requires a <= i <= e < |ps| && |ids| == e + 1 - a && (forall m :: a < m <= e ==> ps[m].send >= 1)
    requires AllShift(ids, a, -1, alts, recorded, c, ps)
    ensures Denotes(ChoiceOption(Candidates(ps, a, e)[i - a..], ids[i - a + 1..]), Drop(i, e), alts, recorded, c, ps)
  {
    CandidatesParts(ps, a, i, e);
    ShiftTail(ids, a, i - a + 1, -1, alts, recorded, c, ps);
    AllHaveSends(ids[i - a + 1..], i + 1, -1, alts, recorded, c, ps);
    hide Shifts, Candidates, AllShift;
  }

  /** The suffixes of the run that go to the next sends, the shortest first. */
  method SuffixOptions(c: Channel, ps: seq<Pairing>, a: nat, e: nat, f: nat, ids: seq<int>,
        ghost alts: seq<Alternative>, ghost recorded: nat)
    returns (opts: seq<ChoiceOption>)
    requires a <= f <= e < |ps| && |ids| == e + 1 - f && AllShift(ids, f, 1, alts, recorded, c, ps)
    ensures AllDenote(opts, LaterMoves(f, e), alts, recorded, c, ps)
  {
    var run := Candidates(ps, a, e);
    opts := [];
    var i := e + 1;
    assert AllDenote([], [], alts, recorded, c, ps);
    hide Denotes, AllDenote, AllShift, Candidates;
    while i > f
      invariant f <= i <= e + 1 && AllDenote(opts, LaterMoves(i, e), alts, recorded, c, ps)
    {
      SuffixDenotes(c, ps, a, e, f, i - 1, ids, alts, recorded);
      OneMoreOption(opts, LaterMoves(i, e), ChoiceOption(run[i - 1 - a..], ids[i - 1 - f..]), Later(i - 1, e), alts,
        recorded, c, ps);
      i := i - 1;
      opts := opts + [ChoiceOption(run[i - a..], ids[i - f..])];
    }
  }

  /** The prefixes of the run that go to the previous sends, the shortest first. */
  method PrefixOptions(c: Channel, ps: seq<Pairing>, a: nat, e: nat, ids: seq<int>, ghost alts: seq<Alternative>,
        ghost recorded: nat)
    returns (opts: seq<ChoiceOption>)
    requires a <= e < |ps| && |ids| == e + 1 - a && (forall m :: a <= m <= e ==> ps[m].send >= 1)
    requires AllShift(ids, a, -1, alts, recorded, c, ps)
    ensures AllDenote(opts, EarlierMoves(a, e + 1), alts, recorded, c, ps)
  {
    var run := Candidates(ps, a, e);
    opts := [];
    var i := a;
    assert AllDenote([], [], alts, recorded, c, ps);
    hide Denotes, AllDenote, AllShift, Candidates;
    while i <= e
      invariant a <= i <= e + 1 && AllDenote(opts, EarlierMoves(a, i), alts, recorded, c, ps)
    {
      PrefixDenotes(c, ps, a, e, i, ids, alts, recorded);
      OneMoreOption(opts, EarlierMoves(a, i), ChoiceOption(run[..i + 1 - a], ids[..i + 1 - a]), Earlier(a, i), alts,
        recorded, c, ps);
      opts := opts + [ChoiceOption(run[..i + 1 - a], ids[..i + 1 - a])];
      i := i + 1;
    }
  }

  /** Each receive of the run in turn loses its send, the later ones move back by one. */
  method DropOptions(c: Channel, ps: seq<Pairing>, a: nat, e: nat, ids: seq<int>, ghost alts: seq<Alternative>,
        ghost recorded: nat)
    returns (opts: seq<ChoiceOption>)
    requires a <= e < |ps| && |ids| == e + 1 - a && (forall m :: a < m <= e ==> ps[m].send >= 1)
    requires AllShift(ids, a, -1, alts, recorded, c, ps)
    ensures AllDenote(opts, DropMoves(a, e), alts, recorded, c, ps)
  {
    var run := Candidates(ps, a, e);
    opts := [];
    var i := e + 1;
    assert AllDenote([], [], alts, recorded, c, ps);
    hide Denotes, AllDenote, AllShift, Candidates;
    while i > a
      invariant a <= i <= e + 1 && AllDenote(opts, DropMoves(i, e), alts, recorded, c, ps)
    {
      DropDenotes(c, ps, a, e, i - 1, ids, alts, recorded);
      OneMoreOption(opts, DropMoves(i, e), ChoiceOption(run[i - 1 - a..], ids[i - a..]), Drop(i - 1, e), alts,
        recorded, c, ps);
      i := i - 1;
      opts := opts + [ChoiceOption(run[i - a..], ids[i - a + 1..])];
    }
  }

  // ---- one run ----

  lemma JoinOptions(o1: seq<ChoiceOption>, m1: seq<Move>, o2: seq<ChoiceOption>, m2: seq<Move>, alts: seq<Alternative>,
        recorded: nat, c: Channel, ps: seq<Pairing>)
    requires AllDenote(o1, m1, alts, recorded, c, ps) && AllDenote(o2, m2, alts, recorded, c, ps)
    ensures AllDenote(o1 + o2, m1 + m2, alts, recorded, c, ps)
  {
    hide Denotes;
  }

  /** The last receive of the run that starts at a. */
  method RunFrom(ks: seq<nat>, a: nat) returns (e: nat)
    requires a < |ks| && Increasing(ks) && (a > 0 ==> ks[a-1] + 1 < ks[a])
    ensures IsRun(ks, a, e)
  {
    e := a;
    while e + 1 < |ks| && ks[e+1] == ks[e] + 1
      invariant a <= e < |ks| && forall m :: a <= m <= e ==> ks[m] == ks[a] + (m - a)
    {
      e := e + 1;
    }
  }

  /** The first receive of the longest suffix of the run that fits the next sends. */
  method FrontOf(c: Channel, ks: seq<nat>, ends: seq<int>, a: nat, e: nat) returns (f: nat)
    requires a <= e < |ks| == |ends| && |c.sends| == |c.starts| && forall m :: a <= m <= e ==> ks[m] + 1 < |c.starts|
    ensures Front(c, ks, ends, a, e, f)
  {
    f := e + 1;
    while f > a && c.starts[ks[f-1] + 1] <= ends[f-1]
      invariant a <= f <= e + 1 && forall m :: f <= m <= e ==> Causal(c.starts, ends, m, ks[m] + 1)
    {
      f := f - 1;
    }
  }

  /** The options that move a suffix of the run on. */
  method LaterOptions(b: Builder, c: Channel, ps: seq<Pairing>, ks: seq<nat>, ends: seq<int>, a: nat, e: nat)
    returns (opts: seq<ChoiceOption>, ghost f: nat)
    requires ChannelOk(c, ps, ends) && ks == Sends(ps) && Increasing(ks) && IsRun(ks, a, e)
    modifies b
    ensures old(b.alts) <= b.alts
    ensures AllDenote(opts, if ks[e] + 1 < |c.sends| then LaterMoves(f, e) else [], b.alts, b.recorded, c, ps)
    ensures ks[e] + 1 < |c.sends| ==> Front(c, ks, ends, a, e, f)
  {
    opts, f := [], 0;
    if ks[e] + 1 < |c.sends| {
      var front := FrontOf(c, ks, ends, a, e);
      f := front;
      if front <= e {
        var next := NextSends(b, c, ps, front, e);
        opts := SuffixOptions(c, ps, a, e, front, next, b.alts, b.recorded);
      }
    }
  }

  lemma DropFirstOnly(c: Channel, ps: seq<Pairing>, a: nat, alts: seq<Alternative>, recorded: nat)
    requires a < |ps|
    ensures AllDenote([ChoiceOption(Candidates(ps, a, a), [])], DropMoves(a, a), alts, recorded, c, ps)
  {
    assert DropMoves(a, a) == [Drop(a, a)];
  }

  /** The options that move a prefix of the run back, and those that drop a receive. */
  method EarlierOptions(b: Builder, c: Channel, ps: seq<Pairing>, ks: seq<nat>, ends: seq<int>, a: nat, e: nat)
    returns (opts: seq<ChoiceOption>, dropped: seq<ChoiceOption>)
    requires ChannelOk(c, ps, ends) && ks == Sends(ps) && Increasing(ks) && IsRun(ks, a, e)
    modifies b
    ensures old(b.alts) <= b.alts
    ensures AllDenote(opts, if ks[a] >= 1 then EarlierMoves(a, e + 1) else [], b.alts, b.recorded, c, ps)
    ensures AllDenote(dropped, if c.lost then DropMoves(a, e) else [], b.alts, b.recorded, c, ps)
  {
    opts, dropped := [], [];
    var before := ks[a] >= 1;
    if before || (c.lost && e > a) {
      var previous := PreviousSends(b, c, ps, a, e);
      if before { opts := PrefixOptions(c, ps, a, e, previous, b.alts, b.recorded); }
      if c.lost { dropped := DropOptions(c, ps, a, e, previous, b.alts, b.recorded); }
    } else if c.lost {
      dropped := [ChoiceOption(Candidates(ps, a, e), [])];
      DropFirstOnly(c, ps, a, b.alts, b.recorded);
    }
  }

  /** Everything offered for the run a..e. */
  method RunOptions(b: Builder, c: Channel, ps: seq<Pairing>, ks: seq<nat>, ends: seq<int>, a: nat, e: nat)
    returns (opts: seq<ChoiceOption>, ghost moves: seq<Move>)
    requires ChannelOk(c, ps, ends) && ks == Sends(ps) && Increasing(ks) && IsRun(ks, a, e)
    modifies b
    ensures old(b.alts) <= b.alts && AllDenote(opts, moves, b.alts, b.recorded, c, ps)
    ensures forall mv :: mv in moves ==> OfOneRun(ks, mv, a, e)
    ensures forall mv :: OfOneRun(ks, mv, a, e) ==> (mv in moves <==> Open(c, ks, ends, mv))
  {
    hide AllDenote, Front, OfOneRun, Open, Candidates, LaterMoves, EarlierMoves, DropMoves;
    var later, f := LaterOptions(b, c, ps, ks, ends, a, e);
    ghost var laterMoves := if ks[e] + 1 < |c.sends| then LaterMoves(f, e) else [];
    ghost var alts := b.alts;
    var earlier, dropped := EarlierOptions(b, c, ps, ks, ends, a, e);
    ghost var earlierMoves := if ks[a] >= 1 then EarlierMoves(a, e + 1) else [];
    ghost var dropMoves := if c.lost then DropMoves(a, e) else [];
    MoreAlternatives(later, laterMoves, alts, b.alts, b.recorded, c, ps);
    JoinOptions(later, laterMoves, earlier, earlierMoves, b.alts, b.recorded, c, ps);
    JoinOptions(later + earlier, laterMoves + earlierMoves, dropped, dropMoves, b.alts, b.recorded, c, ps);
    opts := later + earlier + dropped;
    moves := RunMoves(c, ks, a, e, f);
    forall mv
      ensures mv in moves ==> OfOneRun(ks, mv, a, e)
      ensures OfOneRun(ks, mv, a, e) ==> (mv in moves <==> Open(c, ks, ends, mv))
    {
      hide RunMoves;
      RunMovesAreOpen(c, ks, ends, a, e, f, mv);
    }
  }

  // ---- one channel ----

  function Ends(ps: seq<Pairing>): (ends: seq<int>)
    ensures |ends| == |ps| && forall m :: 0 <= m < |ps| ==> ends[m] == ps[m].end
  {
    if ps == [] then [] else Ends(ps[..|ps|-1]) + [ps[|ps|-1].end]
  }

  ghost predicate BySend(ps: seq<Pairing>) {
    forall m, l :: 0 <= m < l < |ps| ==> ps[m].send <= ps[l].send
  }

  method InsertBySend(ps: seq<Pairing>, p: Pairing) returns (out: seq<Pairing>)
    requires BySend(ps)
    ensures BySend(out) && multiset(out) == multiset(ps) + multiset{p}
  {
    var n := |ps|;
    while n > 0 && ps[n-1].send > p.send
      invariant 0 <= n <= |ps| && forall m :: n <= m < |ps| ==> ps[m].send > p.send
    {
      n := n - 1;
    }
    InsertKeepsOrder(ps, n, p);
    InsertKeepsAll(ps, n, p);
    hide *;
    out := ps[..n] + [p] + ps[n..];
  }

  lemma InsertKeepsOrder(ps: seq<Pairing>, n: nat, p: Pairing)
    requires BySend(ps) && n <= |ps| && (n > 0 ==> ps[n-1].send <= p.send)
    requires forall m :: n <= m < |ps| ==> ps[m].send > p.send
    ensures BySend(ps[..n] + [p] + ps[n..])
  {
    var out := ps[..n] + [p] + ps[n..];
    forall m, l | 0 <= m < l < |out| ensures out[m].send <= out[l].send {
      assert m < n ==> out[m] == ps[m] && ps[m].send <= ps[n-1].send;
    }
  }

  lemma InsertKeepsAll<T>(s: seq<T>, n: nat, x: T)
    requires n <= |s|
    ensures multiset(s[..n] + [x] + s[n..]) == multiset(s) + multiset{x}
  {
    assert s == s[..n] + s[n..];
  }

  method SortBySend(ps: seq<Pairing>) returns (sorted: seq<Pairing>)
    ensures BySend(sorted) && multiset(sorted) == multiset(ps)
  {
    hide BySend;
    sorted := [];
    assert BySend([]) by { NoneBySend(); }
    var n := 0;
    while n < |ps|
      invariant 0 <= n <= |ps| && BySend(sorted) && multiset(sorted) == multiset(ps[..n])
    {
      assert ps[..n+1] == ps[..n] + [ps[n]];
      sorted := InsertBySend(sorted, ps[n]);
      n := n + 1;
    }
    assert ps[..n] == ps;
  }

  lemma NoneBySend()
    ensures BySend([])
  {
  }

  method AnyLow(ps: seq<Pairing>) returns (low: bool)
    ensures low <==> exists m :: 0 <= m < |ps| && ps[m].low
  {
    low := false;
    var m := 0;
    while m < |ps|
      invariant 0 <= m <= |ps| && (low <==> exists l :: 0 <= l < m && ps[l].low)
    {
      low := low || ps[m].low;
      m := m + 1;
    }
  }

  /** No send is paired twice. */
  method Strict(ps: seq<Pairing>) returns (strict: bool)
    requires BySend(ps)
    ensures strict <==> Increasing(Sends(ps))
  {
    strict := true;
    var m := 1;
    while m < |ps| && strict
      invariant 1 <= m && (|ps| > 0 ==> m <= |ps|)
      invariant strict ==> forall k, l :: 0 <= k < l < m && l < |ps| ==> ps[k].send < ps[l].send
      invariant !strict ==> !Increasing(Sends(ps))
    {
      if ps[m-1].send >= ps[m].send {
        assert Sends(ps)[m-1] >= Sends(ps)[m];
        strict := false;
      }
      m := m + 1;
    }
  }

  /** What the channel's options are: the recorded pairing first, then, of every run, exactly the moves the trace
      allows, each option standing for its move. */
  ghost predicate Offers(opts: seq<ChoiceOption>, moves: seq<Move>, alts: seq<Alternative>, recorded: nat, c: Channel,
        ps: seq<Pairing>)
  {
    && AllDenote(opts, moves, alts, recorded, c, ps) && moves != [] && moves[0] == Recorded
    && Confined(Sends(ps), moves, |ps|)
    && Complete(c, Sends(ps), Ends(ps), moves, |ps|)
  }

  lemma RecordedOffered(alts: seq<Alternative>, recorded: nat, c: Channel, ps: seq<Pairing>)
    ensures AllDenote([ChoiceOption([], [])], [Recorded], alts, recorded, c, ps)
    ensures Confined(Sends(ps), [Recorded], 0) && Complete(c, Sends(ps), Ends(ps), [Recorded], 0)
  {
  }

  /** Whether the channel is a choice at all: more sends than pairings, or lost events, and no send paired twice. */
  predicate Shiftable(sends: seq<nat>, ps: seq<Pairing>, lost: bool) {
    (|sends| > |ps| || lost) && Increasing(Sends(ps))
  }

  method ChannelOptions(b: Builder, sends: seq<nat>, starts: seq<int>, pairings: seq<Pairing>)
    returns (opts: seq<ChoiceOption>, c: Channel, ps: seq<Pairing>, ghost moves: seq<Move>)
    requires |starts| == |sends| && Sorted(starts) && forall p :: p in pairings ==> p.send < |sends|
    modifies b
    ensures old(b.alts) <= b.alts && BySend(ps) && multiset(ps) == multiset(pairings)
    ensures c == Channel(sends, starts, exists m :: 0 <= m < |pairings| && pairings[m].low)
    ensures ChannelOk(c, ps, Ends(ps))
    ensures if Shiftable(sends, ps, c.lost) then Offers(opts, moves, b.alts, b.recorded, c, ps) else opts == []
  {
    var lost := AnyLow(pairings);
    c := Channel(sends, starts, lost);
    ps := SortBySend(pairings);
    forall m | 0 <= m < |ps| ensures ps[m].send < |sends| {
      assert ps[m] in multiset(ps);
    }
    opts, moves := [], [];
    var strict := Strict(ps);
    if (|sends| > |ps| || lost) && strict {
      opts, moves := ShiftRuns(b, c, ps);
    }
  }

  method ShiftRuns(b: Builder, c: Channel, ps: seq<Pairing>) returns (opts: seq<ChoiceOption>, ghost moves: seq<Move>)
    requires ChannelOk(c, ps, Ends(ps)) && Increasing(Sends(ps))
    modifies b
    ensures old(b.alts) <= b.alts && Offers(opts, moves, b.alts, b.recorded, c, ps)
  {
    var ks, ends := Sends(ps), Ends(ps);
    opts := [ChoiceOption([], [])];
    moves := [Recorded];
    RecordedOffered(b.alts, b.recorded, c, ps);
    hide AllDenote, Confined, Complete, ChannelOk, OfOneRun, Open;
    var a := 0;
    while a < |ps|
      invariant 0 <= a <= |ps| && old(b.alts) <= b.alts && moves != [] && moves[0] == Recorded
      invariant 0 < a < |ps| ==> ks[a-1] + 1 < ks[a]
      invariant AllDenote(opts, moves, b.alts, b.recorded, c, ps) && Confined(ks, moves, a)
      invariant Complete(c, ks, ends, moves, a)
    {
      var e := RunFrom(ks, a);
      ghost var alts := b.alts;
      var more, added := RunOptions(b, c, ps, ks, ends, a, e);
      MoreAlternatives(opts, moves, alts, b.alts, b.recorded, c, ps);
      JoinOptions(opts, moves, more, added, b.alts, b.recorded, c, ps);
      NextRunComplete(c, ks, ends, moves, added, a, e);
      opts, moves := opts + more, moves + added;
      a := e + 1;
    }
  }

  /** Whatever is open keeps the non-overtaking rule, and keeps send before receive if the recorded pairs did. */
  lemma OpenIsSound(c: Channel, ks: seq<nat>, ends: seq<int>, mv: Move)
    requires |ends| == |ks| && Sorted(c.starts) && Open(c, ks, ends, mv)
    ensures NonOvertaking(ks, mv, |c.starts|)
    ensures KeepsCausality(ks, Recorded, c.starts, ends) ==> KeepsCausality(ks, mv, c.starts, ends)
  {
    hide NonOvertaking, KeepsCausality;
    if (mv.Earlier? || mv.Drop?) && KeepsCausality(ks, Recorded, c.starts, ends) {
      BackwardKeepsCausality(ks, mv, c.starts, ends);
    }
  }

  lemma OfferedIsOpen(c: Channel, ks: seq<nat>, ends: seq<int>, moves: seq<Move>, mv: Move)
    requires |ends| == |ks| && mv in moves && mv != Recorded && Confined(ks, moves, |ks|)
    requires Complete(c, ks, ends, moves, |ks|)
    ensures Open(c, ks, ends, mv)
  {
    hide Open, IsRun;
    var x: nat, y: nat :| OfOneRun(ks, mv, x, y) && y < |ks|;
  }

  lemma OfferedMovesAreSound(c: Channel, ks: seq<nat>, ends: seq<int>, moves: seq<Move>, mv: Move)
    requires |ends| == |ks| && Sorted(c.starts) && Increasing(ks) && (forall m :: 0 <= m < |ks| ==> ks[m] < |c.starts|)
    requires mv in moves && Confined(ks, moves, |ks|) && Complete(c, ks, ends, moves, |ks|)
    ensures NonOvertaking(ks, mv, |c.starts|)
    ensures KeepsCausality(ks, Recorded, c.starts, ends) ==> KeepsCausality(ks, mv, c.starts, ends)
  {
    hide Confined, Complete, NonOvertaking, KeepsCausality, Open;
    if mv == Recorded {
      RecordedNonOvertaking(ks, |c.starts|);
    } else {
      OfferedIsOpen(c, ks, ends, moves, mv);
      OpenIsSound(c, ks, ends, mv);
    }
  }

  // ---- a send after its receive ----

  /** The test the code does not make: a receive that a backward move can take ends no earlier than its previous send
      starts. A prefix of a run moves back when there is a send before the run; all but the first of its receives also
      move back when events were lost. */
  ghost predicate Guarded(c: Channel, ks: seq<nat>, ends: seq<int>)
    requires |ends| == |ks|
  {
    forall a: nat, e: nat, m: nat :: IsRun(ks, a, e) && a <= m <= e && (ks[a] >= 1 || (c.lost && m > a)) ==>
      Causal(c.starts, ends, m, ks[m] as int - 1)
  }

  ghost predicate AllCausal(c: Channel, ks: seq<nat>, ends: seq<int>, moves: seq<Move>)
    requires |ends| == |ks|
  {
    forall mv :: mv in moves && mv != Recorded ==> KeepsCausality(ks, mv, c.starts, ends)
  }

  /** The backward move that takes receive m. */
  function BackwardMove(ks: seq<nat>, a: nat, e: nat, m: nat): Move
    requires a <= m <= e < |ks| && (ks[a] == 0 ==> m > a)
  {
    if ks[a] >= 1 then Earlier(a, m) else Drop(m - 1, e)
  }

  lemma CausalIsGuarded(c: Channel, ks: seq<nat>, ends: seq<int>, moves: seq<Move>, a: nat, e: nat, m: nat)
    requires |ends| == |ks| && Increasing(ks) && forall l :: 0 <= l < |ks| ==> ks[l] < |c.starts|
    requires Complete(c, ks, ends, moves, |ks|) && AllCausal(c, ks, ends, moves)
    requires IsRun(ks, a, e) && a <= m <= e && (ks[a] >= 1 || (c.lost && m > a))
    ensures Causal(c.starts, ends, m, ks[m] as int - 1)
  {
    var mv := BackwardMove(ks, a, e, m);
    assert OfOneRun(ks, mv, a, e);
    AllowedMoves(ks, mv, |c.starts|, c.lost, a, e);
    BackwardCausality(ks, c.starts, ends, mv);
    hide Allowed, IsRun, Causal, KeepsCausality;
  }

  lemma GuardedIsCausal(c: Channel, ks: seq<nat>, ends: seq<int>, moves: seq<Move>, mv: Move)
    requires |ends| == |ks| && Increasing(ks) && forall l :: 0 <= l < |ks| ==> ks[l] < |c.starts|
    requires Confined(ks, moves, |ks|) && Complete(c, ks, ends, moves, |ks|) && Guarded(c, ks, ends)
    requires mv in moves && mv != Recorded
    ensures KeepsCausality(ks, mv, c.starts, ends)
  {
    OfferedIsOpen(c, ks, ends, moves, mv);
    if !mv.Later? {
      var x: nat, y: nat :| OfOneRun(ks, mv, x, y) && y < |ks|;
      AllowedMoves(ks, mv, |c.starts|, c.lost, x, y);
      BackwardCausality(ks, c.starts, ends, mv);
      hide Allowed, Causal, KeepsCausality, Confined, Complete;
    }
  }

  lemma CausalIffGuarded(c: Channel, ks: seq<nat>, ends: seq<int>, moves: seq<Move>)
    requires |ends| == |ks| && Increasing(ks) && forall l :: 0 <= l < |ks| ==> ks[l] < |c.starts|
    requires Confined(ks, moves, |ks|) && Complete(c, ks, ends, moves, |ks|)
    ensures AllCausal(c, ks, ends, moves) <==> Guarded(c, ks, ends)
  {
    hide Confined, Complete, KeepsCausality, IsRun, Causal;
    if AllCausal(c, ks, ends, moves) {
      forall a: nat, e: nat, m: nat | IsRun(ks, a, e) && a <= m <= e
        && (RunStart(ks, a, e); ks[a] >= 1 || (c.lost && m > a))
        ensures Causal(c.starts, ends, m, ks[m] as int - 1)
      {
        CausalIsGuarded(c, ks, ends, moves, a, e, m);
      }
    }
    if Guarded(c, ks, ends) {
      forall mv | mv in moves && mv != Recorded ensures KeepsCausality(ks, mv, c.starts, ends) {
        GuardedIsCausal(c, ks, ends, moves, mv);
      }
    }
  }

  lemma RunStart(ks: seq<nat>, a: nat, e: nat)
    requires IsRun(ks, a, e)
    ensures a <= e < |ks|
  {
  }

  /** When the claim that no alternative's source lies after its destination holds of a channel's options: exactly when
      the pairings as recorded pass the test that the code leaves out. */
  lemma OptionsCausalIffGuarded(opts: seq<ChoiceOption>, moves: seq<Move>, alts: seq<Alternative>, recorded: nat,
        c: Channel, ps: seq<Pairing>)
    requires ChannelOk(c, ps, Ends(ps)) && Increasing(Sends(ps)) && Offers(opts, moves, alts, recorded, c, ps)
    ensures AllCausal(c, Sends(ps), Ends(ps), moves) <==> Guarded(c, Sends(ps), Ends(ps))
  {
    hide Confined, Complete, AllDenote, Guarded, AllCausal;
    CausalIffGuarded(c, Sends(ps), Ends(ps), moves);
  }

  /** Recorded pairs that are causal pass it. */
  lemma CausalPairsAreGuarded(c: Channel, ks: seq<nat>, ends: seq<int>)
    requires |ends| == |ks| && Sorted(c.starts) && Increasing(ks) && KeepsCausality(ks, Recorded, c.starts, ends)
    ensures Guarded(c, ks, ends)
  {
    forall a: nat, e: nat, m: nat | IsRun(ks, a, e) && a <= m <= e && (ks[a] >= 1 || (c.lost && m > a))
      ensures Causal(c.starts, ends, m, ks[m] as int - 1)
    {
      assert Touches(Recorded, m) && Paired(ks, Recorded, m) == Some(ks[m]);
    }
  }

  /** Two sends, both started after the one receive recorded with the second had ended. */
  function LateChannel(): Channel {
    Channel([10, 11], [5, 6], false)
  }

  lemma LateMoveIsOpen()
    ensures OfOneRun([1], Earlier(0, 0), 0, 0) && Open(LateChannel(), [1], [0], Earlier(0, 0))
    ensures !KeepsCausality([1], Earlier(0, 0), LateChannel().starts, [0])
  {
    hide KeepsCausality;
    assert IsRun([1], 0, 0);
    AllowedMoves([1], Earlier(0, 0), 2, false, 0, 0);
    BackwardCausality([1], LateChannel().starts, [0], Earlier(0, 0));
    assert !Causal(LateChannel().starts, [0], 0, 0);
  }

  /** The move back to the first send is offered although that send, too, starts after the receive ends: backward
      moves are not guarded, so the claim that no alternative's source lies after its destination fails here. */
  lemma LateMoveIsOffered(opts: seq<ChoiceOption>, moves: seq<Move>, alts: seq<Alternative>, recorded: nat,
        late: Pairing)
    requires late == Pairing(0, 20, 0, 1, false) && Offers(opts, moves, alts, recorded, LateChannel(), [late])
    ensures Shiftable(LateChannel().sends, [late], false)
    ensures Earlier(0, 0) in moves && !KeepsCausality([1], Earlier(0, 0), LateChannel().starts, [0])
  {
    assert Complete(LateChannel(), Sends([late]), Ends([late]), moves, 1);
    hide Open, OfOneRun, IsRun, AllDenote, Denotes, KeepsCausality, Confined;
    LateMoveIsOpen();
    assert Sends([late]) == [1] && Ends([late]) == [0];
  }
}
