/** What `blame` of src/analysis/cp_attribution.py records of every call that waited: how long, until when, and for
    which calls. */
module BlameWaits {
  import opened EventGraph
  import opened LaneWalk
  import opened BlameJournal
  import opened BlameDue
  import opened Blame

  /** An event of call m is a source of call j's end, and the latest one or not to be told from it. */
  predicate WaitedFor(r: Rules, j: nat, m: nat)
    requires WellFormed(r.g) && j < r.g.n
  {
    var srcs := Sources(r.g, j);
    && srcs != []
    && (exists e ::
          && e in srcs && EdgeOk(r.g, e) && Together(r.g, e, Latest(r.g, srcs), r.jointNs)
          && (r.g.src[e] == 2 * m || r.g.src[e] == 2 * m + 1))
  }

  ghost predicate RecordOk(r: Rules, x: WaitRecord)
    requires WellFormed(r.g)
  {
    && x.span < r.g.n && x.start == r.g.t[2 * x.span] && x.ns == Waited(r.g, x.span) > 0 && x.release == x.start + x.ns
    && forall m: nat :: m in x.releasedBy <==> WaitedFor(r, x.span, m)
  }

  lemma {:induction false} SpansMean(g: Graph, es: seq<nat>, m: nat)
    requires EdgesOk(g, es)
    ensures m in Spans(g, es) <==> exists e :: e in es && EdgeOk(g, e) && (g.src[e] == 2 * m || g.src[e] == 2 * m + 1)
  {
    if es != [] {
      var n := |es| - 1;
      SpansMean(g, es[..n], m);
      assert es == es[..n] + [es[n]];
      assert g.src[es[n]] / 2 == m <==> g.src[es[n]] == 2 * m || g.src[es[n]] == 2 * m + 1;
    }
  }

  lemma RecordMeans(r: Rules, j: nat)
    requires WellFormed(r.g) && j < r.g.n && Waiting(r.g, j) > 0
    ensures Sources(r.g, j) != [] && RecordOk(r, RecordOf(r, j, Waiting(r.g, j), ReleasedBy(r, j)))
  {
    var g, srcs := r.g, Sources(r.g, j);
    WaitedIs(g, j);
    TogetherAll(r, j);
    forall m: nat ensures m in Spans(g, ReleasedBy(r, j)) <==> WaitedFor(r, j, m) {
      SpansMean(g, ReleasedBy(r, j), m);
    }
  }

  lemma TogetherAll(r: Rules, j: nat)
    requires WellFormed(r.g) && j < r.g.n && Sources(r.g, j) != []
    ensures forall e :: e in ReleasedBy(r, j) <==>
      e in Sources(r.g, j) && EdgeOk(r.g, e) && Together(r.g, e, Latest(r.g, Sources(r.g, j)), r.jointNs)
  {
    var g, srcs := r.g, Sources(r.g, j);
    JointMeans(g, srcs, r.jointNs, |srcs|);
    assert srcs[..|srcs|] == srcs;
    forall e | e in srcs && EdgeOk(g, e)
      ensures Jointly(g, e, Latest(g, srcs), r.jointNs) <==> Together(g, e, Latest(g, srcs), r.jointNs)
    {
      TogetherIsJointly(g, e, Latest(g, srcs), r.jointNs);
    }
    hide Jointly, Together, Sources, JointOf;
  }

  /** In span order, a record for each of the first n calls that waited and for no other. */
  ghost predicate WaitsOk(r: Rules, ws: seq<WaitRecord>, n: nat)
    requires WellFormed(r.g) && n <= r.g.n
  {
    && (forall k :: 0 <= k < |ws| ==> ws[k].span < n && RecordOk(r, ws[k]))
    && (forall k, l :: 0 <= k < l < |ws| ==> ws[k].span < ws[l].span)
    && (forall j: nat :: j < n && Waited(r.g, j) > 0 ==> exists k :: 0 <= k < |ws| && ws[k].span == j)
  }

  lemma OneMoreWait(r: Rules, ws: seq<WaitRecord>, j: nat, x: WaitRecord)
    requires WellFormed(r.g) && j < r.g.n && WaitsOk(r, ws, j) && RecordOk(r, x) && x.span == j
    ensures WaitsOk(r, ws + [x], j + 1)
  {
    hide RecordOk, Waited;
    var ys := ws + [x];
    forall i: nat | i < j + 1 && Waited(r.g, i) > 0 ensures exists k :: 0 <= k < |ys| && ys[k].span == i {
      if i < j {
        var k :| 0 <= k < |ws| && ws[k].span == i;
        assert ys[k].span == i;
      } else {
        assert ys[|ws|].span == i;
      }
    }
  }

  /** Exactly the calls that waited have a record each, in span order, and it says how long, until when and for which
      calls they did. */
  lemma {:induction false} WaitsMean(r: Rules, n: nat)
    requires WellFormed(r.g) && n <= r.g.n
    ensures WaitsOk(r, Waits(r, n), n)
  {
    hide *;
    if n > 0 {
      WaitsMean(r, n - 1);
      WaitsStep(r, n - 1);
      if Waiting(r.g, n - 1) > 0 {
        RecordMeans(r, n - 1);
        SpanOf(r, n - 1);
        OneMoreWait(r, Waits(r, n - 1), n - 1, RecordOf(r, n - 1, Waiting(r.g, n - 1), ReleasedBy(r, n - 1)));
      } else {
        WaitedIs(r.g, n - 1);
        NoMoreWaits(r, Waits(r, n - 1), n - 1);
      }
    } else {
      NoWaits(r);
    }
  }

  lemma NoWaits(r: Rules)
    requires WellFormed(r.g)
    ensures WaitsOk(r, Waits(r, 0), 0)
  {
  }

  lemma NoMoreWaits(r: Rules, ws: seq<WaitRecord>, j: nat)
    requires WellFormed(r.g) && j < r.g.n && WaitsOk(r, ws, j) && Waited(r.g, j) <= 0
    ensures WaitsOk(r, ws, j + 1)
  {
    hide RecordOk, Waited;
  }

  lemma SpanOf(r: Rules, j: nat)
    requires WellFormed(r.g) && j < r.g.n && Sources(r.g, j) != []
    ensures 2 * j < |r.g.t| && RecordOf(r, j, Waiting(r.g, j), ReleasedBy(r, j)).span == j
  {
  }

  lemma WaitsStep(r: Rules, j: nat)
    requires WellFormed(r.g) && j < r.g.n
    ensures 2 * j < |r.g.t| && Waiting(r.g, j) >= 0 && (Waiting(r.g, j) > 0 ==> Sources(r.g, j) != [])
    ensures Waits(r, j + 1) ==
      if Waiting(r.g, j) > 0 then Waits(r, j) + [RecordOf(r, j, Waiting(r.g, j), ReleasedBy(r, j))] else Waits(r, j)
  {
  }
}
