/** Charging waiting time to the work that caused it: `blame` of src/analysis/cp_attribution.py. Its accounts end up as
    the journal of BlameJournal posted to them. */
module Blame {
  import opened EventGraph
  import opened LaneWalk
  import opened BlameJournal
  import opened BlameDue

  // ---- accounts ----

  function Amount<K>(m: map<K, real>, k: K): real {
    if k in m then m[k] else 0.0
  }

  function Credit<K>(m: map<K, real>, k: K, x: real): map<K, real> {
    m[k := Amount(m, k) + x]
  }

  /** Time per span, time no span answers for, what each span passed on, and how many charges were cut short. */
  datatype Accounts = Accounts(bySpan: map<nat, real>, other: map<Cause, real>, passed: map<nat, real>, truncated: nat)

  const NoAccounts := Accounts(map[], map[], map[], 0)

  function Enter(x: Accounts, e: Entry): Accounts {
    match e
    case ToSpan(j, ns) => x.(bySpan := Credit(x.bySpan, j, ns))
    case ToCause(c, ns) => x.(other := Credit(x.other, c, ns))
    case PassedOn(j, ns) => x.(passed := Credit(x.passed, j, ns))
    case CutShort => x.(truncated := x.truncated + 1)
  }

  function Post(x: Accounts, es: seq<Entry>): Accounts {
    if es == [] then x else Enter(Post(x, es[..|es|-1]), es[|es|-1])
  }

  lemma {:induction false} PostConcat(x: Accounts, es: seq<Entry>, fs: seq<Entry>)
    ensures Post(x, es + fs) == Post(Post(x, es), fs)
  {
    if fs == [] {
      assert es + fs == es;
    } else {
      assert (es + fs)[..|es + fs|-1] == es + fs[..|fs|-1];
      PostConcat(x, es, fs[..|fs|-1]);
    }
  }

  lemma PostOne(x: Accounts, e: Entry)
    ensures Post(x, [e]) == Enter(x, e)
  {
    assert [e][..0] == [];
  }

  lemma PostNothing(x: Accounts)
    ensures Post(x, []) == x
  {
  }

  /** What is on one account. */
  function AccountOf(x: Accounts, q: Who): real {
    match q
    case OfSpan(j) => Amount(x.bySpan, j)
    case OfCause(c) => Amount(x.other, c)
    case PassedBy(j) => Amount(x.passed, j)
    case Shortened => x.truncated as real
  }

  lemma {:induction false} PostAmount(x: Accounts, es: seq<Entry>, q: Who)
    ensures AccountOf(Post(x, es), q) == AccountOf(x, q) + AmountTo(es, q)
  {
    if es != [] { PostAmount(x, es[..|es|-1], q); }
  }

  /** Posting the journal of a window, or of one of its stretches, raises every account by its due. */
  lemma PostedWindow(r: Rules, x: Accounts, node: nat, a: int, b: int, share: real, level: nat)
    requires WellFormed(r.g) && node < 2 * r.g.n && level <= r.depth
    ensures forall q: Who :: AccountOf(Post(x, ForWindow(r, node, a, b, share, level)), q)
                          == AccountOf(x, q) + DueWindow(r, q, node, a, b, share, level)
  {
    forall q: Who
      ensures AccountOf(Post(x, ForWindow(r, node, a, b, share, level)), q)
           == AccountOf(x, q) + DueWindow(r, q, node, a, b, share, level)
    {
      hide *;
      PostAmount(x, ForWindow(r, node, a, b, share, level), q);
      WindowDue(r, q, node, a, b, share, level);
    }
  }

  lemma PostedWait(r: Rules, x: Accounts, p: Piece, a: int, b: int, part: real, level: nat)
    requires WellFormed(r.g) && PieceOk(r.g, p, a, b) && r.g.mode[p.edge] == Wait && level <= r.depth && p.overlap > 0
    ensures forall q: Who :: AccountOf(Post(x, ForWait(r, p, a, b, part, level)), q)
                          == AccountOf(x, q) + DuePiece(r, q, p, a, b, part / p.overlap as real, level)
  {
    ForPieceIsWait(r, p, a, b, part, level);
    ShareAll(part, p.overlap);
    forall q: Who
      ensures AccountOf(Post(x, ForWait(r, p, a, b, part, level)), q)
           == AccountOf(x, q) + DuePiece(r, q, p, a, b, part / p.overlap as real, level)
    {
      hide *;
      PostAmount(x, ForWait(r, p, a, b, part, level), q);
      PieceDue(r, q, p, a, b, part, p.overlap, level);
    }
  }

  lemma ForPieceIsWait(r: Rules, p: Piece, a: int, b: int, part: real, level: nat)
    requires WellFormed(r.g) && PieceOk(r.g, p, a, b) && r.g.mode[p.edge] == Wait && level <= r.depth
    ensures ForPiece(r, p, a, b, part, level) == ForWait(r, p, a, b, part, level)
  {
    hide WellFormed, WaitPart, ForWaited;
  }

  lemma PostedAll(r: Rules, x: Accounts, waiting: int, waits: seq<WaitRecord>, several: nat)
    requires Settled(r, r.g.n, x, waiting, waits, several)
    ensures WellFormed(r.g) && forall q: Who :: AccountOf(x, q) == DueOf(r, q, r.g.n)
  {
    SettledPosts(r, x, waiting, waits, several);
    forall q: Who ensures AccountOf(x, q) == DueOf(r, q, r.g.n) {
      hide *;
      PostAmount(NoAccounts, ForSpans(r, r.g.n), q);
      JournalIsDue(r, q, r.g.n);
      NothingOn(q);
    }
  }

  lemma SettledPosts(r: Rules, x: Accounts, waiting: int, waits: seq<WaitRecord>, several: nat)
    requires Settled(r, r.g.n, x, waiting, waits, several)
    ensures WellFormed(r.g) && x == Post(NoAccounts, ForSpans(r, r.g.n))
  {
    hide WellFormed, Post, ForSpans;
  }

  lemma NothingOn(q: Who)
    ensures AccountOf(NoAccounts, q) == 0.0
  {
  }

  function SpanSum(m: map<nat, real>, n: nat): real {
    if n == 0 then 0.0 else SpanSum(m, n - 1) + Amount(m, n - 1)
  }

  /** Everything charged: to the n spans and to the three causes no span answers for. */
  function Total(x: Accounts, n: nat): real {
    SpanSum(x.bySpan, n) + Amount(x.other, Unrecorded) + Amount(x.other, UnknownWork) + Amount(x.other, DeviceIdle)
  }

  ghost predicate AccountsOk(x: Accounts, n: nat) {
    && (forall j :: j in x.bySpan ==> j < n && x.bySpan[j] >= 0.0)
    && (forall c :: c in x.other ==> x.other[c] >= 0.0)
    && (forall j :: j in x.passed ==> j < n && x.passed[j] > 0.0)
  }

  lemma {:induction false} SpanSumAdd(m: map<nat, real>, n: nat, j: nat, x: real)
    ensures SpanSum(Credit(m, j, x), n) == SpanSum(m, n) + if j < n then x else 0.0
  {
    if n > 0 { SpanSumAdd(m, n - 1, j, x); }
  }

  lemma EnterTotal(g: Graph, x: Accounts, e: Entry)
    requires AccountsOk(x, g.n) && EntryOk(g, e)
    ensures AccountsOk(Enter(x, e), g.n)
    ensures Total(Enter(x, e), g.n)
      == Total(x, g.n) + match e case ToSpan(_, ns) => ns case ToCause(_, ns) => ns case _ => 0.0
  {
    match e {
      case ToSpan(j, ns) => SpanSumAdd(x.bySpan, g.n, j, ns);
      case ToCause(c, ns) => assert c == Unrecorded || c == UnknownWork || c == DeviceIdle;
      case PassedOn(_, _) =>
      case CutShort =>
    }
  }

  /** Posting a journal that adds up to an amount charges that amount, none of it negative. */
  lemma {:induction false} PostTotal(g: Graph, x: Accounts, es: seq<Entry>, whole: real)
    requires AccountsOk(x, g.n) && AddsUp(g, es, whole)
    ensures AccountsOk(Post(x, es), g.n) && Total(Post(x, es), g.n) == Total(x, g.n) + whole
  {
    if es != [] {
      PostTotal(g, x, es[..|es|-1], Charged(es[..|es|-1]));
      EnterTotal(g, Post(x, es[..|es|-1]), es[|es|-1]);
    }
  }

  lemma {:induction false} NothingYet(n: nat)
    ensures AccountsOk(NoAccounts, n) && Total(NoAccounts, n) == 0.0
  {
    if n > 0 { NothingYet(n - 1); }
  }

  // ---- the waits charged ----

  /** A charged wait: the span, its start, its release, its length and the spans that released it. */
  datatype WaitRecord = WaitRecord(span: nat, start: int, release: int, ns: int, releasedBy: seq<nat>)

  function Spans(g: Graph, es: seq<nat>): seq<nat>
    requires EdgesOk(g, es)
  {
    if es == [] then [] else Spans(g, es[..|es|-1]) + [g.src[es[|es|-1]] / 2]
  }

  /** A record of every wait of the first n spans, in order. */
  ghost function Waits(r: Rules, n: nat): seq<WaitRecord>
    requires WellFormed(r.g) && n <= r.g.n
  {
    if n == 0 then [] else if Waiting(r.g, n - 1) == 0 then Waits(r, n - 1) else
    var j, w := n - 1, Waiting(r.g, n - 1);
    Waits(r, n - 1) + [WaitRecord(j, r.g.t[2 * j], r.g.t[2 * j] + w, w, Spans(r.g, ReleasedBy(r, j)))]
  }

  /** How many of them several sources released. */
  ghost function JointWaits(ws: seq<WaitRecord>): nat {
    if ws == [] then 0
    else if |ws[|ws|-1].releasedBy| > 1 then JointWaits(ws[..|ws|-1]) + 1 else JointWaits(ws[..|ws|-1])
  }

  lemma {:induction false} SpansLength(g: Graph, es: seq<nat>)
    requires EdgesOk(g, es)
    ensures |Spans(g, es)| == |es|
  {
    if es != [] { SpansLength(g, es[..|es|-1]); }
  }

  /** The waits of the first n spans have been charged and recorded. */
  ghost predicate Settled(r: Rules, n: nat, x: Accounts, waiting: int, waits: seq<WaitRecord>, several: nat) {
    && WellFormed(r.g) && n <= r.g.n
    && x == Post(NoAccounts, ForSpans(r, n)) && waiting == AllWaiting(r.g, n)
    && waits == Waits(r, n) && several == JointWaits(waits)
  }

  lemma NothingSettled(r: Rules)
    requires WellFormed(r.g)
    ensures Settled(r, 0, NoAccounts, 0, [], 0)
  {
  }

  /** A span that has waited: what released it. */
  ghost predicate HasWaited(r: Rules, j: nat, w: int, joint: seq<nat>) {
    && WellFormed(r.g) && j < r.g.n && w == Waiting(r.g, j) > 0 && 2 * j + 1 < |r.g.t|
    && Sources(r.g, j) != [] && joint == ReleasedBy(r, j) && EdgesOk(r.g, joint)
  }

  /** The charges for a wait. */
  ghost function ForWaitOf(r: Rules, j: nat, w: int, joint: seq<nat>): seq<Entry>
    requires HasWaited(r, j, w, joint)
  {
    ForJoint(r, joint, |joint|, r.g.t[2 * j], r.g.t[2 * j + 1], w as real, 0)
  }

  lemma SettledNoWait(r: Rules, j: nat, x: Accounts, waiting: int, waits: seq<WaitRecord>, several: nat)
    requires Settled(r, j, x, waiting, waits, several) && j < r.g.n && Waiting(r.g, j) == 0
    ensures Settled(r, j + 1, x, waiting, waits, several)
  {
    hide WellFormed, Waiting, JointWaits, Post;
    PostNothing(x);
    PostConcat(NoAccounts, ForSpans(r, j), []);
  }

  /** The record of a wait. */
  function RecordOf(r: Rules, j: nat, w: int, joint: seq<nat>): WaitRecord
    requires j < r.g.n && 2 * j < |r.g.t| && EdgesOk(r.g, joint)
  {
    WaitRecord(j, r.g.t[2 * j], r.g.t[2 * j] + w, w, Spans(r.g, joint))
  }

  lemma WaitPosted(r: Rules, j: nat, w: int, joint: seq<nat>)
    requires HasWaited(r, j, w, joint)
    ensures Post(NoAccounts, ForSpans(r, j + 1)) == Post(Post(NoAccounts, ForSpans(r, j)), ForWaitOf(r, j, w, joint))
    ensures AllWaiting(r.g, j + 1) == AllWaiting(r.g, j) + w
  {
    hide WellFormed, Waiting, ForJoint, Post, Sources;
    PostConcat(NoAccounts, ForSpans(r, j), ForWaitOf(r, j, w, joint));
  }

  lemma WaitRecorded(r: Rules, j: nat, w: int, joint: seq<nat>)
    requires HasWaited(r, j, w, joint)
    ensures Waits(r, j + 1) == Waits(r, j) + [RecordOf(r, j, w, joint)]
  {
    hide WellFormed, Waiting, Sources;
  }

  lemma WaitCounted(ws: seq<WaitRecord>, x: WaitRecord)
    ensures JointWaits(ws + [x]) == JointWaits(ws) + if |x.releasedBy| > 1 then 1 else 0
  {
    assert (ws + [x])[..|ws|] == ws;
  }

  lemma SettledWait(r: Rules, j: nat, x: Accounts, waiting: int, waits: seq<WaitRecord>, several: nat, w: int,
        joint: seq<nat>)
    requires Settled(r, j, x, waiting, waits, several) && HasWaited(r, j, w, joint)
    ensures j < r.g.n && 2 * j < |r.g.t| && EdgesOk(r.g, joint)
    ensures Settled(r, j + 1, Post(x, ForWaitOf(r, j, w, joint)), waiting + w, waits + [RecordOf(r, j, w, joint)],
                    several + if |joint| > 1 then 1 else 0)
  {
    hide WellFormed, Waiting, ForWaitOf, Post, Sources, Waits, JointWaits, AllWaiting, ForSpans;
    WaitPosted(r, j, w, joint);
    WaitRecorded(r, j, w, joint);
    WaitCounted(waits, RecordOf(r, j, w, joint));
    SpansLength(r.g, joint);
  }

  lemma WaitedHasSources(r: Rules, j: nat)
    requires WellFormed(r.g) && j < r.g.n && Waiting(r.g, j) != 0
    ensures Sources(r.g, j) != [] && HasWaited(r, j, Waiting(r.g, j), ReleasedBy(r, j))
  {
    NodesTimed(r.g);
    hide WellFormed;
  }

  /** Once all spans are settled, all waiting has been charged, none of it twice. */
  lemma SettledAddsUp(r: Rules, x: Accounts, waiting: int, waits: seq<WaitRecord>, several: nat)
    requires Settled(r, r.g.n, x, waiting, waits, several)
    ensures AccountsOk(x, r.g.n) && Total(x, r.g.n) == waiting as real
  {
    hide WellFormed, Post, AccountsOk, Total;
    NothingYet(r.g.n);
    BlameAddsUp(r, r.g.n);
    PostTotal(r.g, NoAccounts, ForSpans(r, r.g.n), waiting as real);
  }

  // ---- charging ----

  class Blame {
    const r: Rules
    var bySpan: map<nat, real>
    var other: map<Cause, real>
    var waiting: int
    var jointReleases: nat
    var truncated: nat
    var waits: seq<WaitRecord>
    var passed: map<nat, real>

    ghost function Now(): Accounts
      reads this`bySpan, this`other, this`passed, this`truncated
    {
      Accounts(bySpan, other, passed, truncated)
    }

    constructor (r: Rules)
      ensures this.r == r && Now() == NoAccounts && waiting == 0 && waits == [] && jointReleases == 0
    {
      this.r := r;
      bySpan, other, waiting, jointReleases, truncated, waits, passed := map[], map[], 0, 0, 0, [], map[];
    }

    method Make(e: Entry)
      modifies this`bySpan, this`other, this`passed, this`truncated
      ensures Now() == Post(old(Now()), [e])
    {
      PostOne(Now(), e);
      match e {
        case ToSpan(j, ns) => bySpan := Credit(bySpan, j, ns);
        case ToCause(c, ns) => other := Credit(other, c, ns);
        case PassedOn(j, ns) => passed := Credit(passed, j, ns);
        case CutShort => truncated := truncated + 1;
      }
    }

    /** Charges `share` for the window [a, b] that ended at event `node` to what the node's lane did in it. */
    method Charge(node: nat, a: int, b: int, share: real, level: nat)
      requires WellFormed(r.g) && node < 2 * r.g.n && level <= r.depth
      modifies this`bySpan, this`other, this`truncated, this`passed
      ensures Now() == Post(old(Now()), ForWindow(r, node, a, b, share, level))
      ensures forall q: Who ::
        AccountOf(Now(), q) == old(AccountOf(Now(), q)) + DueWindow(r, q, node, a, b, share, level)
      decreases r.depth - level, 3, 0
    {
      PostedWindow(r, Now(), node, a, b, share, level);
      hide Now, WellFormed, Post, Share;
      PostNothing(Now());
      if share <= 0.0 { return; }
      if b <= a {
        Make(ToSpan(node / 2, share));
        return;
      }
      ghost var before := Now();
      var ps, cut := Walk(r.g, node, a, b, r.maxSteps);
      if cut { Make(CutShort); }
      ghost var mid := Now();
      var covered := Sumof(ps);
      if covered <= 0 {
        Make(ToCause(Unrecorded, share));
        PostConcat(before, [CutShort], [ToCause(Unrecorded, share)]);
      } else {
        ChargePieces(ps, a, b, share, covered, level);
        PostConcat(before, [CutShort], ForPieces(r, ps, |ps|, a, b, share, level));
      }
    }

    /** Each piece takes its part of the share, in proportion to its overlap. */
    method ChargePieces(ps: seq<Piece>, a: int, b: int, share: real, covered: int, level: nat)
      requires WellFormed(r.g) && PiecesOk(r.g, ps, a, b) && covered == Covered(ps) > 0 && level <= r.depth
      modifies this`bySpan, this`other, this`truncated, this`passed
      ensures Now() == Post(old(Now()), ForPieces(r, ps, |ps|, a, b, share, level))
      decreases r.depth - level, 2, 0
    {
      hide Now, WellFormed, Post, Share, ForPiece, Covered;
      ghost var before := Now();
      PostNothing(before);
      var k := 0;
      while k < |ps|
        invariant 0 <= k <= |ps| && Now() == Post(before, ForPieces(r, ps, k, a, b, share, level))
      {
        var part := Share(share, ps[k].overlap, covered);
        PostConcat(before, ForPieces(r, ps, k, a, b, share, level), ForPiece(r, ps[k], a, b, part, level));
        ChargePiece(ps[k], a, b, part, level);
        k := k + 1;
      }
    }

    /** One piece of the window: busy time is the owner's, waiting time is passed on. */
    method ChargePiece(p: Piece, a: int, b: int, part: real, level: nat)
      requires WellFormed(r.g) && PieceOk(r.g, p, a, b) && level <= r.depth
      modifies this`bySpan, this`other, this`truncated, this`passed
      ensures Now() == Post(old(Now()), ForPiece(r, p, a, b, part, level))
      decreases r.depth - level, 1, 0
    {
      hide Now, WellFormed, Post;
      var e := p.edge;
      match r.g.mode[e] {
        case Busy => Make(ToSpan(r.g.owner[e], part));
        case Wait => ChargeWait(p, a, b, part, level);
        case Idle => Make(ToCause(DeviceIdle, part));
        case Unknown => Make(ToCause(UnknownWork, part));
        case Gap => Make(ToCause(Unrecorded, part));
        case Dep => Make(ToCause(Unrecorded, part));
      }
    }

    /** Inside a gated call: until that call's own release it was waiting too, after it, it was processing. */
    method ChargeWait(p: Piece, a: int, b: int, part: real, level: nat)
      requires WellFormed(r.g) && PieceOk(r.g, p, a, b) && r.g.mode[p.edge] == Wait && level <= r.depth
      modifies this`bySpan, this`other, this`truncated, this`passed
      ensures Now() == Post(old(Now()), ForWait(r, p, a, b, part, level))
      ensures forall q: Who ::
        AccountOf(Now(), q) == old(AccountOf(Now(), q)) + DuePiece(r, q, p, a, b, part / p.overlap as real, level)
      decreases r.depth - level, 0, 2
    {
      PostedWait(r, Now(), p, a, b, part, level);
      hide Now, WellFormed, Post, Share;
      var j: nat := r.g.owner[p.edge];
      var waited := WaitPart(r.g, p, a, b, part);
      PostConcat(Now(), [ToSpan(j, part - waited)], ForWaited(r, p, a, b, waited, level));
      Make(ToSpan(j, part - waited));
      ChargeWaited(p, a, b, waited, level);
    }

    method ChargeWaited(p: Piece, a: int, b: int, waited: real, level: nat)
      requires WellFormed(r.g) && PieceOk(r.g, p, a, b) && r.g.mode[p.edge] == Wait && level <= r.depth
      modifies this`bySpan, this`other, this`truncated, this`passed
      ensures Now() == Post(old(Now()), ForWaited(r, p, a, b, waited, level))
      decreases r.depth - level, 0, 1
    {
      SourceOk(r.g, p.edge);
      hide Now, WellFormed, Post, ForJoint, Gates, LatestAt, JointOf, EdgeOk, RowOk;
      ghost var before := Now();
      PostNothing(before);
      if waited <= 0.0 { return; }
      var j: nat := r.g.owner[p.edge];
      var srcs := Sources(r.g, j);
      if level >= r.depth {
        PostConcat(before, [CutShort], [ToSpan(j, waited)]);
        Make(CutShort);
        Make(ToSpan(j, waited));
        assert [CutShort] + [ToSpan(j, waited)] == [CutShort, ToSpan(j, waited)];
      } else if srcs == [] {
        Make(ToCause(UnknownWork, waited));
      } else {
        PassOn(p, a, b, waited, level);
      }
    }

    /** Waiting inside a gated call goes to what released that call. */
    method PassOn(p: Piece, a: int, b: int, waited: real, level: nat)
      requires WellFormed(r.g) && PieceOk(r.g, p, a, b) && r.g.mode[p.edge] == Wait && waited > 0.0 && level < r.depth
      requires Sources(r.g, r.g.owner[p.edge]) != []
      modifies this`bySpan, this`other, this`truncated, this`passed
      ensures Now() == Post(old(Now()), ForWaited(r, p, a, b, waited, level))
      decreases r.depth - level, 0, 0
    {
      SourceOk(r.g, p.edge);
      hide Now, WellFormed, Post, ForJoint, Gates, LatestAt, JointOf, EdgeOk, RowOk, Sources;
      var j: nat := r.g.owner[p.edge];
      var joint := Joint(r.g, Sources(r.g, j), r.jointNs);
      var lo, hi := Max(a, r.g.t[r.g.src[p.edge]]), Min(b, r.g.t[r.g.dst[p.edge]]);
      PostConcat(Now(), [PassedOn(j, waited)], ForJoint(r, joint, |joint|, lo, hi, waited, level + 1));
      Make(PassedOn(j, waited));
      ChargeJoint(joint, lo, hi, waited, level + 1);
    }

    /** Equal shares to the lanes of all that released jointly, each up to its own release. */
    method ChargeJoint(joint: seq<nat>, lo: int, hi: int, whole: real, level: nat)
      requires WellFormed(r.g) && EdgesOk(r.g, joint) && level <= r.depth
      modifies this`bySpan, this`other, this`truncated, this`passed
      ensures Now() == Post(old(Now()), ForJoint(r, joint, |joint|, lo, hi, whole, level))
      decreases r.depth - level, 4, 0
    {
      hide Now, WellFormed, Post, ForWindow, Row, RowOk;
      ghost var before := Now();
      PostNothing(before);
      var k := 0;
      while k < |joint|
        invariant 0 <= k <= |joint| && Now() == Post(before, ForJoint(r, joint, k, lo, hi, whole, level))
      {
        assert EdgeOk(r.g, joint[k]);
        SourceOk(r.g, joint[k]);
        var u := r.g.src[joint[k]];
        var share, end := whole / |joint| as real, Min(hi, Max(lo, r.g.t[u]));
        PostConcat(before, ForJoint(r, joint, k, lo, hi, whole, level), ForWindow(r, u, lo, end, share, level));
        Charge(u, lo, end, share, level);
        k := k + 1;
      }
    }

    /** How long span j waited: 0 for a call that is not gated, or was released before it began. */
    method WaitOf(j: nat) returns (w: int)
      requires WellFormed(r.g) && j < r.g.n
      ensures w == Waiting(r.g, j) >= 0
    {
      NodesTimed(r.g);
      if !r.g.gated[j] || r.g.excluded[j] { return 0; }
      var srcs := Sources(r.g, j);
      if srcs == [] { return 0; }
      w := Min(ReleasedAt(r.g, j), r.g.t[2 * j + 1]) - r.g.t[2 * j];
      if w <= 0 { w := 0; }
    }

    /** The charges for one wait. */
    method ChargeWaitOf(j: nat, w: int, joint: seq<nat>)
      requires HasWaited(r, j, w, joint)
      modifies this`bySpan, this`other, this`truncated, this`passed
      ensures Now() == Post(old(Now()), ForWaitOf(r, j, w, joint))
    {
      ChargeJoint(joint, r.g.t[2 * j], r.g.t[2 * j + 1], w as real, 0);
    }

    /** What span j waited for, if it waited. */
    method Awaited(j: nat) returns (w: int, joint: seq<nat>)
      requires WellFormed(r.g) && j < r.g.n
      ensures w == Waiting(r.g, j) && (w != 0 ==> HasWaited(r, j, w, joint))
    {
      w := WaitOf(j);
      joint := [];
      if w != 0 {
        WaitedHasSources(r, j);
        hide WellFormed, Waiting, Sources;
        joint := Joint(r.g, Sources(r.g, j), r.jointNs);
      }
    }

    /** One gated call's waiting time, charged once. */
    method ChargeSpan(j: nat)
      requires Settled(r, j, Now(), waiting, waits, jointReleases) && WellFormed(r.g) && j < r.g.n
      modifies this
      ensures Settled(r, j + 1, Now(), waiting, waits, jointReleases)
    {
      hide *;
      var w, joint := Awaited(j);
      if w == 0 {
        SettledNoWait(r, j, Now(), waiting, waits, jointReleases);
      } else {
        SettledWait(r, j, Now(), waiting, waits, jointReleases, w, joint);
        waiting := waiting + w;
        waits := waits + [RecordOf(r, j, w, joint)];
        if |joint| > 1 { jointReleases := jointReleases + 1; }
        ChargeWaitOf(j, w, joint);
      }
    }

    /** Every gated call's waiting time is charged once, the charges are exactly all of it, and every account ends up
        with exactly its due. */
    method Run()
      requires WellFormed(r.g) && Now() == NoAccounts && waiting == 0 && waits == [] && jointReleases == 0
      modifies this
      ensures Settled(r, r.g.n, Now(), waiting, waits, jointReleases)
      ensures AccountsOk(Now(), r.g.n) && Total(Now(), r.g.n) == waiting as real
      ensures forall q: Who :: AccountOf(Now(), q) == DueOf(r, q, r.g.n)
    {
      NothingSettled(r);
      hide *;
      var j := 0;
      while j < r.g.n
        invariant 0 <= j <= r.g.n && Settled(r, j, Now(), waiting, waits, jointReleases)
      {
        ChargeSpan(j);
        j := j + 1;
      }
      SettledAddsUp(r, Now(), waiting, waits, jointReleases);
      PostedAll(r, Now(), waiting, waits, jointReleases);
    }
  }
}
