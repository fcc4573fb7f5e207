/** One thread's raw call forest: `_ct_build_raw` of src/analysis/call_tree.py with the parent lookup of
    src/analysis/span_links.py. Spans are numbered in start order; a node's children are a list of numbers. */
module CallForest {
  import opened Options
  import opened ForestLists

  /** id and parentId are empty when absent; family is the hook family of the span's ids. */
  datatype Span = Span(pid: int, start: int, end: int, name: string, category: string, id: string, parentId: string,
    family: string)

  ghost predicate ByStart(spans: seq<Span>) {
    forall i, j :: 0 <= i < j < |spans| ==> spans[i].start <= spans[j].start
  }

  // ---- explicit parents ----

  predicate InRange(spans: seq<Span>, cs: seq<nat>) {
    forall k :: 0 <= k < |cs| ==> cs[k] < |spans|
  }

  /** The spans below n that carry an id of a process. */
  function Carrying(spans: seq<Span>, n: nat, pid: int, id: string): (cs: seq<nat>)
    requires n <= |spans|
    ensures InRange(spans, cs)
    ensures forall c: nat :: c in cs <==> c < n && spans[c].pid == pid && spans[c].id == id && id != ""
  {
    if n == 0 then [] else
    Carrying(spans, n - 1, pid, id) + if spans[n-1].pid == pid && spans[n-1].id == id && id != "" then [n - 1] else []
  }

  function OfFamily(spans: seq<Span>, cs: seq<nat>, family: string): (out: seq<nat>)
    requires InRange(spans, cs)
    ensures InRange(spans, out) && forall c :: c in out <==> c in cs && c < |spans| && spans[c].family == family
  {
    if cs == [] then [] else
    var last := cs[|cs|-1];
    OfFamily(spans, cs[..|cs|-1], family) + if spans[last].family == family then [last] else []
  }

  function StartedBy(spans: seq<Span>, cs: seq<nat>, time: int): (out: seq<nat>)
    requires InRange(spans, cs)
    ensures InRange(spans, out) && forall c :: c in out <==> c in cs && c < |spans| && spans[c].start <= time
  {
    if cs == [] then [] else
    var last := cs[|cs|-1];
    StartedBy(spans, cs[..|cs|-1], time) + if spans[last].start <= time then [last] else []
  }

  /** The first of those that start latest. */
  function Latest(spans: seq<Span>, cs: seq<nat>): (c: nat)
    requires cs != [] && InRange(spans, cs)
    ensures c in cs && c < |spans| && forall d :: d in cs && d < |spans| ==> spans[d].start <= spans[c].start
  {
    var last := cs[|cs|-1];
    if |cs| == 1 then last else
    var c := Latest(spans, cs[..|cs|-1]);
    assert forall d :: d in cs ==> d in cs[..|cs|-1] || d == last;
    if spans[last].start > spans[c].start then last else c
  }

  /** Several spans may carry one id: the child's own family decides, else an annotation range; among several of
      that family, the latest that started no later than the child. */
  function Pick(spans: seq<Span>, cs: seq<nat>, family: string): (pick: seq<nat>)
    requires InRange(spans, cs)
    ensures InRange(spans, pick) && forall c :: c in pick ==> c in cs
  {
    var own := OfFamily(spans, cs, family);
    if own != [] then own else OfFamily(spans, cs, "annotation")
  }

  function Resolve(spans: seq<Span>, i: nat): (r: Option<nat>)
    requires i < |spans|
    ensures r.Some? ==> r.value < |spans|
  {
    var s := spans[i];
    var cs := Carrying(spans, |spans|, s.pid, s.parentId);
    if s.parentId == "" || cs == [] then None
    else if |cs| == 1 then Some(cs[0])
    else
      var pick := Pick(spans, cs, s.family);
      if |pick| == 1 then Some(pick[0]) else
      var before := StartedBy(spans, pick, s.start);
      if before == [] then None else Some(Latest(spans, before))
  }

  /** The parent found carries the id; when several do, it is of the child's family or, no span of that family
      carrying it, an annotation range: nothing is guessed across families. */
  lemma ResolvedParent(spans: seq<Span>, i: nat)
    requires i < |spans| && Resolve(spans, i).Some?
    ensures var p := Resolve(spans, i).value; var s := spans[i];
      && spans[p].pid == s.pid && spans[p].id == s.parentId != ""
      && (spans[p].family == s.family
          || (forall q: nat :: q < |spans| && q != p ==> !(spans[q].pid == s.pid && spans[q].id == s.parentId))
          || (spans[p].family == "annotation"
              && forall q: nat :: q < |spans| && spans[q].pid == s.pid && spans[q].id == s.parentId ==>
                spans[q].family != s.family))
  {
    var s := spans[i];
    var p := Resolve(spans, i).value;
    var cs := Carrying(spans, |spans|, s.pid, s.parentId);
    if |cs| == 1 {
      assert cs[0] in cs;
      assert forall q :: q in cs ==> q == cs[0];
    } else {
      var pick := Pick(spans, cs, s.family);
      assert p in pick;
    }
  }

  // ---- the parent of each span ----

  /** The explicit parent, when the lookup finds a span placed before the child. */
  function Explicit(spans: seq<Span>, i: nat): (r: Option<nat>)
    requires i < |spans|
    ensures r.Some? ==> r.value < i
  {
    var p := Resolve(spans, i);
    if p.Some? && p.value < i then p else None
  }

  /** Of the spans below j, the last that is still running at a time. */
  function LastRunning(spans: seq<Span>, j: nat, time: int): (r: Option<nat>)
    requires j <= |spans|
    ensures r.Some? ==> r.value < j && spans[r.value].end > time
    ensures forall k :: (if r.Some? then r.value + 1 else 0) <= k < j ==> spans[k].end <= time
  {
    if j == 0 then None else if spans[j-1].end > time then Some(j - 1) else LastRunning(spans, j - 1, time)
  }

  /** Without an explicit parent: the last span still running at the start, if it also ends no earlier. */
  function Temporal(spans: seq<Span>, i: nat): (r: Option<nat>)
    requires i < |spans|
    ensures r.Some? ==> r.value < i
  {
    var j := LastRunning(spans, i, spans[i].start);
    if j.Some? && spans[j.value].end >= spans[i].end then j else None
  }

  /** The explicit parents of the first n spans. */
  function Explicits(spans: seq<Span>, n: nat): (ex: seq<Option<nat>>)
    requires n <= |spans|
    ensures |ex| == n && Forward(ex)
  {
    if n == 0 then [] else Explicits(spans, n - 1) + [Explicit(spans, n - 1)]
  }

  /** The parents by time, of the spans without an explicit one. */
  function Temporals(spans: seq<Span>, n: nat): (te: seq<Option<nat>>)
    requires n <= |spans|
    ensures |te| == n && Forward(te)
  {
    if n == 0 then []
    else Temporals(spans, n - 1) + [if Explicit(spans, n - 1).None? then Temporal(spans, n - 1) else None]
  }

  lemma {:induction false} ParentsAt(spans: seq<Span>, n: nat, i: nat)
    requires i < n <= |spans|
    ensures Explicits(spans, n)[i] == Explicit(spans, i)
    ensures Temporals(spans, n)[i] == if Explicit(spans, i).None? then Temporal(spans, i) else None
  {
    hide Explicit, Temporal;
    if i < n - 1 { ParentsAt(spans, n - 1, i); }
  }

  lemma ParentsApart(spans: seq<Span>)
    ensures OneParent(Explicits(spans, |spans|), Temporals(spans, |spans|))
  {
    forall i | 0 <= i < |spans| ensures Explicits(spans, |spans|)[i].None? || Temporals(spans, |spans|)[i].None? {
      ParentsAt(spans, |spans|, i);
    }
  }

  /** A child by time lies within its parent. */
  lemma TemporalContained(spans: seq<Span>, i: nat)
    requires ByStart(spans) && i < |spans| && Temporal(spans, i).Some?
    ensures var p := Temporal(spans, i).value; p < i && spans[p].start <= spans[i].start && spans[i].end <= spans[p].end
  {
  }

  /** The child lists, explicit children first, and the roots. */
  ghost predicate IsForest(spans: seq<Span>, children: seq<seq<nat>>, roots: seq<nat>) {
    var ex, te := Explicits(spans, |spans|), Temporals(spans, |spans|);
    && |children| == |spans| && roots == RootsOf(ex, te, |spans|)
    && forall p :: 0 <= p < |spans| ==> children[p] == ListOf(ex, p, |spans|) + ListOf(te, p, |spans|)
  }

  // ---- building them ----

  /** What the stack holds before span i: an ascending list in which everything running then and not below a later
      ended span can be found; its top, once ended spans are popped, is the last span still running. */
  ghost predicate StackOk(spans: seq<Span>, i: nat, stack: seq<nat>, time: int) {
    && i <= |spans|
    && (forall a :: 0 <= a < |stack| ==> stack[a] < i)
    && (forall a, b :: 0 <= a < b < |stack| ==> stack[a] < stack[b])
    && (forall k: nat :: k < i && k !in stack ==> spans[k].end <= time)
  }

  lemma TopIsLastRunning(spans: seq<Span>, i: nat, stack: seq<nat>, time: int)
    requires StackOk(spans, i, stack, time) && (stack != [] ==> spans[stack[|stack|-1]].end > time)
    ensures LastRunning(spans, i, time) == if stack == [] then None else Some(stack[|stack|-1])
  {
    var r := LastRunning(spans, i, time);
    assert r.Some? ==> r.value in stack;
    assert stack != [] ==> r.Some? && r.value >= stack[|stack|-1];
  }

  /** Popping a span that has ended. */
  lemma PopKeeps(spans: seq<Span>, i: nat, stack: seq<nat>, time: int)
    requires StackOk(spans, i, stack, time) && stack != [] && spans[stack[|stack|-1]].end <= time
    ensures StackOk(spans, i, stack[..|stack|-1], time)
  {
    var rest := stack[..|stack|-1];
    assert forall k :: k in stack ==> k in rest || k == stack[|stack|-1];
  }

  /** Pushing span i, and time going on to a later start. */
  lemma PushKeeps(spans: seq<Span>, i: nat, stack: seq<nat>, time: int, later: int)
    requires StackOk(spans, i, stack, time) && i < |spans| && time <= later
    ensures StackOk(spans, i + 1, stack + [i], later)
  {
  }

  lemma ExplicitIs(spans: seq<Span>, i: nat)
    requires i < |spans|
    ensures Explicit(spans, i) == var p := Resolve(spans, i); if p.Some? && p.value < i then p else None
  {
  }

  /** Each node has the list given by the parents of the first n nodes. */
  ghost predicate ListsAre(lists: seq<seq<nat>>, par: seq<Option<nat>>, n: nat) {
    n <= |par| == |lists| && forall p :: 0 <= p < |lists| ==> lists[p] == ListOf(par, p, n)
  }

  /** One node joins the list of its parent. */
  lemma Joins(lists: seq<seq<nat>>, par: seq<Option<nat>>, i: nat)
    requires ListsAre(lists, par, i) && i < |par| && (par[i].Some? ==> par[i].value < i)
    ensures ListsAre(if par[i].Some? then lists[par[i].value := lists[par[i].value] + [i]] else lists, par, i + 1)
  {
  }

  lemma NoListsYet(par: seq<Option<nat>>, lists: seq<seq<nat>>)
    requires |lists| == |par| && forall p :: 0 <= p < |lists| ==> lists[p] == []
    ensures ListsAre(lists, par, 0)
  {
  }

  ghost predicate FlagsAre(explicit: seq<bool>, ex: seq<Option<nat>>) {
    |explicit| <= |ex| && forall j :: 0 <= j < |explicit| ==> explicit[j] == ex[j].Some?
  }

  lemma OneMoreFlag(explicit: seq<bool>, ex: seq<Option<nat>>)
    requires FlagsAre(explicit, ex) && |explicit| < |ex|
    ensures FlagsAre(explicit + [ex[|explicit|].Some?], ex)
  {
  }

  /** One span goes to its explicit parent, if it has one. */
  method AttachOne(spans: seq<Span>, ghost ex: seq<Option<nat>>, lists: seq<seq<nat>>, i: nat)
    returns (children: seq<seq<nat>>, found: bool)
    requires ex == Explicits(spans, |spans|) && i < |spans| && ListsAre(lists, ex, i)
    ensures ListsAre(children, ex, i + 1) && found == ex[i].Some?
  {
    var p := Resolve(spans, i);
    ExplicitIs(spans, i);
    ParentsAt(spans, |spans|, i);
    Joins(lists, ex, i);
    hide *;
    found := p.Some? && p.value < i;
    children := lists;
    if found {
      children := children[p.value := children[p.value] + [i]];
    }
  }

  method AttachExplicit(spans: seq<Span>, ghost ex: seq<Option<nat>>)
    returns (children: seq<seq<nat>>, explicit: seq<bool>)
    requires ex == Explicits(spans, |spans|)
    ensures ListsAre(children, ex, |spans|) && |explicit| == |spans| && FlagsAre(explicit, ex)
  {
    children := seq(|spans|, _ => []);
    explicit := [];
    NoListsYet(ex, children);
    assert FlagsAre([], ex);
    hide *;
    while |explicit| < |spans|
      invariant |explicit| <= |spans| && ListsAre(children, ex, |explicit|) && FlagsAre(explicit, ex)
      decreases |spans| - |explicit|
    {
      var found;
      children, found := AttachOne(spans, ex, children, |explicit|);
      OneMoreFlag(explicit, ex);
      explicit := explicit + [found];
    }
  }

  /** The top of the stack once the spans that have ended by `time` are popped. */
  method PopEnded(spans: seq<Span>, i: nat, stack: seq<nat>, time: int) returns (out: seq<nat>)
    requires StackOk(spans, i, stack, time)
    ensures StackOk(spans, i, out, time)
    ensures LastRunning(spans, i, time) == if out == [] then None else Some(out[|out|-1])
  {
    out := stack;
    while out != [] && spans[out[|out|-1]].end <= time
      invariant StackOk(spans, i, out, time)
      decreases |out|
    {
      PopKeeps(spans, i, out, time);
      out := out[..|out|-1];
    }
    TopIsLastRunning(spans, i, out, time);
  }

  method AttachByTime(spans: seq<Span>, ghost te: seq<Option<nat>>, explicit: seq<bool>, first: seq<seq<nat>>)
    returns (children: seq<seq<nat>>, ghost late: seq<seq<nat>>, roots: seq<nat>)
    requires ByStart(spans) && |first| == |explicit| == |spans| == |te|
    requires forall i :: 0 <= i < |spans| ==> te[i] == if explicit[i] then None else Temporal(spans, i)
    ensures ListsAre(late, te, |spans|) && Appended(first, late, children)
    ensures roots == Unparented(explicit, te, |spans|)
  {
    var stack: seq<nat> := [];
    children, roots := first, [];
    late := seq(|spans|, _ => []);
    NoListsYet(te, late);
    assert Appended(first, late, children);
    StackStarts(spans);
    assert Unparented(explicit, te, 0) == [];
    hide *;
    var i := 0;
    while i < |spans|
      invariant 0 <= i <= |spans| == |late| == |children| && ListsAre(late, te, i) && Appended(first, late, children)
      invariant i < |spans| ==> StackOk(spans, i, stack, spans[i].start)
      invariant roots == Unparented(explicit, te, i)
    {
      stack := PopEnded(spans, i, stack, spans[i].start);
      UnparentedStep(explicit, te, i + 1);
      ghost var late';
      var rooted;
      children, late', rooted := PlaceOne(spans, te, explicit[i], stack, i, first, late, children);
      late := late';
      if rooted { roots := roots + [i]; }
      if i + 1 < |spans| {
        LaterStart(spans, i);
        PushKeeps(spans, i, stack, spans[i].start, spans[i + 1].start);
      }
      stack := stack + [i];
      i := i + 1;
    }
  }

  /** One span goes to the top of the stack, or becomes a root, unless it has an explicit parent. */
  method PlaceOne(spans: seq<Span>, ghost te: seq<Option<nat>>, explicit: bool, stack: seq<nat>, i: nat,
                  ghost first: seq<seq<nat>>, ghost late: seq<seq<nat>>, lists: seq<seq<nat>>)
    returns (children: seq<seq<nat>>, ghost late': seq<seq<nat>>, rooted: bool)
    requires i < |spans| == |te| == |lists| && ListsAre(late, te, i) && Appended(first, late, lists)
    requires te[i] == if explicit then None else Temporal(spans, i)
    requires StackOk(spans, i, stack, spans[i].start)
    requires LastRunning(spans, i, spans[i].start) == if stack == [] then None else Some(stack[|stack|-1])
    ensures |children| == |spans| == |late'| && ListsAre(late', te, i + 1) && Appended(first, late', children)
    ensures rooted == (!explicit && te[i].None?)
  {
    StackInRange(spans, i, stack, spans[i].start);
    TemporalIs(spans, i);
    Joins(late, te, i);
    AppendedLengths(first, late, lists);
    hide *;
    children, late', rooted := lists, late, false;
    if !explicit {
      if stack != [] && spans[stack[|stack|-1]].end >= spans[i].end {
        var p := stack[|stack|-1];
        AppendedOne(first, late, lists, p, i);
        children := children[p := children[p] + [i]];
        late' := late[p := late[p] + [i]];
      } else {
        rooted := true;
      }
    }
  }

  lemma AppendedLengths(a: seq<seq<nat>>, b: seq<seq<nat>>, c: seq<seq<nat>>)
    requires Appended(a, b, c)
    ensures |a| == |b| == |c|
  {
  }

  method BuildRaw(spans: seq<Span>) returns (lists: seq<seq<nat>>, roots: seq<nat>)
    requires ByStart(spans)
    ensures IsForest(spans, lists, roots)
  {
    ghost var ex, te := Explicits(spans, |spans|), Temporals(spans, |spans|);
    var children, explicit := AttachExplicit(spans, ex);
    forall i | 0 <= i < |spans| ensures te[i] == if explicit[i] then None else Temporal(spans, i) {
      ParentsAt(spans, |spans|, i);
    }
    hide Explicit, Temporal, Explicits, Temporals;
    ghost var late;
    lists, late, roots := AttachByTime(spans, te, explicit, children);
    RootsAgree(ex, te, explicit, |spans|);
  }

  /** Each list is one list followed by another. */
  ghost predicate Appended(a: seq<seq<nat>>, b: seq<seq<nat>>, c: seq<seq<nat>>) {
    |a| == |b| == |c| && forall p :: 0 <= p < |c| ==> c[p] == a[p] + b[p]
  }

  lemma AppendedOne(a: seq<seq<nat>>, b: seq<seq<nat>>, c: seq<seq<nat>>, p: nat, i: nat)
    requires Appended(a, b, c) && p < |c|
    ensures Appended(a, b[p := b[p] + [i]], c[p := c[p] + [i]])
  {
  }

  /** The spans below n with no parent of either kind. */
  function Unparented(explicit: seq<bool>, te: seq<Option<nat>>, n: nat): seq<nat>
    requires n <= |explicit| == |te|
  {
    if n == 0 then []
    else if !explicit[n-1] && te[n-1].None? then Unparented(explicit, te, n - 1) + [n - 1]
    else Unparented(explicit, te, n - 1)
  }

  lemma UnparentedStep(explicit: seq<bool>, te: seq<Option<nat>>, n: nat)
    requires 0 < n <= |explicit| == |te|
    ensures Unparented(explicit, te, n)
         == if !explicit[n-1] && te[n-1].None? then Unparented(explicit, te, n - 1) + [n - 1]
           else Unparented(explicit, te, n - 1)
  {
  }

  lemma {:induction false} RootsAgree(ex: seq<Option<nat>>, te: seq<Option<nat>>, explicit: seq<bool>, n: nat)
    requires n <= |ex| == |te| == |explicit| && forall i :: 0 <= i < |ex| ==> explicit[i] == ex[i].Some?
    ensures Unparented(explicit, te, n) == RootsOf(ex, te, n)
  {
    if n > 0 { RootsAgree(ex, te, explicit, n - 1); }
  }

  lemma StackStarts(spans: seq<Span>)
    ensures spans != [] ==> StackOk(spans, 0, [], spans[0].start)
  {
  }

  lemma TemporalIs(spans: seq<Span>, i: nat)
    requires i < |spans|
    ensures var j := LastRunning(spans, i, spans[i].start);
      (j.Some? ==> j.value < i)
        && Temporal(spans, i) == if j.Some? && spans[j.value].end >= spans[i].end then j else None
  {
  }

  lemma StackInRange(spans: seq<Span>, i: nat, stack: seq<nat>, time: int)
    requires StackOk(spans, i, stack, time)
    ensures stack != [] ==> stack[|stack|-1] < i <= |spans|
  {
  }

  lemma LaterStart(spans: seq<Span>, i: nat)
    requires ByStart(spans) && i + 1 < |spans|
    ensures spans[i].start <= spans[i+1].start
  {
  }

  /** One node per span: whatever is summed over the roots and over all child lists is summed over the spans. */
  lemma OneNodePerSpan(spans: seq<Span>, children: seq<seq<nat>>, roots: seq<nat>, w: seq<int>)
    requires IsForest(spans, children, roots) && |w| == |spans|
    ensures SumOver(w, roots) + SumChildren(w, children, |children|) == SumAll(w, |spans|)
  {
    var ex, te := Explicits(spans, |spans|), Temporals(spans, |spans|);
    ParentsApart(spans);
    EachOnce(ex, te, w, |spans|);
    ChildrenAreLists(ex, te, w, children, |children|);
  }

  function SumChildren(w: seq<int>, children: seq<seq<nat>>, p: nat): int
    requires p <= |children|
  {
    if p == 0 then 0 else SumChildren(w, children, p - 1) + SumOver(w, children[p-1])
  }

  lemma {:induction false} ChildrenAreLists(ex: seq<Option<nat>>, te: seq<Option<nat>>, w: seq<int>,
        children: seq<seq<nat>>, p: nat)
    requires p <= |children| == |ex| == |te|
    requires forall q :: 0 <= q < |children| ==> children[q] == ListOf(ex, q, |ex|) + ListOf(te, q, |ex|)
    ensures SumChildren(w, children, p) == SumLists(ex, w, p, |ex|) + SumLists(te, w, p, |ex|)
  {
    hide SumOver, ListOf;
    if p > 0 {
      ChildrenAreLists(ex, te, w, children, p - 1);
      SumOverConcat(w, ListOf(ex, p - 1, |ex|), ListOf(te, p - 1, |ex|));
    }
  }

  /** Every link points forward: a child comes after its parent in start order. */
  lemma LinksForward(spans: seq<Span>, children: seq<seq<nat>>, roots: seq<nat>, p: nat, k: nat)
    requires IsForest(spans, children, roots) && p < |spans| && k < |children[p]|
    ensures p < children[p][k] < |spans|
  {
    var ex, te := Explicits(spans, |spans|), Temporals(spans, |spans|);
    ListOfMeans(ex, p, |spans|);
    ListOfMeans(te, p, |spans|);
    var l := ListOf(ex, p, |spans|);
    if k < |l| {
      assert ex[l[k]] == Some(p);
    } else {
      var m := ListOf(te, p, |spans|);
      assert te[m[k - |l|]] == Some(p);
    }
  }
}
