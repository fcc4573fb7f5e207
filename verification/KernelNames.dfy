/** The growing kernel-name table (`kname_put` and `kname_get` of hooks/rocm_hook/rocprof_trace.c): it behaves as a
    map from ids to names. */
module KernelNames {
  import opened Options
  import opened KernelProbe

  // ---- what a table holds ----

  function Contents(s: seq<Entry>): map<nat, string> {
    if s == [] then map[] else
    match s[|s|-1]
    case Empty => Contents(s[..|s|-1])
    case Named(id, name) => Contents(s[..|s|-1])[id := name]
  }

  lemma {:induction false} ContentsMeans(s: seq<Entry>)
    requires UniqueIds(s)
    ensures forall id :: id in Contents(s) <==> exists i: nat :: Holds(s, i, id)
    ensures forall i :: 0 <= i < |s| && s[i].Named? ==> s[i].id in Contents(s) && Contents(s)[s[i].id] == s[i].name
  {
    if s != [] {
      var n := |s| - 1;
      var p := s[..n];
      forall i: nat, j: nat, id | Holds(p, i, id) && Holds(p, j, id) ensures i == j {
        assert Holds(s, i, id) && Holds(s, j, id);
      }
      ContentsMeans(p);
      forall id ensures id in Contents(s) <==> exists i: nat :: Holds(s, i, id) {
        if i: nat :| Holds(p, i, id) { assert Holds(s, i, id); }
        if i: nat :| Holds(s, i, id) { assert i < n ==> Holds(p, i, id); }
        if Holds(s, n, id) { assert s[n].id == id; }
      }
      forall i | 0 <= i < |s| && s[i].Named? ensures s[i].id in Contents(s) && Contents(s)[s[i].id] == s[i].name {
        if i < n {
          assert p[i] == s[i];
          assert Holds(s, i, s[i].id);
          assert s[n].Named? && s[n].id == s[i].id ==> Holds(s, n, s[i].id);
        }
      }
    }
  }

  ghost predicate SomeHolds(s: seq<Entry>, id: nat) {
    exists i: nat :: Holds(s, i, id)
  }

  lemma ContentsIn(s: seq<Entry>, id: nat)
    requires UniqueIds(s)
    ensures id in Contents(s) <==> SomeHolds(s, id)
  {
    ContentsMeans(s);
    hide Contents, UniqueIds;
  }

  lemma ContentsAt(s: seq<Entry>, i: nat, id: nat)
    requires UniqueIds(s) && Holds(s, i, id)
    ensures id in Contents(s) && Contents(s)[id] == s[i].name
  {
    ContentsMeans(s);
    hide Contents, UniqueIds;
  }

  lemma StoreHolds(s: seq<Entry>, id: nat, name: string, i: nat, x: nat)
    requires i < |s| && (s[i].Empty? || s[i].id == id)
    ensures SomeHolds(s[i := Named(id, name)], x) <==> SomeHolds(s, x) || x == id
  {
    var t := s[i := Named(id, name)];
    assert Holds(t, i, id);
    if SomeHolds(s, x) {
      var j: nat :| Holds(s, j, x);
      if j != i { assert Holds(t, j, x); }
    }
    if SomeHolds(t, x) {
      var j: nat :| Holds(t, j, x);
      if j != i { assert Holds(s, j, x); }
    }
  }

  /** Storing changes the name of no other id. */
  lemma StoreKeeps(s: seq<Entry>, id: nat, name: string, i: nat, x: nat)
    requires UniqueIds(s) && i < |s| && (s[i].Empty? || s[i].id == id) && UniqueIds(s[i := Named(id, name)])
    requires x != id && SomeHolds(s, x)
    ensures x in Contents(s) && x in Contents(s[i := Named(id, name)])
    ensures Contents(s[i := Named(id, name)])[x] == Contents(s)[x]
  {
    var t := s[i := Named(id, name)];
    var j: nat :| Holds(s, j, x);
    assert j != i && Holds(t, j, x);
    ContentsAt(s, j, x);
    ContentsAt(t, j, x);
  }

  /** Storing an entry where its probe ended sets that id's name and nothing else. */
  lemma StoreSets(s: seq<Entry>, id: nat, name: string, d: nat, i: nat)
    requires UniqueIds(s) && AllReachable(s) && ProbeEnds(s, id, d, i)
    ensures UniqueIds(s[i := Named(id, name)]) && Contents(s[i := Named(id, name)]) == Contents(s)[id := name]
  {
    var t := s[i := Named(id, name)];
    StoreUnique(s, id, name, d, i);
    assert Holds(t, i, id);
    ContentsAt(t, i, id);
    hide *;
    assert i < |s| && (s[i].Empty? || s[i].id == id) by { EndsAt(s, id, d, i); }
    forall x: nat ensures x in Contents(t) <==> x in Contents(s) || x == id {
      ContentsIn(s, x);
      ContentsIn(t, x);
      StoreHolds(s, id, name, i, x);
    }
    forall x: nat | x in Contents(t) ensures Contents(t)[x] == Contents(s)[id := name][x] {
      if x != id {
        ContentsIn(s, x);
        StoreKeeps(s, id, name, i, x);
      }
    }
  }

  lemma EndsAt(s: seq<Entry>, id: nat, d: nat, i: nat)
    requires ProbeEnds(s, id, d, i)
    ensures i < |s| && (s[i].Empty? || s[i].id == id)
  {
  }

  lemma ContentsOne(s: seq<Entry>, i: nat)
    requires i < |s|
    ensures Contents(s[..i+1]) == if s[i].Named? then Contents(s[..i])[s[i].id := s[i].name] else Contents(s[..i])
    ensures Count(s[..i+1]) == Count(s[..i]) + if s[i].Named? then 1 else 0
  {
    assert s[..i+1][..i] == s[..i];
  }

  lemma {:induction false} AllEmpty(s: seq<Entry>)
    requires forall i :: 0 <= i < |s| ==> s[i].Empty?
    ensures Contents(s) == map[] && Count(s) == 0 && UniqueIds(s) && AllReachable(s)
  {
    if s != [] { AllEmpty(s[..|s|-1]); }
  }

  lemma {:induction false} CountPrefix(s: seq<Entry>, i: nat)
    requires i <= |s|
    ensures Count(s[..i]) <= Count(s)
  {
    if i < |s| {
      CountPrefix(s[..|s|-1], i);
      assert s[..|s|-1][..i] == s[..i];
    } else {
      assert s[..i] == s;
    }
  }

  /** An id that comes later in a table is not among the earlier entries. */
  lemma NotBefore(s: seq<Entry>, i: nat)
    requires UniqueIds(s) && i < |s| && s[i].Named?
    ensures UniqueIds(s[..i]) && s[i].id !in Contents(s[..i])
  {
    var p := s[..i];
    forall j: nat, k: nat, id | Holds(p, j, id) && Holds(p, k, id) ensures j == k {
      assert Holds(s, j, id) && Holds(s, k, id);
    }
    ContentsMeans(p);
    assert Holds(s, i, s[i].id);
    assert forall j: nat :: Holds(p, j, s[i].id) ==> Holds(s, j, s[i].id);
  }

  /** A probe for an id the table does not hold ends at an empty slot. */
  lemma ProbeMisses(s: seq<Entry>, id: nat, d: nat, i: nat)
    requires UniqueIds(s) && ProbeEnds(s, id, d, i)
    ensures id !in Contents(s) ==> s[i].Empty?
    ensures s[i].Named? ==> id in Contents(s) && Contents(s)[id] == s[i].name
  {
    ContentsMeans(s);
    assert s[i].Named? ==> Holds(s, i, id);
  }

  /** A probe that ends at an empty slot proves the id absent. */
  lemma ProbeProvesAbsent(s: seq<Entry>, id: nat, d: nat, i: nat)
    requires UniqueIds(s) && AllReachable(s) && ProbeEnds(s, id, d, i) && s[i].Empty?
    ensures id !in Contents(s)
  {
    ContentsMeans(s);
    forall j: nat | Holds(s, j, id) ensures j == i { ProbeFinds(s, id, d, i, j); }
  }

  /** Storing where the probe ended; the slot says whether the id is new. */
  method Store(tab: array<Entry>, id: nat, name: string) returns (added: bool)
    requires UniqueIds(tab[..]) && AllReachable(tab[..]) && Count(tab[..]) < tab.Length
    modifies tab
    ensures UniqueIds(tab[..]) && AllReachable(tab[..]) && Contents(tab[..]) == old(Contents(tab[..]))[id := name]
    ensures added <==> id !in old(Contents(tab[..]))
    ensures Count(tab[..]) == old(Count(tab[..])) + if added then 1 else 0
  {
    ghost var s := tab[..];
    var i; ghost var d;
    i, d := Probe(tab, id);
    added := tab[i].Empty?;
    tab[i] := Named(id, name);
    assert tab[..] == s[i := Named(id, name)];
    hide ProbeEnds, UniqueIds, AllReachable, Contents;
    ProbeMisses(s, id, d, i);
    if added { ProbeProvesAbsent(s, id, d, i); }
    StoreSets(s, id, name, d, i);
    StoreReachable(s, id, name, d, i);
    CountUpdate(s, i, Named(id, name));
  }

  /** Every entry moves to a larger table: no id is lost, none appears twice. */
  method Rehash(tab: array<Entry>, ncap: nat) returns (nt: array<Entry>)
    requires UniqueIds(tab[..]) && Count(tab[..]) < ncap
    ensures fresh(nt) && nt.Length == ncap && UniqueIds(nt[..]) && AllReachable(nt[..])
    ensures Contents(nt[..]) == Contents(tab[..]) && Count(nt[..]) == Count(tab[..])
  {
    nt := new Entry[ncap](_ => Empty);
    ghost var s := tab[..];
    AllEmpty(nt[..]);
    hide UniqueIds, AllReachable, Contents, Count;
    assert s[..0] == [];
    AllEmpty(s[..0]);
    var i := 0;
    while i < tab.Length
      invariant 0 <= i <= tab.Length && fresh(nt) && tab[..] == s
      invariant UniqueIds(nt[..]) && AllReachable(nt[..]) && Contents(nt[..]) == Contents(s[..i])
      invariant Count(nt[..]) == Count(s[..i])
    {
      ContentsOne(s, i);
      CountPrefix(s, i);
      if tab[i].Named? {
        NotBefore(s, i);
        var added := Store(nt, tab[i].id, tab[i].name);
      }
      i := i + 1;
    }
    assert s[..i] == s;
  }

  // ---- the table ----

  /** 1024, doubled some number of times. */
  predicate Capacity(cap: nat) {
    cap == 1024 || (cap > 1024 && cap % 2 == 0 && Capacity(cap / 2))
  }

  function Doubled(cap: nat): nat {
    if cap > 0 then cap * 2 else 1024
  }

  /** A kernel descriptor symbol without its suffix. */
  function Trim(name: string): string {
    if |name| > 3 && name[|name|-3..] == ".kd" then name[..|name|-3] else name
  }

  function Decimal(n: nat): string {
    (if n < 10 then "" else Decimal(n / 10)) + ["0123456789"[n % 10]]
  }

  /** snprintf into a buffer of cap characters. */
  function Printed(s: string, cap: nat): string
    requires cap > 0
  {
    if |s| < cap then s else s[..cap - 1]
  }

  /** A descriptor's suffix goes, with a name before it, and nothing else does. */
  lemma TrimMeans(name: string, base: string)
    ensures base != "" ==> Trim(base + ".kd") == base
    ensures (forall b: string :: b != "" ==> b + ".kd" != name) ==> Trim(name) == name
  {
    var full := base + ".kd";
    assert full[|full|-3..] == ".kd" && full[..|full|-3] == base;
    if |name| > 3 && name[|name|-3..] == ".kd" {
      var b := name[..|name|-3];
      assert b != "" && b + ".kd" == name;
    }
  }

  function DigitValue(c: char): nat {
    if '0' <= c <= '9' then (c - '0') as int else 0
  }

  /** The number a string of digits denotes. */
  function Denotes(s: string): nat {
    if s == "" then 0 else 10 * Denotes(s[..|s|-1]) + DigitValue(s[|s|-1])
  }

  /** A decimal reads back as the number and has no leading zero. */
  lemma {:induction false} DecimalReads(n: nat)
    ensures Denotes(Decimal(n)) == n && Decimal(n) != ""
    ensures |Decimal(n)| > 1 ==> Decimal(n)[0] != '0'
    ensures n > 0 ==> Decimal(n)[0] != '0'
  {
    var front := if n < 10 then "" else Decimal(n / 10);
    var c := "0123456789"[n % 10];
    assert Decimal(n) == front + [c] && (front + [c])[..|front|] == front;
    assert DigitValue(c) == n % 10;
    if n >= 10 { DecimalReads(n / 10); }
  }

  /** What is printed fits the buffer with its terminator: all of it if that does, else as much as does. */
  lemma PrintedFits(s: string, cap: nat)
    requires cap > 0
    ensures Printed(s, cap) <= s && |Printed(s, cap)| < cap
    ensures Printed(s, cap) == s <==> |s| < cap
    ensures |s| >= cap ==> |Printed(s, cap)| == cap - 1
  {
  }

  // ---- sequences of puts ----

  /** One kname_put: its arguments, and whether the copy of the name and a larger table can be had. */
  datatype Request = Request(id: nat, name: Option<string>, copied: bool, grown: bool)

  /** What a table amounts to: its names and its number of slots. */
  datatype Table = Table(names: map<nat, string>, cap: nat)

  const NoTable := Table(map[], 0)

  predicate NeedsGrowth(t: Table) {
    2 * (|t.names| + 1) > t.cap
  }

  /** A put takes effect if it has a name, the name can be copied, and there is or can be had room. */
  predicate TakesEffect(t: Table, q: Request) {
    q.name.Some? && q.copied && (q.grown || !NeedsGrowth(t))
  }

  function AfterPut(t: Table, q: Request): Table {
    if !TakesEffect(t, q) then t
    else Table(t.names[q.id := Trim(q.name.value)], if NeedsGrowth(t) then Doubled(t.cap) else t.cap)
  }

  function AfterPuts(t: Table, qs: seq<Request>): Table {
    if qs == [] then t else AfterPut(AfterPuts(t, qs[..|qs|-1]), qs[|qs|-1])
  }

  /** At least twice as many slots as names, and beyond the first 1024 slots at most four times as many. */
  predicate WellSized(t: Table) {
    && (t.cap == 0 <==> t.names == map[])
    && (t.cap > 0 ==> Capacity(t.cap) && 2 * |t.names| <= t.cap && (t.cap == 1024 || t.cap <= 4 * |t.names|))
  }

  lemma PutKeepsSize(t: Table, q: Request)
    requires WellSized(t)
    ensures WellSized(AfterPut(t, q))
  {
    hide Trim, Capacity;
    if TakesEffect(t, q) {
      OneMoreName(t.names, q.id, Trim(q.name.value));
      CapacityDoubles(t.cap);
      assert t.cap == 0 ==> |t.names| == 0;
    }
  }

  lemma CapacityDoubles(cap: nat)
    requires cap == 0 || Capacity(cap)
    ensures Capacity(Doubled(cap)) && cap % 2 == 0
  {
  }

  /** The table is as large as its names need and not much larger. */
  lemma {:induction false} CapacityMeans(qs: seq<Request>)
    ensures WellSized(AfterPuts(NoTable, qs))
  {
    hide AfterPut, WellSized;
    if qs == [] {
      NothingSized();
    } else {
      CapacityMeans(qs[..|qs|-1]);
      PutKeepsSize(AfterPuts(NoTable, qs[..|qs|-1]), qs[|qs|-1]);
    }
  }

  lemma NothingSized()
    ensures WellSized(NoTable)
  {
  }

  lemma OneMoreName(m: map<nat, string>, id: nat, name: string)
    ensures |m[id := name]| == if id in m then |m| else |m| + 1
    ensures m[id := name] != map[]
  {
    assert m[id := name].Keys == m.Keys + {id};
    assert id in m[id := name];
  }


  predicate PutFor(qs: seq<Request>, id: nat, k: nat) {
    k < |qs| && qs[k].id == id && TakesEffect(AfterPuts(NoTable, qs[..k]), qs[k])
  }

  /** The last put for an id that took effect. */
  predicate LastPutFor(qs: seq<Request>, id: nat, k: nat) {
    PutFor(qs, id, k) && forall l: nat :: k < l < |qs| ==> !PutFor(qs, id, l)
  }

  lemma PutForShorter(qs: seq<Request>, id: nat)
    requires qs != []
    ensures forall k: nat :: k < |qs| - 1 ==> (PutFor(qs, id, k) <==> PutFor(qs[..|qs|-1], id, k))
    ensures PutFor(qs, id, |qs| - 1)
      <==> qs[|qs|-1].id == id && TakesEffect(AfterPuts(NoTable, qs[..|qs|-1]), qs[|qs|-1])
  {
    var p := qs[..|qs|-1];
    forall k: nat | k < |p| ensures PutFor(qs, id, k) <==> PutFor(p, id, k) { assert p[..k] == qs[..k]; }
  }

  lemma LastPutShorter(qs: seq<Request>, id: nat, k: nat)
    requires qs != [] && LastPutFor(qs, id, k)
    ensures k == |qs| - 1 || (k < |qs| - 1 && !PutFor(qs, id, |qs| - 1) && LastPutFor(qs[..|qs|-1], id, k))
    ensures k < |qs| && PutFor(qs, id, k)
  {
    assert k < |qs|;
    PutForShorter(qs, id);
    var p := qs[..|qs|-1];
    if k < |p| {
      forall l: nat | k < l < |p| ensures !PutFor(p, id, l) { assert !PutFor(qs, id, l); }
      hide PutFor;
    }
  }

  ghost predicate SomePutFor(qs: seq<Request>, id: nat) {
    exists k: nat :: PutFor(qs, id, k)
  }

  lemma SomePutShorter(qs: seq<Request>, id: nat)
    requires qs != []
    ensures SomePutFor(qs, id) <==> SomePutFor(qs[..|qs|-1], id) || PutFor(qs, id, |qs| - 1)
  {
    PutForShorter(qs, id);
    if SomePutFor(qs, id) {
      var k: nat :| PutFor(qs, id, k);
      assert k < |qs| - 1 ==> PutFor(qs[..|qs|-1], id, k);
    }
    if SomePutFor(qs[..|qs|-1], id) {
      var k: nat :| PutFor(qs[..|qs|-1], id, k);
      assert PutFor(qs, id, k);
    }
  }

  /** The name of an id is that of the last put for it that took effect, without its suffix; without such a put it has
      none. */
  lemma {:induction false} LastPutWins(qs: seq<Request>, id: nat)
    ensures id in AfterPuts(NoTable, qs).names <==> SomePutFor(qs, id)
    ensures forall k: nat :: LastPutFor(qs, id, k) ==> NamedBy(AfterPuts(NoTable, qs), qs, id, k)
  {
    if qs != [] {
      var n := |qs| - 1;
      LastPutWins(qs[..n], id);
      PutForShorter(qs, id);
      SomePutShorter(qs, id);
      hide PutFor, LastPutFor, SomePutFor, AfterPuts, NamedBy;
      forall k: nat | LastPutFor(qs, id, k) ensures NamedBy(AfterPuts(NoTable, qs), qs, id, k) {
        LastPutShorter(qs, id, k);
        NamedStep(qs, id, k);
      }
      NameStep(qs, id);
    }
  }

  /** The table names the id as put k says. */
  predicate NamedBy(t: Table, qs: seq<Request>, id: nat, k: nat) {
    k < |qs| && qs[k].name.Some? && id in t.names && t.names[id] == Trim(qs[k].name.value)
  }

  lemma NameStep(qs: seq<Request>, id: nat)
    requires qs != []
    ensures id in AfterPuts(NoTable, qs).names
      <==> id in AfterPuts(NoTable, qs[..|qs|-1]).names || PutFor(qs, id, |qs| - 1)
  {
    PutForShorter(qs, id);
  }

  lemma NamedStep(qs: seq<Request>, id: nat, k: nat)
    requires qs != [] && k < |qs| && PutFor(qs, id, k)
    requires k == |qs| - 1
      || (!PutFor(qs, id, |qs| - 1) && NamedBy(AfterPuts(NoTable, qs[..|qs|-1]), qs[..|qs|-1], id, k))
    ensures NamedBy(AfterPuts(NoTable, qs), qs, id, k)
  {
    PutForShorter(qs, id);
  }

  lemma {:induction false} SizeIsCount(s: seq<Entry>)
    requires UniqueIds(s)
    ensures |Contents(s)| == Count(s)
  {
    if s != [] {
      var n := |s| - 1;
      assert s[..n+1] == s;
      ContentsOne(s, n);
      if s[n].Named? { NotBefore(s, n); } else { ShorterUnique(s); }
      SizeIsCount(s[..n]);
    }
  }

  lemma ShorterUnique(s: seq<Entry>)
    requires UniqueIds(s) && s != []
    ensures UniqueIds(s[..|s|-1])
  {
    var p := s[..|s|-1];
    forall i: nat, j: nat, id | Holds(p, i, id) && Holds(p, j, id) ensures i == j {
      assert Holds(s, i, id) && Holds(s, j, id);
    }
  }

  class KernelTable {
    var tab: array<Entry>
    var n: nat

    ghost predicate Valid()
      reads this, tab
    {
      TableOk(tab[..]) && n == Count(tab[..]) && (tab.Length == 0 || Capacity(tab.Length))
    }

    ghost function Names(): map<nat, string>
      reads this, tab
    {
      Contents(tab[..])
    }

    constructor ()
      ensures Valid() && Names() == map[] && tab.Length == 0 && fresh(tab)
    {
      tab := new Entry[0];
      n := 0;
      new;
      AllEmpty(tab[..]);
    }

    /** copied and grown: whether the two allocations succeed. */
    method Put(id: nat, name: Option<string>, copied: bool, grown: bool)
      requires Valid() && id < WORD
      modifies this, tab
      ensures Valid() && (tab == old(tab) || fresh(tab))
      ensures Names() == if name.Some? && copied && (grown || 2 * (old(n) + 1) <= old(tab).Length)
                         then old(Names())[id := Trim(name.value)] else old(Names())
      ensures tab.Length == if name.Some? && copied && grown && 2 * (old(n) + 1) > old(tab).Length
                            then Doubled(old(tab).Length) else old(tab).Length
    {
      if name.None? || !copied { return; }
      if (n + 1) * 2 > tab.Length {
        if !grown { return; }
        var ncap := Doubled(tab.Length);
        assert tab.Length > 0 ==> Capacity(ncap);
        tab := Rehash(tab, ncap);
      }
      hide UniqueIds, AllReachable, Contents, Count;
      var added := Store(tab, id, Trim(name.value));
      if added { n := n + 1; }
    }

    method Get(id: nat, cap: nat) returns (out: string)
      requires Valid() && id < WORD && cap > 0
      ensures out == Printed(if id in Names() then Names()[id] else "kernel_" + Decimal(id), cap)
    {
      out := Printed("kernel_" + Decimal(id), cap);
      if tab.Length > 0 {
        var i; ghost var d;
        i, d := Probe(tab, id);
        ProbeMisses(tab[..], id, d, i);
        if tab[i].Named? {
          out := Printed(tab[i].name, cap);
        } else {
          ProbeProvesAbsent(tab[..], id, d, i);
        }
      }
    }

    ghost function Now(): Table
      reads this, tab
    {
      Table(Names(), tab.Length)
    }

    /** Any sequence of puts, some of which may fail. */
    method PutAll(qs: seq<Request>)
      requires Valid() && forall k :: 0 <= k < |qs| ==> qs[k].id < WORD
      modifies this, tab
      ensures Valid() && (tab == old(tab) || fresh(tab)) && Now() == AfterPuts(old(Now()), qs)
    {
      var k := 0;
      while k < |qs|
        invariant 0 <= k <= |qs| && Valid() && (tab == old(tab) || fresh(tab))
        invariant Now() == AfterPuts(old(Now()), qs[..k])
      {
        SizeIsCount(tab[..]);
        hide UniqueIds, AllReachable, Contents, Count;
        assert qs[..k+1][..k] == qs[..k];
        Put(qs[k].id, qs[k].name, qs[k].copied, qs[k].grown);
        k := k + 1;
      }
      assert qs[..k] == qs;
    }
  }

  /** What a lookup answers after any sequence of puts: the last name put for the id with effect, if there is one. */
  method AnswerAfter(qs: seq<Request>, id: nat, cap: nat) returns (out: string)
    requires id < WORD && cap > 0 && forall k :: 0 <= k < |qs| ==> qs[k].id < WORD
    ensures forall k: nat :: LastPutFor(qs, id, k) ==> out == Printed(Trim(qs[k].name.value), cap)
    ensures !SomePutFor(qs, id) ==> out == Printed("kernel_" + Decimal(id), cap)
  {
    var table := new KernelTable();
    assert table.Now() == NoTable;
    table.PutAll(qs);
    LastPutWins(qs, id);
    hide LastPutFor, PutFor, SomePutFor, AfterPuts;
    out := table.Get(id, cap);
  }
}
