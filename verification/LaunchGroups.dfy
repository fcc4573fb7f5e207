/** Launches whose correlation ids match several submissions, and the worlds their options make:
    `_launch_corr` of src/analysis/cp_alternatives.py. */
module LaunchGroups {
  import opened LaunchForest
  import opened LaunchLinks

  /** An option drops some launches' edges and gives each of them another submission. */
  datatype Option = Option(remove: seq<nat>, add: seq<(nat, nat)>)

  // ---- groups ----

  /** Launches of different groups share no submission, recorded or possible. */
  ghost predicate Apart(ls: seq<Launch>, groups: map<nat, seq<nat>>) {
    forall k, l, c: nat, d: nat, h: nat :: k in groups && l in groups && k != l && c in groups[k] && d in groups[l] ==>
      !(Reaches(ls, c, h) && Reaches(ls, d, h))
  }

  /** The members of a group, each once, in order. */
  predicate Ascending(members: seq<nat>) {
    forall a, b :: 0 <= a < b < |members| ==> members[a] < members[b]
  }

  ghost predicate GroupsOk(ls: seq<Launch>, groups: map<nat, seq<nat>>) {
    && (forall k :: k in groups ==> Ascending(groups[k]) && forall c :: c in groups[k] ==> InDoubt(ls, c))
    && (forall c: nat :: InDoubt(ls, c) ==> exists k :: k in groups && c in groups[k])
    && Apart(ls, groups) && Together(ls, groups)
  }

  /** Launches of one group are linked: a chain of launches leads from each to each, neighbours sharing a submission. */
  ghost predicate Together(ls: seq<Launch>, groups: map<nat, seq<nat>>) {
    forall k, c: nat, d: nat :: k in groups && c in groups[k] && d in groups[k] ==> Connected(ls, c, d)
  }

  /** Submissions of one class are linked through launches. */
  ghost predicate OnlyLinked(ls: seq<Launch>, forest: Forest)
    reads forest
  {
    forall x: nat, y: nat :: forest.Rep(x) == forest.Rep(y) ==> Linked(ls, x, y)
  }

  /** Making one class of the submissions of one launch joins only linked ones. */
  method Join(ls: seq<Launch>, forest: Forest, c: nat, h: nat)
    requires forest.Valid() && OnlyLinked(ls, forest) && Reaches(ls, c, h)
    modifies forest
    ensures forest.Valid() && OnlyLinked(ls, forest)
    ensures var s := ls[c].src;
      forall x :: forest.Rep(x)
        == if old(forest.Rep(x)) == old(forest.Rep(h)) then old(forest.Rep(s)) else old(forest.Rep(x))
  {
    var s := ls[c].src;
    LinkedWithin(ls, c, h, s);
    LinkedWithin(ls, c, s, h);
    hide Linked;
    forest.Union(h, s);
    forall x: nat, y: nat | forest.Rep(x) == forest.Rep(y) ensures Linked(ls, x, y) {
      if old(forest.Rep(x)) == old(forest.Rep(y)) {
        assert Linked(ls, x, y);
      } else if old(forest.Rep(x)) == old(forest.Rep(h)) {
        LinkedOn(ls, x, h, s);
        LinkedOn(ls, x, s, y);
      } else {
        LinkedOn(ls, x, s, h);
        LinkedOn(ls, x, h, y);
      }
    }
  }

  method Classes(ls: seq<Launch>) returns (forest: Forest)
    ensures fresh(forest) && forest.Valid()
    ensures forall c, h :: 0 <= c < |ls| && h in ls[c].others ==> forest.Rep(h) == forest.Rep(ls[c].src)
    ensures OnlyLinked(ls, forest)
  {
    hide Linked;
    forest := new Forest();
    assert OnlyLinked(ls, forest) by { Alone(ls); }
    var c := 0;
    while c < |ls|
      invariant 0 <= c <= |ls| && fresh(forest) && forest.Valid() && OnlyLinked(ls, forest)
      invariant forall d, h :: 0 <= d < c && h in ls[d].others ==> forest.Rep(h) == forest.Rep(ls[d].src)
    {
      var j := 0;
      while j < |ls[c].others|
        invariant 0 <= j <= |ls[c].others| && fresh(forest) && forest.Valid() && OnlyLinked(ls, forest)
        invariant forall d, h :: 0 <= d < c && h in ls[d].others ==> forest.Rep(h) == forest.Rep(ls[d].src)
        invariant forall i :: 0 <= i < j ==> forest.Rep(ls[c].others[i]) == forest.Rep(ls[c].src)
      {
        Join(ls, forest, c, ls[c].others[j]);
        j := j + 1;
      }
      c := c + 1;
    }
  }

  lemma Alone(ls: seq<Launch>)
    ensures forall x: nat :: Linked(ls, x, x)
  {
  }

  /** The in-doubt launches below n, gathered by key. */
  ghost predicate Gathered(ls: seq<Launch>, keys: seq<nat>, n: nat, groups: map<nat, seq<nat>>) {
    && n <= |ls| == |keys|
    && (forall k :: k in groups ==> Ascending(groups[k]))
    && (forall k, a :: k in groups && 0 <= a < |groups[k]| ==>
      groups[k][a] < n && InDoubt(ls, groups[k][a]) && keys[groups[k][a]] == k)
    && (forall d: nat :: InDoubt(ls, d) && d < n ==> keys[d] in groups && d in groups[keys[d]])
  }

  lemma GatherOne(ls: seq<Launch>, keys: seq<nat>, n: nat, groups: map<nat, seq<nat>>)
    requires Gathered(ls, keys, n, groups) && n < |ls|
    ensures if !InDoubt(ls, n) then Gathered(ls, keys, n + 1, groups)
            else Gathered(ls, keys, n + 1, groups[keys[n] := (if keys[n] in groups then groups[keys[n]] else []) + [n]])
  {
    assert keys[n] in groups ==> Ascending(groups[keys[n]] + [n]);
  }

  /** Launches that share a submission have the same key, and those with the same key are linked. */
  ghost predicate KeysOk(ls: seq<Launch>, keys: seq<nat>) {
    && |keys| == |ls|
    && (forall c: nat, d: nat :: c < |ls| && d < |ls| && keys[c] == keys[d] ==> Connected(ls, c, d))
    && forall c: nat, d: nat, h :: c < |ls| && d < |ls| && Reaches(ls, c, h) && Reaches(ls, d, h) ==> keys[c] == keys[d]
  }

  lemma GatheredIsApart(ls: seq<Launch>, keys: seq<nat>, groups: map<nat, seq<nat>>)
    requires Gathered(ls, keys, |ls|, groups) && KeysOk(ls, keys)
    ensures GroupsOk(ls, groups)
  {
    forall d: nat | InDoubt(ls, d) ensures exists k :: k in groups && d in groups[k] {
      assert keys[d] in groups;
    }
    forall k, c: nat, d: nat | k in groups && c in groups[k] && d in groups[k] ensures Connected(ls, c, d) {
      assert keys[c] == k == keys[d];
    }
  }

  /** The key of each launch, in order. */
  method Keys(ls: seq<Launch>) returns (keys: seq<nat>)
    ensures KeysOk(ls, keys)
  {
    var forest := Classes(ls);
    keys := [];
    while |keys| < |ls|
      invariant |keys| <= |ls| && fresh(forest) && forest.Valid() && OnlyLinked(ls, forest)
      invariant forall c, h :: 0 <= c < |ls| && h in ls[c].others ==> forest.Rep(h) == forest.Rep(ls[c].src)
      invariant forall c :: 0 <= c < |keys| ==> keys[c] == forest.Rep(ls[c].src)
      decreases |ls| - |keys|
    {
      var k := forest.Find(ls[|keys|].src);
      keys := keys + [k];
    }
    forall c: nat, d: nat, h | c < |ls| && d < |ls| && Reaches(ls, c, h) && Reaches(ls, d, h)
      ensures keys[c] == keys[d]
    {
      assert forest.Rep(h) == forest.Rep(ls[c].src) == forest.Rep(ls[d].src);
    }
    forall c: nat, d: nat | c < |ls| && d < |ls| && keys[c] == keys[d] ensures Connected(ls, c, d) {
      LinkedLaunches(ls, c, d);
    }
  }

  /** Union-find over submissions puts launches that share one, however indirectly, into one group. */
  method Group(ls: seq<Launch>) returns (groups: map<nat, seq<nat>>)
    ensures GroupsOk(ls, groups)
  {
    var keys := Keys(ls);
    groups := map[];
    assert Gathered(ls, keys, 0, map[]);
    hide Gathered, KeysOk, GroupsOk;
    assert |keys| == |ls| by { KeysLength(ls, keys); }
    var c := 0;
    while c < |ls|
      invariant 0 <= c <= |ls| && Gathered(ls, keys, c, groups)
    {
      GatherOne(ls, keys, c, groups);
      if ls[c].others != [] {
        groups := groups[keys[c] := (if keys[c] in groups then groups[keys[c]] else []) + [c]];
      }
      c := c + 1;
    }
    GatheredIsApart(ls, keys, groups);
  }

  lemma KeysLength(ls: seq<Launch>, keys: seq<nat>)
    requires KeysOk(ls, keys)
    ensures |keys| == |ls|
  {
  }

  // ---- options ----

  function Recorded(): Option {
    Option([], [])
  }

  function MoveTo(c: nat, h: nat): Option {
    Option([c], [(c, h)])
  }

  function Trade(ls: seq<Launch>, c: nat, d: nat): Option
    requires c < |ls| && d < |ls|
  {
    Option([c, d], [(c, ls[d].src), (d, ls[c].src)])
  }

  /** The option moves one of the launches to a submission no launch uses. */
  predicate IsMove(ls: seq<Launch>, members: seq<nat>, used: set<nat>, o: Option) {
    && |o.remove| == 1 && |o.add| == 1
    && var c := o.remove[0]; var h := o.add[0].1;
       o == MoveTo(c, h) && c in members && c < |ls| && h in ls[c].others && h !in used
  }

  /** The option makes two of the launches trade submissions. */
  predicate IsTrade(ls: seq<Launch>, members: seq<nat>, o: Option) {
    && |o.remove| == 2
    && var c := o.remove[0]; var d := o.remove[1];
       && c in members && d in members && c < d < |ls|
       && ls[c].src != ls[d].src && ls[d].src in ls[c].others && ls[c].src in ls[d].others && o == Trade(ls, c, d)
  }

  /** Exactly the recorded option, every such move and every such trade. */
  predicate Offered(ls: seq<Launch>, members: seq<nat>, used: set<nat>, o: Option) {
    o == Recorded() || IsMove(ls, members, used, o) || IsTrade(ls, members, o)
  }

  method MovesOf(ls: seq<Launch>, c: nat, used: set<nat>) returns (opts: seq<Option>)
    requires c < |ls|
    ensures forall o :: o in opts <==> IsMove(ls, [c], used, o)
  {
    opts := [];
    var j := 0;
    while j < |ls[c].others|
      invariant 0 <= j <= |ls[c].others|
      invariant forall o :: o in opts <==> IsMove(ls, [c], used, o) && o.add[0].1 in ls[c].others[..j]
    {
      var h := ls[c].others[j];
      assert ls[c].others[..j+1] == ls[c].others[..j] + [h];
      if h !in used {
        assert IsMove(ls, [c], used, MoveTo(c, h));
        opts := opts + [MoveTo(c, h)];
      }
      j := j + 1;
    }
    assert ls[c].others[..j] == ls[c].others;
  }

  method Moves(ls: seq<Launch>, members: seq<nat>, used: set<nat>) returns (opts: seq<Option>)
    requires forall a :: 0 <= a < |members| ==> members[a] < |ls|
    ensures forall o :: o in opts <==> IsMove(ls, members, used, o)
  {
    opts := [];
    var a := 0;
    while a < |members|
      invariant 0 <= a <= |members|
      invariant forall o :: o in opts <==> IsMove(ls, members[..a], used, o)
    {
      var more := MovesOf(ls, members[a], used);
      assert members[..a+1] == members[..a] + [members[a]];
      opts := opts + more;
      a := a + 1;
    }
    assert members[..a] == members;
  }

  method TradesOf(ls: seq<Launch>, c: nat, later: seq<nat>) returns (opts: seq<Option>)
    requires c < |ls| && forall a :: 0 <= a < |later| ==> c < later[a] < |ls|
    ensures forall o :: o in opts <==> IsTrade(ls, [c] + later, o) && o.remove[0] == c
  {
    opts := [];
    var a := 0;
    while a < |later|
      invariant 0 <= a <= |later|
      invariant forall o :: o in opts <==> IsTrade(ls, [c] + later[..a], o) && o.remove[0] == c
    {
      var d := later[a];
      assert later[..a+1] == later[..a] + [d];
      if ls[c].src != ls[d].src && ls[d].src in ls[c].others && ls[c].src in ls[d].others {
        opts := opts + [Trade(ls, c, d)];
      }
      a := a + 1;
    }
    assert later[..a] == later;
  }

  method Trades(ls: seq<Launch>, members: seq<nat>) returns (opts: seq<Option>)
    requires Ascending(members) && forall a :: 0 <= a < |members| ==> members[a] < |ls|
    ensures forall o :: o in opts <==> IsTrade(ls, members, o)
  {
    opts := [];
    var a := 0;
    while a < |members|
      invariant 0 <= a <= |members|
      invariant forall o :: o in opts <==> IsTrade(ls, members, o) && o.remove[0] in members[..a]
    {
      var c := members[a];
      var more := TradesOf(ls, c, members[a+1..]);
      assert members[..a+1] == members[..a] + [c];
      forall o
        ensures IsTrade(ls, [c] + members[a+1..], o) && o.remove[0] == c
          <==> IsTrade(ls, members, o) && o.remove[0] == c
      {
        if IsTrade(ls, members, o) && o.remove[0] == c {
          var b :| 0 <= b < |members| && members[b] == o.remove[1];
          assert members[a+1..][b - (a + 1)] == o.remove[1];
        }
      }
      opts := opts + more;
      a := a + 1;
    }
    assert members[..a] == members;
  }

  method GroupOptions(ls: seq<Launch>, members: seq<nat>, used: set<nat>) returns (opts: seq<Option>)
    requires Ascending(members) && forall a :: 0 <= a < |members| ==> members[a] < |ls|
    ensures |opts| > 0 && opts[0] == Recorded() && forall o :: o in opts <==> Offered(ls, members, used, o)
  {
    var moves := Moves(ls, members, used);
    var trades := Trades(ls, members);
    opts := [Recorded()] + moves + trades;
  }

  /** The options of every group. */
  method Units(ls: seq<Launch>) returns (groups: map<nat, seq<nat>>, options: map<nat, seq<Option>>)
    ensures GroupsOk(ls, groups) && options.Keys == groups.Keys
    ensures forall k, o :: k in options ==> (o in options[k] <==> Offered(ls, groups[k], Sources(ls), o))
  {
    groups := Group(ls);
    var used := Sources(ls);
    options := map[];
    var todo := groups.Keys;
    while todo != {}
      invariant todo <= groups.Keys && options.Keys == groups.Keys - todo
      invariant forall k, o :: k in options ==> (o in options[k] <==> Offered(ls, groups[k], used, o))
      decreases |todo|
    {
      var k :| k in todo;
      forall a | 0 <= a < |groups[k]| ensures groups[k][a] < |ls| { assert groups[k][a] in groups[k]; }
      var opts := GroupOptions(ls, groups[k], used);
      options := options[k := opts];
      todo := todo - {k};
    }
  }

  /** Every submission some launch uses. */
  function Sources(ls: seq<Launch>): (used: set<nat>)
    ensures forall e :: 0 <= e < |ls| ==> ls[e].src in used
    ensures forall h :: h in used ==> exists e :: 0 <= e < |ls| && ls[e].src == h
  {
    if ls == [] then {} else Sources(ls[..|ls|-1]) + {ls[|ls|-1].src}
  }

  // ---- worlds ----

  /** Recorded launches never use one submission twice. */
  ghost predicate UsedOnce(ls: seq<Launch>) {
    forall c, d :: 0 <= c < d < |ls| ==> ls[c].src != ls[d].src
  }

  function Added(add: seq<(nat, nat)>, c: nat, default: nat): nat {
    if add == [] then default else if add[0].0 == c then add[0].1 else Added(add[1..], c, default)
  }

  /** The submission of a launch under an option. */
  function After(ls: seq<Launch>, o: Option, c: nat): nat
    requires c < |ls|
  {
    if c in o.remove then Added(o.add, c, ls[c].src) else ls[c].src
  }

  /** One option per group, whatever they are. */
  ghost predicate IsWorld(ls: seq<Launch>, groups: map<nat, seq<nat>>, used: set<nat>, choice: map<nat, Option>) {
    choice.Keys == groups.Keys && forall k :: k in groups ==> Offered(ls, groups[k], used, choice[k])
  }

  predicate InGroup(groups: map<nat, seq<nat>>, k: nat, c: nat) {
    k in groups && c in groups[k]
  }

  /** The submission of a launch in a world: its group's option decides. */
  ghost function InWorld(ls: seq<Launch>, groups: map<nat, seq<nat>>, choice: map<nat, Option>, c: nat): nat
    requires c < |ls| && choice.Keys == groups.Keys
  {
    if exists k :: InGroup(groups, k, c) then
      var k :| InGroup(groups, k, c);
      After(ls, choice[k], c)
    else ls[c].src
  }

  lemma OneGroup(ls: seq<Launch>, groups: map<nat, seq<nat>>, k: nat, l: nat, c: nat)
    requires GroupsOk(ls, groups) && InGroup(groups, k, c) && InGroup(groups, l, c)
    ensures k == l
  {
    assert InDoubt(ls, c);
    assert Reaches(ls, c, ls[c].src);
  }

  /** Under one option no two launches use one submission. */
  lemma OptionUsesOnce(ls: seq<Launch>, members: seq<nat>, used: set<nat>, o: Option, c: nat, d: nat)
    requires UsedOnce(ls) && c < |ls| && d < |ls| && c != d && ls[c].src in used && ls[d].src in used
    requires Offered(ls, members, used, o)
    ensures After(ls, o, c) != After(ls, o, d)
  {
    assert ls[c].src != ls[d].src by {
      if c < d {
        assert ls[c].src != ls[d].src;
      } else {
        assert ls[d].src != ls[c].src;
      }
    }
    if IsTrade(ls, members, o) {
      var x, y := o.remove[0], o.remove[1];
      assert o.add[1..] == [(y, ls[x].src)];
      assert Added(o.add, y, ls[y].src) == Added(o.add[1..], y, ls[y].src) == ls[x].src;
      assert After(ls, o, x) == ls[y].src && After(ls, o, y) == ls[x].src;
      forall e: nat | e < |ls| && e != x && e != y ensures ls[e].src != ls[x].src && ls[e].src != ls[y].src {
        assert if e < x then ls[e].src != ls[x].src else ls[x].src != ls[e].src;
        assert if e < y then ls[e].src != ls[y].src else ls[y].src != ls[e].src;
      }
    }
  }

  /** Under an option a launch only comes from a submission it can come from; outside the group nothing changes. */
  lemma OptionReaches(ls: seq<Launch>, members: seq<nat>, used: set<nat>, o: Option, c: nat)
    requires c < |ls| && Offered(ls, members, used, o)
    ensures Reaches(ls, c, After(ls, o, c))
    ensures c !in members ==> After(ls, o, c) == ls[c].src
  {
    if IsTrade(ls, members, o) {
      var x, y := o.remove[0], o.remove[1];
      assert o.add[1..] == [(y, ls[x].src)];
      assert Added(o.add, y, ls[y].src) == Added(o.add[1..], y, ls[y].src) == ls[x].src;
    }
  }

  /** Any combination of options, one per group: still no submission is used twice. */
  lemma WorldUsesOnce(ls: seq<Launch>, groups: map<nat, seq<nat>>, used: set<nat>, choice: map<nat, Option>, c: nat,
        d: nat)
    requires UsedOnce(ls) && GroupsOk(ls, groups) && IsWorld(ls, groups, used, choice)
    requires c < |ls| && d < |ls| && c != d && forall e: nat :: e < |ls| ==> ls[e].src in used
    ensures InWorld(ls, groups, choice, c) != InWorld(ls, groups, choice, d)
    ensures Reaches(ls, c, InWorld(ls, groups, choice, c))
  {
    if k: nat :| InGroup(groups, k, c) {
      GroupDecides(ls, groups, used, choice, k, c);
      AgainstGroup(ls, groups, used, choice, k, c, d);
    } else if l: nat :| InGroup(groups, l, d) {
      GroupDecides(ls, groups, used, choice, l, d);
      AgainstGroup(ls, groups, used, choice, l, d, c);
    } else {
      assert if c < d then ls[c].src != ls[d].src else ls[d].src != ls[c].src;
    }
  }

  lemma GroupDecides(ls: seq<Launch>, groups: map<nat, seq<nat>>, used: set<nat>, choice: map<nat, Option>, k: nat,
        c: nat)
    requires GroupsOk(ls, groups) && IsWorld(ls, groups, used, choice) && c < |ls| && InGroup(groups, k, c)
    ensures InWorld(ls, groups, choice, c) == After(ls, choice[k], c) && Reaches(ls, c, InWorld(ls, groups, choice, c))
  {
    forall l: nat | InGroup(groups, l, c) ensures l == k { OneGroup(ls, groups, k, l, c); }
    OptionReaches(ls, groups[k], used, choice[k], c);
    hide GroupsOk, Offered, After, Reaches;
  }

  /** A launch of a group against any other launch. */
  lemma AgainstGroup(ls: seq<Launch>, groups: map<nat, seq<nat>>, used: set<nat>, choice: map<nat, Option>, k: nat,
        c: nat, d: nat)
    requires UsedOnce(ls) && GroupsOk(ls, groups) && IsWorld(ls, groups, used, choice) && InGroup(groups, k, c)
    requires c < |ls| && d < |ls| && c != d && forall e: nat :: e < |ls| ==> ls[e].src in used
    ensures InWorld(ls, groups, choice, c) != InWorld(ls, groups, choice, d)
    ensures Reaches(ls, d, InWorld(ls, groups, choice, d))
  {
    hide Offered, After, UsedOnce;
    GroupDecides(ls, groups, used, choice, k, c);
    OptionUsesOnce(ls, groups[k], used, choice[k], c, d);
    if l: nat :| InGroup(groups, l, d) {
      GroupDecides(ls, groups, used, choice, l, d);
      if l != k {
        assert !(Reaches(ls, c, InWorld(ls, groups, choice, c)) && Reaches(ls, d, InWorld(ls, groups, choice, c)));
      }
    } else {
      assert !InGroup(groups, k, d);
      OptionReaches(ls, groups[k], used, choice[k], d);
    }
  }
}
