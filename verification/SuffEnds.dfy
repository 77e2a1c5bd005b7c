/** Exactly when pmake's search for implied sources ends (suff.c). */
module SuffEnds {
  import opened SuffSearch

  ghost function Below(n: nat): (r: set<nat>)
    ensures |r| == n && forall x: nat :: x in r <==> x < n
  {
    if n == 0 then {} else Below(n - 1) + {n - 1}
  }

  /** The suffixes from which `k` rules can be followed, one after the other. */
  ghost function Live(g: Graph, k: nat): set<nat> {
    if k == 0 then Below(|g|)
    else set s: nat | s in Below(|g|) && exists c: nat :: c in g[s].children && c in Live(g, k - 1)
  }

  lemma {:induction false} LiveShrinks(g: Graph, k: nat)
    ensures Live(g, k + 1) <= Live(g, k) && forall s: nat :: s in Live(g, k) ==> s < |g|
    decreases k
  {
    if k > 0 { LiveShrinks(g, k - 1); }
  }

  lemma SmallerSet(a: set<nat>, b: set<nat>)
    requires a <= b && a != b
    ensures |a| < |b|
  {
    var x :| x in b && x !in a;
    assert |b - {x}| == |b| - 1;
    SubsetSize(a, b - {x});
  }

  lemma {:induction false} SubsetSize(a: set<nat>, b: set<nat>)
    requires a <= b
    ensures |a| <= |b|
    decreases a
  {
    if a != {} {
      var x :| x in a;
      SubsetSize(a - {x}, b - {x});
    }
  }

  /** The sets get smaller until they stay the same. */
  lemma {:induction false} LiveSettles(g: Graph, k: nat)
    ensures Live(g, k + 1) == Live(g, k) || |Live(g, k)| + k <= |g|
    decreases k
  {
    LiveShrinks(g, k);
    if k > 0 {
      LiveShrinks(g, k - 1);
      LiveSettles(g, k - 1);
      if Live(g, k) != Live(g, k - 1) { SmallerSet(Live(g, k), Live(g, k - 1)); }
    }
  }

  /** After as many rules as there are suffixes, what is left goes on for ever. */
  lemma LiveGoesOn(g: Graph)
    ensures GoesOn(g, Live(g, |g|))
  {
    var n := |g|;
    LiveShrinks(g, n);
    LiveSettles(g, n);
    LiveShrinks(g, n + 1);
    forall s: nat | s in Live(g, n) ensures ChildIn(g, Live(g, n), s) { assert s in Live(g, n + 1); }
  }

  /** The suffix at which a chain of `k` rules begins is one of those, and `j` rules before its end
      it is at one of `Live(g, j)`. */
  lemma {:induction false} ChainIsLive(g: Graph, q: seq<Src>, s: Src, k: nat, j: nat)
    requires GraphOk(g) && Known(g, q) && Chain(g, q, s, k) && s.suff < |g| && s.suff in Live(g, j)
    ensures exists t :: t in q && t.suff in Live(g, j + k)
    decreases k
  {
    if k > 0 {
      assert s.suff in g[s.parent.suff].children && s.parent.suff in Live(g, j + 1);
      ChainIsLive(g, q, s.parent, k - 1, j + 1);
    }
  }

  /** A candidate can be traced through a set of suffixes in which it goes on for ever. */
  ghost predicate ReachesCycle(g: Graph, q: seq<Src>, cycle: set<nat>, s: Src) {
    GoesOn(g, cycle) && s in q && s.suff in cycle
  }

  ghost predicate Trapped(g: Graph, q: seq<Src>) {
    exists cycle, s :: ReachesCycle(g, q, cycle, s)
  }

  lemma LastLevel(g: Graph, q: seq<Src>, n: nat)
    requires GraphOk(g) && Known(g, q) && n == |g| && Level(g, q, n) != []
    ensures exists t :: t in q && t.suff in Live(g, n)
  {
    var s := Level(g, q, n)[0];
    LevelIsChains(g, q, n, s);
    ChainIsLive(g, q, s, n, 0);
  }

  lemma TrappedGoesOn(g: Graph, q: seq<Src>, k: nat)
    requires GraphOk(g) && Known(g, q) && Trapped(g, q)
    ensures Level(g, q, k) != []
  {
    var cycle, s :| ReachesCycle(g, q, cycle, s);
    CycleNeverEnds(g, q, cycle, s, k);
  }

  lemma LiveIsTrapped(g: Graph, q: seq<Src>, s: Src)
    requires s in q && s.suff in Live(g, |g|)
    ensures Trapped(g, q)
  {
    LiveGoesOn(g);
    assert ReachesCycle(g, q, Live(g, |g|), s);
  }

  /** MAIN: the levels run out exactly if no candidate of the queue leads into a cycle, and then
      after at most as many levels as there are suffixes. */
  lemma LevelsEndIff(g: Graph, q: seq<Src>)
    requires GraphOk(g) && Known(g, q)
    ensures (exists k: nat :: Level(g, q, k) == []) <==> Level(g, q, |g|) == []
    ensures Level(g, q, |g|) == [] <==> !Trapped(g, q)
    ensures Level(g, q, |g|) == [] <==> forall s :: s in q ==> s.suff !in Live(g, |g|)
  {
    hide Level, Live, Trapped;
    if Level(g, q, |g|) != [] { LastLevel(g, q, |g|); }
    if s :| s in q && s.suff in Live(g, |g|) { LiveIsTrapped(g, q, s); }
    if Trapped(g, q) {
      forall k: nat ensures Level(g, q, k) != [] { TrappedGoesOn(g, q, k); }
    }
  }

  /** Some level decides the search: with a limit that is large enough it ends. */
  ghost predicate SearchEnds(g: Graph, there: Disk, q: seq<Src>)
    requires GraphOk(g) && Known(g, q)
  {
    exists k: nat :: Decides(g, there, q, k)
  }

  /** The candidate at the end of some chain exists. */
  ghost predicate SomeThere(g: Graph, there: Disk, q: seq<Src>) {
    exists s, k: nat :: ThereAt(g, there, q, s, k)
  }

  predicate ThereAt(g: Graph, there: Disk, q: seq<Src>, s: Src, k: nat) {
    Chain(g, q, s, k) && Exists(there, s)
  }

  lemma DecidedIff(g: Graph, there: Disk, q: seq<Src>, k: nat)
    requires GraphOk(g) && Known(g, q)
    ensures Decides(g, there, q, k) <==> Level(g, q, k) == [] || exists s :: ThereAt(g, there, q, s, k)
  {
    var l := Level(g, q, k);
    if i :| 0 <= i < |l| && Exists(there, l[i]) {
      LevelIsChains(g, q, k, l[i]);
      assert ThereAt(g, there, q, l[i], k);
    }
    if s :| ThereAt(g, there, q, s, k) {
      LevelIsChains(g, q, k, s);
      SomeExists(there, l, s);
    }
  }

  /** MAIN: the search ends exactly if a candidate at the end of some chain exists or no cycle is
      reached. */
  lemma SearchEndsIff(g: Graph, there: Disk, q: seq<Src>)
    requires GraphOk(g) && Known(g, q)
    ensures SearchEnds(g, there, q) <==> SomeThere(g, there, q) || !Trapped(g, q)
  {
    hide Decides, Level, Trapped, ThereAt;
    LevelsEndIff(g, q);
    if SearchEnds(g, there, q) {
      var k: nat :| Decides(g, there, q, k);
      DecidedIff(g, there, q, k);
      if Level(g, q, k) != [] {
        var s :| ThereAt(g, there, q, s, k);
        assert SomeThere(g, there, q);
      }
    }
    if SomeThere(g, there, q) {
      var s, k: nat :| ThereAt(g, there, q, s, k);
      DecidedIff(g, there, q, k);
      assert SearchEnds(g, there, q);
    }
    DecidedIff(g, there, q, |g|);
    assert !Trapped(g, q) ==> Decides(g, there, q, |g|) && SearchEnds(g, there, q);
  }

  // ----- The search for the sources of a name, which is the name of a node.

  /** A file exists if there is a node of that name, on the search path of whatever suffix. */
  ghost predicate IsNode(there: Disk, name: string) {
    forall s: nat :: there(name, s)
  }

  /** The candidates that the search for `name` begins with. */
  function Begin(g: Graph, listed: nat, none: nat, name: string): (q: seq<Src>)
    requires GraphOk(g) && listed <= |g| && none < |g|
    ensures Known(g, q)
  {
    StartsKnown(g, listed, none, name);
    Expand(g, Starts(g, listed, none, name))
  }

  lemma StartsKnown(g: Graph, listed: nat, none: nat, name: string)
    requires listed <= |g| && none < |g|
    ensures Known(g, Starts(g, listed, none, name))
  {
    forall i | 0 <= i < |Targets(g, name, listed)| ensures Targets(g, name, listed)[i].suff < |g| {
      TargetsSplitName(g, name, listed, Targets(g, name, listed)[i]);
    }
  }

  /** Some chain of rules leads back to the file that is searched for. */
  ghost predicate Returns(g: Graph, q: seq<Src>, name: string) {
    exists s, k: nat :: Chain(g, q, s, k) && s.file == name
  }

  /** Some chain of rules leads to another file, and that exists. */
  ghost predicate OtherThere(g: Graph, there: Disk, q: seq<Src>, name: string) {
    exists s, k: nat :: ThereAt(g, there, q, s, k) && s.file != name
  }

  lemma ThereIff(g: Graph, there: Disk, q: seq<Src>, name: string)
    requires IsNode(there, name)
    ensures SomeThere(g, there, q) <==> OtherThere(g, there, q, name) || Returns(g, q, name)
  {
    if s, k: nat :| ThereAt(g, there, q, s, k) { assert s.file == name ==> Returns(g, q, name); }
    if s, k: nat :| Chain(g, q, s, k) && s.file == name {
      assert there(name, s.suff);
      assert ThereAt(g, there, q, s, k);
    }
  }

  /** MAIN: the search for a name ends exactly if some other candidate exists, or a chain of rules
      returns to the name itself, or no cycle is reached. */
  lemma NameEndsIff(g: Graph, there: Disk, listed: nat, none: nat, name: string)
    requires GraphOk(g) && listed <= |g| && none < |g| && IsNode(there, name)
    ensures var q := Begin(g, listed, none, name);
            SearchEnds(g, there, q) <==> OtherThere(g, there, q, name) || Returns(g, q, name) || !Trapped(g, q)
  {
    SearchEndsIff(g, there, Begin(g, listed, none, name));
    ThereIff(g, there, Begin(g, listed, none, name), name);
  }

  /** A chain is back at the name exactly if its last suffix is the one that the name has behind the
      prefix, or there is none and the last candidate is the bare prefix. */
  lemma BackIff(g: Graph, listed: nat, none: nat, name: string, s: Src, k: nat)
    requires GraphOk(g) && listed <= |g| && none < |g| && Chain(g, Begin(g, listed, none, name), s, k)
    ensures |s.pref| <= |name| && s.pref <= name && s.suff < |g|
    ensures var ending := name[|s.pref|..];
            s.file == name <==>
              (s.file == s.pref + g[s.suff].name && g[s.suff].name == ending) || (s.file == s.pref && ending == "")
  {
    StartsKnown(g, listed, none, name);
    ChainFromStarts(g, Starts(g, listed, none, name), s, k);
    PathOfName(g, listed, none, name, s, k + 1);
    var top := Top(s);
    assert top == Target(name, name, none) || name[..|top.pref|] == top.pref;
    assert name == s.pref + name[|s.pref|..];
    if s.file == s.pref + g[s.suff].name { assert s.file[|s.pref|..] == g[s.suff].name; }
    assert s.pref + "" == s.pref;
  }

  // ----- Three graphs with a cycle.

  /** `.o` is made from `.c` and `.c` from `.o`. */
  function Pair(): Graph {
    [Suff(".c", false, [1]), Suff(".o", false, [0])]
  }

  /** A cycle through the suffix of the name does no harm: the search comes to the name itself. */
  lemma PairEnds(there: Disk, p: string)
    requires IsNode(there, p + ".o")
    ensures GraphOk(Pair()) && SearchEnds(Pair(), there, Begin(Pair(), 2, 0, p + ".o"))
  {
    var g, name := Pair(), p + ".o";
    PairOk();
    var top := Target(name, p, 1);
    var s := Source(p + ".c", p, 0, top);
    var back := Source(name, p, 1, s);
    TargetsSplitName(g, name, 2, top);
    assert Edge(g, top, s) && Edge(g, s, back);
    StartsKnown(g, 2, 0, name);
    ExpandEdges(g, Starts(g, 2, 0, name), s);
    assert Chain(g, Begin(g, 2, 0, name), s, 0);
    assert Chain(g, Begin(g, 2, 0, name), back, 1);
    NameEndsIff(g, there, 2, 0, name);
  }

  lemma PairOk()
    ensures GraphOk(Pair())
  {
    forall s: nat, i: nat | s < |Pair()| && i < |Pair()[s].children| ensures Pair()[s].children[i] < |Pair()| { }
  }

  /** `.o` is made from `.c`, `.c` from `.y`, and `.y` from `.c`. */
  function Triple(): Graph {
    [Suff(".o", false, [1]), Suff(".c", false, [2]), Suff(".y", false, [1])]
  }

  /** Only the node `name` itself exists. */
  function Only(name: string): Disk {
    (file, suff) => file == name
  }

  lemma TripleOk()
    ensures GraphOk(Triple())
  {
    var g := Triple();
    forall s: nat, i: nat | s < |g| && i < |g[s].children| ensures g[s].children[i] < |g| { }
  }

  /** The only target is the name with the suffix `.o`. */
  lemma TripleStarts(p: string, t: Src)
    ensures t in Starts(Triple(), 3, 0, p + ".o") ==> t == Target(p + ".o", p, 0)
    ensures Target(p + ".o", p, 0) in Starts(Triple(), 3, 0, p + ".o")
  {
    var g, name := Triple(), p + ".o";
    TargetsSplitName(g, name, 3, Target(name, p, 0));
    TargetsSplitName(g, name, 3, t);
    if t.Target? && t.suff < 3 && t.pref + g[t.suff].name == name {
      assert (t.pref + g[t.suff].name)[|name| - 1] == 'o';
      assert t.suff == 0 && t.pref == (t.pref + ".o")[..|p|] == p;
    }
  }

  lemma {:induction false} TripleChains(p: string, s: Src, k: nat)
    requires GraphOk(Triple()) && Chain(Triple(), Starts(Triple(), 3, 0, p + ".o"), s, k)
    ensures s.pref == p && if k == 0 then s.suff == 0 else s.suff in {1, 2} && s.file == p + Triple()[s.suff].name
  {
    if k == 0 { TripleStarts(p, s); } else { TripleChains(p, s.parent, k - 1); }
  }

  /** A cycle that the search enters without coming back to the suffix of the name, and nothing else
      there: the search for foo.o does not end. */
  lemma TripleNeverEnds(p: string)
    ensures GraphOk(Triple()) && IsNode(Only(p + ".o"), p + ".o")
    ensures !SearchEnds(Triple(), Only(p + ".o"), Begin(Triple(), 3, 0, p + ".o"))
  {
    var g, name := Triple(), p + ".o";
    TripleOk();
    var q, top := Begin(g, 3, 0, name), Target(name, p, 0);
    StartsKnown(g, 3, 0, name);
    forall s, j: nat | Chain(g, q, s, j) ensures s.file != name && !Exists(Only(name), s) {
      ChainFromStarts(g, Starts(g, 3, 0, name), s, j);
      TripleChains(p, s, j + 1);
      assert s.file[|p| + 1] != name[|p| + 1];
    }
    var s := Source(p + ".c", p, 1, top);
    TripleStarts(p, top);
    assert Edge(g, top, s);
    ExpandEdges(g, Starts(g, 3, 0, name), s);
    assert 2 in g[1].children && 1 in g[2].children;
    assert ChildIn(g, {1, 2}, 1) && ChildIn(g, {1, 2}, 2);
    assert ReachesCycle(g, q, {1, 2}, s);
    NameEndsIff(g, Only(name), 3, 0, name);
  }

  /** `.o` is made from `.c`, and `.z` from itself. */
  function Apart(): Graph {
    [Suff(".o", false, [1]), Suff(".c", false, []), Suff(".z", false, [2])]
  }

  lemma NotThrough(g: Graph, cycle: set<nat>, s: nat)
    requires GoesOn(g, cycle) && s < |g| && forall c :: c in g[s].children ==> c !in cycle
    ensures s !in cycle
  {
    assert s !in cycle || ChildIn(g, cycle, s);
  }

  /** A cycle that is not reached does no harm: the search that begins at `.o` ends. */
  lemma ApartEnds(q: seq<Src>, there: Disk)
    requires forall i :: 0 <= i < |q| ==> q[i].suff == 0
    ensures GraphOk(Apart()) && Known(Apart(), q) && SearchEnds(Apart(), there, q)
  {
    var g := Apart();
    assert GraphOk(g) by {
      forall s: nat, i: nat | s < |g| && i < |g[s].children| ensures g[s].children[i] < |g| { }
    }
    forall cycle, s ensures !ReachesCycle(g, q, cycle, s) {
      if GoesOn(g, cycle) {
        NotThrough(g, cycle, 1);
        NotThrough(g, cycle, 0);
      }
    }
    assert !Trapped(g, q);
    SearchEndsIff(g, there, q);
  }
}
