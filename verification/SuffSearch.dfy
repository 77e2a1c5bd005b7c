/** pmake's search for implied sources (suff.c): a breadth-first walk through the
    transformation graph of suffixes, without a set of visited ones. */
module SuffSearch {

  /** A suffix: its name, whether it is marked as the null suffix, and the suffixes from
      which it can be made, in order. Suffixes are numbered. */
  datatype Suff = Suff(name: string, isNull: bool, children: seq<nat>)

  type Graph = seq<Suff>

  predicate GraphOk(g: Graph) {
    forall s: nat, i: nat :: s < |g| && i < |g[s].children| ==> g[s].children[i] < |g|
  }

  /** A candidate: the file to look for, the prefix it was formed from, its suffix, and the
      candidate or target that could be made from it. */
  datatype Src =
    | Target(file: string, pref: string, suff: nat)
    | Source(file: string, pref: string, suff: nat, parent: Src)

  function Depth(s: Src): nat {
    match s
    case Target(_, _, _) => 0
    case Source(_, _, _, p) => Depth(p) + 1
  }

  // ----- SuffAddSrc, SuffAddLevel

  /** The candidates for one suffix: for the null suffix also the bare prefix. */
  function AddSrc(g: Graph, targ: Src, s: nat): seq<Src>
    requires s < |g|
  {
    (if g[s].isNull && g[s].name != "" then [Source(targ.pref, targ.pref, s, targ)] else []) +
    [Source(targ.pref + g[s].name, targ.pref, s, targ)]
  }

  function AddLevel(g: Graph, targ: Src, k: nat): seq<Src>
    requires GraphOk(g) && targ.suff < |g| && k <= |g[targ.suff].children|
  {
    if k == 0 then [] else AddLevel(g, targ, k - 1) + AddSrc(g, targ, g[targ.suff].children[k - 1])
  }

  /** All candidates from which `s` could be made in one step. */
  function Children(g: Graph, s: Src): seq<Src>
    requires GraphOk(g) && s.suff < |g|
  {
    AddLevel(g, s, |g[s.suff].children|)
  }

  predicate Known(g: Graph, q: seq<Src>) {
    forall i :: 0 <= i < |q| ==> q[i].suff < |g|
  }

  lemma {:induction false} AddLevelKnown(g: Graph, targ: Src, k: nat)
    requires GraphOk(g) && targ.suff < |g| && k <= |g[targ.suff].children|
    ensures Known(g, AddLevel(g, targ, k))
  {
    if k > 0 { AddLevelKnown(g, targ, k - 1); }
  }

  // ----- The candidates level by level, without a queue.

  function Expand(g: Graph, q: seq<Src>): (r: seq<Src>)
    requires GraphOk(g) && Known(g, q)
    ensures Known(g, r)
  {
    if q == [] then []
    else
      AddLevelKnown(g, q[|q| - 1], |g[q[|q| - 1].suff].children|);
      Expand(g, q[..|q| - 1]) + Children(g, q[|q| - 1])
  }

  /** The candidates `k` steps further than those of `q`. */
  function Level(g: Graph, q: seq<Src>, k: nat): (r: seq<Src>)
    requires GraphOk(g) && Known(g, q)
    ensures Known(g, r)
  {
    if k == 0 then q else Expand(g, Level(g, q, k - 1))
  }

  /** Does the file of a candidate exist, as a node or on the search path of its suffix? */
  type Disk = (string, nat) -> bool

  predicate Exists(there: Disk, s: Src) {
    there(s.file, s.suff)
  }

  predicate NoneExists(there: Disk, q: seq<Src>) {
    forall i :: 0 <= i < |q| ==> !Exists(there, q[i])
  }

  /** `s` is the first existing candidate in breadth-first order from `q`. */
  ghost predicate FirstFound(g: Graph, there: Disk, q: seq<Src>, s: Src)
    requires GraphOk(g) && Known(g, q)
  {
    exists k: nat, i: nat :: FoundAt(g, there, q, s, k, i)
  }

  predicate FoundAt(g: Graph, there: Disk, q: seq<Src>, s: Src, k: nat, i: nat)
    requires GraphOk(g) && Known(g, q)
  {
    && i < |Level(g, q, k)| && Level(g, q, k)[i] == s && Exists(there, s)
    && NoneExists(there, Level(g, q, k)[..i])
    && (forall j: nat :: j < k ==> NoneExists(there, Level(g, q, j)))
  }

  /** Nothing exists on any level, and there is a last level. */
  ghost predicate NothingFound(g: Graph, there: Disk, q: seq<Src>)
    requires GraphOk(g) && Known(g, q)
  {
    exists k: nat :: Level(g, q, k) == [] && forall j: nat :: j < k ==> NoneExists(there, Level(g, q, j))
  }

  // ----- SuffFindThem

  /** `Searching`: the search was cut off. */
  datatype Outcome = Found(s: Src) | NotFound | Searching

  /** Where the search stands after looking at some candidates: in the middle of a level. */
  predicate At(g: Graph, there: Disk, q: seq<Src>, srcs: seq<Src>, k: nat, i: nat)
    requires GraphOk(g) && Known(g, q)
  {
    && i <= |Level(g, q, k)|
    && NoneExists(there, Level(g, q, k)[..i])
    && (forall j: nat :: j < k ==> NoneExists(there, Level(g, q, j)))
    && srcs == Rest(g, Level(g, q, k), i)
  }

  /** The queue in the middle of a level: what is left of it, and the children of the rest. */
  function Rest(g: Graph, l: seq<Src>, i: nat): seq<Src>
    requires GraphOk(g) && Known(g, l) && i <= |l|
  {
    l[i..] + Expand(g, l[..i])
  }

  lemma RestEnds(g: Graph, l: seq<Src>)
    requires GraphOk(g) && Known(g, l)
    ensures Rest(g, l, 0) == l && Rest(g, l, |l|) == Expand(g, l)
  {
    assert l[0..] == l && l[..0] == [] && l + [] == l;
    assert l[|l|..] == [] && l[..|l|] == l;
    assert [] + Expand(g, l) == Expand(g, l);
  }

  lemma RestNext(g: Graph, l: seq<Src>, i: nat)
    requires GraphOk(g) && Known(g, l) && i < |l|
    ensures var r := Rest(g, l, i); r != [] && r[0] == l[i] && Rest(g, l, i + 1) == r[1..] + Children(g, l[i])
  {
    assert l[..i + 1] == l[..i] + [l[i]];
    assert l[..i + 1][..i] == l[..i];
    assert Rest(g, l, i)[1..] == l[i + 1..] + Expand(g, l[..i]);
    Regroup(l[i + 1..], Expand(g, l[..i]), Children(g, l[i]));
  }

  lemma AtStart(g: Graph, there: Disk, q: seq<Src>)
    requires GraphOk(g) && Known(g, q)
    ensures At(g, there, q, q, 0, 0)
  {
    RestEnds(g, q);
  }

  /** At the end of a level the search is at the beginning of the next one. */
  lemma NextLevel(g: Graph, there: Disk, q: seq<Src>, srcs: seq<Src>, k: nat)
    requires GraphOk(g) && Known(g, q) && At(g, there, q, srcs, k, |Level(g, q, k)|)
    ensures At(g, there, q, srcs, k + 1, 0)
  {
    var l := Level(g, q, k);
    RestEnds(g, l);
    RestEnds(g, Level(g, q, k + 1));
    assert l[..|l|] == l;
  }

  /** A candidate that does not exist is replaced, at the end of the queue, by its children. */
  lemma Advance(g: Graph, there: Disk, q: seq<Src>, srcs: seq<Src>, k: nat, i: nat)
    requires GraphOk(g) && Known(g, q) && At(g, there, q, srcs, k, i) && i < |Level(g, q, k)|
    ensures srcs != [] && srcs[0] == Level(g, q, k)[i] && srcs[0].suff < |g|
    ensures !Exists(there, srcs[0]) ==> At(g, there, q, srcs[1..] + Children(g, srcs[0]), k, i + 1)
  {
    RestNext(g, Level(g, q, k), i);
  }

  lemma Regroup(a: seq<Src>, b: seq<Src>, c: seq<Src>)
    ensures (a + b) + c == a + (b + c)
  {
  }

  /** While the queue is not empty, a level that just began is not empty either. */
  lemma NonEmptyLevel(g: Graph, there: Disk, q: seq<Src>, srcs: seq<Src>, k: nat)
    requires GraphOk(g) && Known(g, q) && At(g, there, q, srcs, k, 0) && srcs != []
    ensures Level(g, q, k) != []
  {
    RestEnds(g, Level(g, q, k));
  }

  /** How many candidates the first `k` levels have. */
  function Total(g: Graph, q: seq<Src>, k: nat): nat
    requires GraphOk(g) && Known(g, q)
  {
    if k == 0 then 0 else Total(g, q, k - 1) + |Level(g, q, k - 1)|
  }

  lemma {:induction false} TotalGrows(g: Graph, q: seq<Src>, j: nat, k: nat)
    requires GraphOk(g) && Known(g, q) && j <= k
    ensures Total(g, q, j) <= Total(g, q, k)
    decreases k - j
  {
    if j < k { TotalGrows(g, q, j + 1, k); }
  }

  /** Level `k` decides the search: something exists on it, or it is empty. */
  predicate Decides(g: Graph, there: Disk, q: seq<Src>, k: nat)
    requires GraphOk(g) && Known(g, q)
  {
    Level(g, q, k) == [] || !NoneExists(there, Level(g, q, k))
  }

  /** Where the search stands: `n` candidates were looked at, the levels before the current
      one decided nothing. */
  predicate Standing(g: Graph, there: Disk, q: seq<Src>, srcs: seq<Src>, k: nat, i: nat, n: nat)
    requires GraphOk(g) && Known(g, q)
  {
    At(g, there, q, srcs, k, i) && n == Total(g, q, k) + i && forall j: nat :: j < k ==> !Decides(g, there, q, j)
  }

  /** Before a candidate is taken the search is inside a level. */
  lemma Enter(g: Graph, there: Disk, q: seq<Src>, srcs: seq<Src>, k: nat, i: nat, n: nat) returns (k': nat, i': nat)
    requires GraphOk(g) && Known(g, q) && Standing(g, there, q, srcs, k, i, n) && srcs != []
    ensures Standing(g, there, q, srcs, k', i', n) && i' < |Level(g, q, k')|
  {
    k', i' := k, i;
    if i == |Level(g, q, k)| {
      if i == 0 { NonEmptyLevel(g, there, q, srcs, k); }
      NextLevel(g, there, q, srcs, k);
      k', i' := k + 1, 0;
      NonEmptyLevel(g, there, q, srcs, k');
    }
  }

  /** When the queue runs empty so do the levels. */
  lemma RunsOut(g: Graph, there: Disk, q: seq<Src>, k: nat, i: nat, n: nat)
    requires GraphOk(g) && Known(g, q) && Standing(g, there, q, [], k, i, n)
    ensures NothingFound(g, there, q)
  {
    if i < |Level(g, q, k)| { Advance(g, there, q, [], k, i); }
    NextLevel(g, there, q, [], k);
    RestEnds(g, Level(g, q, k + 1));
  }

  /** Look through the queue for the first candidate that exists, at most `limit` of them;
      candidates that do not exist go to `slst`. */
  method SuffFindThem(g: Graph, there: Disk, q: seq<Src>, limit: nat)
    returns (r: Outcome, srcs: seq<Src>, slst: seq<Src>)
    requires GraphOk(g) && Known(g, q)
    ensures r.Found? ==> FirstFound(g, there, q, r.s)
    ensures r.NotFound? ==> NothingFound(g, there, q)
    ensures r.Searching? ==> forall k: nat {:trigger Decides(g, there, q, k)} :: Total(g, q, k + 1) <= limit ==>
              !Decides(g, there, q, k)
    ensures NoneExists(there, slst)
  {
    srcs, slst := q, [];
    ghost var k: nat, i: nat := 0, 0;
    AtStart(g, there, q);
    while srcs != []
      invariant Standing(g, there, q, srcs, k, i, |slst|) && NoneExists(there, slst) && |slst| <= limit
      decreases limit - |slst|
    {
      k, i := Enter(g, there, q, srcs, k, i, |slst|);
      if |slst| == limit {
        CutOff(g, there, q, k, i, limit);
        return Searching, srcs, slst;
      }
      Advance(g, there, q, srcs, k, i);
      var s := srcs[0];
      srcs := srcs[1..];
      if there(s.file, s.suff) {
        assert FoundAt(g, there, q, s, k, i);
        return Found(s), srcs, slst;
      }
      var next := SuffAddLevel(g, s);
      srcs := srcs + next;
      slst := slst + [s];
      i := i + 1;
    }
    r := NotFound;
    RunsOut(g, there, q, k, i, |slst|);
  }

  lemma CutOff(g: Graph, there: Disk, q: seq<Src>, k: nat, i: nat, limit: nat)
    requires GraphOk(g) && Known(g, q) && i < |Level(g, q, k)| && limit == Total(g, q, k) + i
    requires forall j: nat :: j < k ==> !Decides(g, there, q, j)
    ensures forall j: nat {:trigger Decides(g, there, q, j)} :: Total(g, q, j + 1) <= limit ==> !Decides(g, there, q, j)
  {
    forall j: nat | Total(g, q, j + 1) <= limit ensures !Decides(g, there, q, j) { BelowLimit(g, q, k, i, limit, j); }
  }

  lemma BelowLimit(g: Graph, q: seq<Src>, k: nat, i: nat, limit: nat, j: nat)
    requires GraphOk(g) && Known(g, q) && i < |Level(g, q, k)| && limit == Total(g, q, k) + i
    requires Total(g, q, j + 1) <= limit
    ensures j < k
  {
    if j >= k { TotalGrows(g, q, k + 1, j + 1); }
  }

  /** Add the candidates from which `targ` could be made. */
  method SuffAddLevel(g: Graph, targ: Src) returns (l: seq<Src>)
    requires GraphOk(g) && targ.suff < |g|
    ensures l == Children(g, targ)
  {
    l := [];
    for k := 0 to |g[targ.suff].children|
      invariant l == AddLevel(g, targ, k)
    {
      var s := g[targ.suff].children[k];
      ghost var before := l;
      if g[s].isNull && g[s].name != "" {
        l := l + [Source(targ.pref, targ.pref, s, targ)];
      }
      l := l + [Source(targ.pref + g[s].name, targ.pref, s, targ)];
      assert l == before + AddSrc(g, targ, s);
    }
  }

  // ----- Chains of transformations.

  /** `c` is a candidate for making `p` by one rule: its suffix has a rule to that of `p`, the
      prefix is kept, and the file is the prefix with the suffix, or bare for the null suffix. */
  predicate Edge(g: Graph, p: Src, c: Src) {
    && p.suff < |g| && c.suff < |g| && c.suff in g[p.suff].children
    && c.Source? && c.parent == p && c.pref == p.pref
    && (c.file == p.pref + g[c.suff].name || (g[c.suff].isNull && g[c.suff].name != "" && c.file == p.pref))
  }

  /** `s` is reached from the queue by `k` rules. */
  predicate Chain(g: Graph, q: seq<Src>, s: Src, k: nat) {
    if k == 0 then s in q else s.Source? && Edge(g, s.parent, s) && Chain(g, q, s.parent, k - 1)
  }

  lemma {:induction false} AddLevelEdges(g: Graph, p: Src, k: nat, c: Src)
    requires GraphOk(g) && p.suff < |g| && k <= |g[p.suff].children|
    ensures c in AddLevel(g, p, k) <==> c.Source? && Edge(g, p, c) && c.suff in g[p.suff].children[..k]
  {
    if k > 0 {
      AddLevelEdges(g, p, k - 1, c);
      var cs := g[p.suff].children;
      assert cs[..k] == cs[..k - 1] + [cs[k - 1]];
      assert cs[k - 1] in cs;
    }
  }

  lemma {:induction false} ExpandEdges(g: Graph, q: seq<Src>, c: Src)
    requires GraphOk(g) && Known(g, q)
    ensures c in Expand(g, q) <==> c.Source? && c.parent in q && Edge(g, c.parent, c)
  {
    if q != [] {
      var p := q[|q| - 1];
      ExpandEdges(g, q[..|q| - 1], c);
      AddLevelEdges(g, p, |g[p.suff].children|, c);
      assert g[p.suff].children[..|g[p.suff].children|] == g[p.suff].children;
      assert q == q[..|q| - 1] + [p];
    }
  }

  /** The levels hold all chains, each at its length. */
  lemma {:induction false} LevelIsChains(g: Graph, q: seq<Src>, k: nat, s: Src)
    requires GraphOk(g) && Known(g, q)
    ensures s in Level(g, q, k) <==> Chain(g, q, s, k)
  {
    if k > 0 {
      ExpandEdges(g, Level(g, q, k - 1), s);
      if s.Source? { LevelIsChains(g, q, k - 1, s.parent); }
    }
  }

  lemma SomeExists(there: Disk, l: seq<Src>, s: Src)
    requires s in l && Exists(there, s)
    ensures !NoneExists(there, l)
  {
  }

  /** MAIN: the candidate that the search returns exists and ends a chain of rules than which
      no chain to an existing candidate is shorter. */
  lemma FoundIsShortest(g: Graph, there: Disk, q: seq<Src>, s: Src)
    requires GraphOk(g) && Known(g, q) && FirstFound(g, there, q, s)
    ensures Exists(there, s)
    ensures exists k: nat :: Chain(g, q, s, k) && forall s', k': nat :: Exists(there, s') && Chain(g, q, s', k') ==>
              k <= k'
  {
    var k: nat, i: nat :| FoundAt(g, there, q, s, k, i);
    assert s in Level(g, q, k);
    LevelIsChains(g, q, k, s);
    forall s', k': nat | Exists(there, s') && Chain(g, q, s', k') ensures k <= k' {
      LevelIsChains(g, q, k', s');
      SomeExists(there, Level(g, q, k'), s');
    }
  }

  lemma {:induction false} EmptyStays(g: Graph, q: seq<Src>, k: nat, j: nat)
    requires GraphOk(g) && Known(g, q) && Level(g, q, k) == [] && k <= j
    ensures Level(g, q, j) == []
    decreases j
  {
    if k < j { EmptyStays(g, q, k, j - 1); }
  }

  /** MAIN: when the search gives up, no chain leads to an existing candidate. */
  lemma NotFoundIsComplete(g: Graph, there: Disk, q: seq<Src>, s: Src, k: nat)
    requires GraphOk(g) && Known(g, q) && NothingFound(g, there, q) && Chain(g, q, s, k)
    ensures !Exists(there, s)
  {
    var n: nat :| Level(g, q, n) == [] && forall j: nat :: j < n ==> NoneExists(there, Level(g, q, j));
    LevelIsChains(g, q, k, s);
    if k >= n { EmptyStays(g, q, n, k); }
    assert NoneExists(there, Level(g, q, k));
  }

  // ----- When the search ends.

  /** Every suffix of the set has a child in it: the suffixes of a cycle, say. */
  ghost predicate GoesOn(g: Graph, cycle: set<nat>) {
    forall s: nat {:trigger ChildIn(g, cycle, s)} :: s in cycle ==> ChildIn(g, cycle, s)
  }

  ghost predicate ChildIn(g: Graph, cycle: set<nat>, s: nat) {
    s < |g| && exists c: nat :: c in g[s].children && c in cycle
  }

  /** Once a cycle is reached the levels never end. */
  lemma {:induction false} CycleNeverEnds(g: Graph, q: seq<Src>, cycle: set<nat>, s: Src, k: nat)
    requires GraphOk(g) && Known(g, q) && GoesOn(g, cycle) && s in q && s.suff in cycle
    ensures exists c :: c in Level(g, q, k) && c.suff in cycle
    decreases k
  {
    if k == 0 {
      assert s in Level(g, q, 0);
    } else {
      CycleNeverEnds(g, q, cycle, s, k - 1);
      var p :| p in Level(g, q, k - 1) && p.suff in cycle;
      CycleStep(g, Level(g, q, k - 1), cycle, p);
    }
  }

  lemma CycleStep(g: Graph, l: seq<Src>, cycle: set<nat>, p: Src)
    requires GraphOk(g) && Known(g, l) && GoesOn(g, cycle) && p in l && p.suff in cycle
    ensures exists c :: c in Expand(g, l) && c.suff in cycle
  {
    assert ChildIn(g, cycle, p.suff);
    var c: nat :| c in g[p.suff].children && c in cycle;
    var next := Source(p.pref + g[c].name, p.pref, c, p);
    assert c < |g| && Edge(g, p, next);
    ExpandEdges(g, l, next);
  }

  // ----- Where the search starts and where its path leads.

  predicate EndsWith(name: string, suffix: string) {
    |suffix| <= |name| && name[|name| - |suffix|..] == suffix
  }

  /** One target for every suffix of the list, here the first `k`, that the name ends with. */
  function Targets(g: Graph, name: string, k: nat): seq<Src>
    requires k <= |g|
  {
    if k == 0 then []
    else
      var sn := g[k - 1].name;
      Targets(g, name, k - 1) + (if EndsWith(name, sn) then [Target(name, name[..|name| - |sn|], k - 1)] else [])
  }

  lemma {:induction false} TargetsSplitName(g: Graph, name: string, k: nat, t: Src)
    requires k <= |g|
    ensures t in Targets(g, name, k) <==> t.Target? && t.file == name && t.suff < k && t.pref + g[t.suff].name == name
  {
    if k > 0 {
      TargetsSplitName(g, name, k - 1, t);
      var sn := g[k - 1].name;
      if EndsWith(name, sn) { assert name[..|name| - |sn|] + sn == name; }
      if t.Target? && t.suff == k - 1 && t.pref + sn == name {
        assert name[|name| - |sn|..] == sn && name[..|name| - |sn|] == t.pref;
      }
    }
  }

  /** Work up the transformation path to the target it started from. */
  method PathTarget(bottom: Src) returns (targ: Src)
    ensures targ == Top(bottom)
  {
    targ := bottom;
    while targ.Source?
      invariant Top(targ) == Top(bottom)
      decreases targ
    {
      targ := targ.parent;
    }
  }

  function Top(s: Src): Src {
    match s
    case Target(_, _, _) => s
    case Source(_, _, _, p) => Top(p)
  }

  /** What the target could be taken for; if its suffix is not known, the null suffix `none` with
      the whole name. */
  function Starts(g: Graph, listed: nat, none: nat, name: string): seq<Src>
    requires listed <= |g|
  {
    var targs := Targets(g, name, listed);
    if targs == [] then [Target(name, name, none)] else targs
  }

  /** The search begins with the candidates one rule away from these. */
  lemma {:induction false} ChainFromStarts(g: Graph, targs: seq<Src>, s: Src, k: nat)
    requires GraphOk(g) && Known(g, targs)
    ensures Chain(g, Expand(g, targs), s, k) <==> Chain(g, targs, s, k + 1)
  {
    if k == 0 {
      ExpandEdges(g, targs, s);
    } else if s.Source? {
      ChainFromStarts(g, targs, s.parent, k - 1);
    }
  }

  /** MAIN: a path that ends a search for `name` leads up to one of its targets, as many rules away
      as it is deep; the file found is the part of `name` in front of that target's suffix (the
      whole name for the null suffix) with the suffix of the source, or bare. */
  lemma {:induction false} PathOfName(g: Graph, listed: nat, none: nat, name: string, s: Src, k: nat)
    requires GraphOk(g) && listed <= |g| && none < |g| && Chain(g, Starts(g, listed, none, name), s, k)
    ensures var top := Top(s);
            && top in Starts(g, listed, none, name) && Depth(s) == k && s.pref == top.pref
            && s.suff < |g| && top.suff < |g|
            && (top.pref + g[top.suff].name == name || top == Target(name, name, none))
    ensures k > 0 ==> s.file == s.pref + g[s.suff].name || (g[s.suff].isNull && s.file == s.pref)
    decreases k
  {
    if k == 0 {
      TargetsSplitName(g, name, listed, s);
    } else {
      PathOfName(g, listed, none, name, s.parent, k - 1);
    }
  }
}
