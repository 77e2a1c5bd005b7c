/** The order of the search for implied sources: which of several existing candidates is found. */
module SuffOrder {
  import opened SuffSearch

  /** One rule: its place among those for a suffix, and whether the suffix is written, or the prefix
      stands alone, as it may for the null suffix. */
  datatype Step = Step(rule: nat, suffixed: bool)

  /** A chain of rules: where in the list it begins, and the rules. */
  datatype Route = From(start: nat) | Via(route: Route, step: Step)

  function Length(r: Route): nat {
    match r
    case From(_) => 0
    case Via(r', _) => Length(r') + 1
  }

  predicate Leads(g: Graph, q: seq<Src>, r: Route, s: Src) {
    match r
    case From(i) => i < |q| && q[i] == s
    case Via(r', step) => s.Source? && Leads(g, q, r', s.parent) && Follows(g, s.parent, step, s)
  }

  predicate Follows(g: Graph, p: Src, step: Step, c: Src) {
    && p.suff < |g| && c.suff < |g| && c.Source? && c.parent == p && c.pref == p.pref
    && step.rule < |g[p.suff].children| && c.suff == g[p.suff].children[step.rule]
    && if step.suffixed then c.file == p.pref + g[c.suff].name
       else g[c.suff].isNull && g[c.suff].name != "" && c.file == p.pref
  }

  predicate Earlier(a: Step, b: Step) {
    a.rule < b.rule || (a.rule == b.rule && !a.suffixed && b.suffixed)
  }

  /** The lexicographic order of chains of the same length. */
  predicate Less(a: Route, b: Route) {
    match a
    case From(i) => b.From? && i < b.start
    case Via(r, step) => b.Via? && (Less(r, b.route) || (r == b.route && Earlier(step, b.step)))
  }

  predicate Ascending(rs: seq<Route>) {
    forall i, j :: 0 <= i < j < |rs| ==> Less(rs[i], rs[j])
  }

  // ----- The chains of a level, beside its candidates.

  function SrcRoutes(g: Graph, r: Route, s: nat, k: nat): seq<Route>
    requires s < |g|
  {
    (if g[s].isNull && g[s].name != "" then [Via(r, Step(k, false))] else []) + [Via(r, Step(k, true))]
  }

  function ChildRoutes(g: Graph, p: Src, r: Route, k: nat): seq<Route>
    requires GraphOk(g) && p.suff < |g| && k <= |g[p.suff].children|
  {
    if k == 0 then [] else ChildRoutes(g, p, r, k - 1) + SrcRoutes(g, r, g[p.suff].children[k - 1], k - 1)
  }

  function ExpandRoutes(g: Graph, q: seq<Src>, rs: seq<Route>): seq<Route>
    requires GraphOk(g) && Known(g, q) && |rs| == |q|
    decreases |q|
  {
    if q == [] then []
    else
      var n := |q| - 1;
      ExpandRoutes(g, q[..n], rs[..n]) + ChildRoutes(g, q[n], rs[n], |g[q[n].suff].children|)
  }

  function StartRoutes(n: nat): (rs: seq<Route>)
    ensures |rs| == n && forall i :: 0 <= i < n ==> rs[i] == From(i)
  {
    if n == 0 then [] else StartRoutes(n - 1) + [From(n - 1)]
  }

  /** Each candidate is at the end of its chain. */
  predicate Beside(g: Graph, q: seq<Src>, l: seq<Src>, rs: seq<Route>, k: nat) {
    |rs| == |l| && forall i :: 0 <= i < |l| ==> Leads(g, q, rs[i], l[i]) && Length(rs[i]) == k
  }

  lemma BesideJoin(g: Graph, q: seq<Src>, l: seq<Src>, rs: seq<Route>, l': seq<Src>, rs': seq<Route>, k: nat)
    requires Beside(g, q, l, rs, k) && Beside(g, q, l', rs', k)
    ensures Beside(g, q, l + l', rs + rs', k)
  {
  }

  lemma AscendingJoin(a: seq<Route>, b: seq<Route>)
    requires Ascending(a) && Ascending(b) && forall x, y :: x in a && y in b ==> Less(x, y)
    ensures Ascending(a + b)
  {
  }

  lemma {:induction false} ChildRoutesBeside(g: Graph, q: seq<Src>, p: Src, r: Route, k: nat)
    requires GraphOk(g) && p.suff < |g| && k <= |g[p.suff].children| && Leads(g, q, r, p)
    ensures Beside(g, q, AddLevel(g, p, k), ChildRoutes(g, p, r, k), Length(r) + 1)
  {
    if k > 0 {
      ChildRoutesBeside(g, q, p, r, k - 1);
      var s := g[p.suff].children[k - 1];
      assert Beside(g, q, AddSrc(g, p, s), SrcRoutes(g, r, s, k - 1), Length(r) + 1);
      BesideJoin(g, q, AddLevel(g, p, k - 1), ChildRoutes(g, p, r, k - 1), AddSrc(g, p, s), SrcRoutes(g, r, s, k - 1),
                 Length(r) + 1);
    }
  }

  lemma {:induction false} ChildRoutesAscend(g: Graph, p: Src, r: Route, k: nat)
    requires GraphOk(g) && p.suff < |g| && k <= |g[p.suff].children|
    ensures Ascending(ChildRoutes(g, p, r, k))
    ensures forall x :: x in ChildRoutes(g, p, r, k) ==> x.Via? && x.route == r && x.step.rule < k
  {
    if k > 0 {
      ChildRoutesAscend(g, p, r, k - 1);
      AscendingJoin(ChildRoutes(g, p, r, k - 1), SrcRoutes(g, r, g[p.suff].children[k - 1], k - 1));
    }
  }

  lemma {:induction false} ChildRoutesAll(g: Graph, p: Src, r: Route, k: nat, step: Step, c: Src)
    requires GraphOk(g) && p.suff < |g| && k <= |g[p.suff].children| && Follows(g, p, step, c) && step.rule < k
    ensures Via(r, step) in ChildRoutes(g, p, r, k)
  {
    if step.rule < k - 1 { ChildRoutesAll(g, p, r, k - 1, step, c); }
  }

  lemma {:induction false} ExpandBeside(g: Graph, q: seq<Src>, l: seq<Src>, rs: seq<Route>, k: nat)
    requires GraphOk(g) && Known(g, l) && Beside(g, q, l, rs, k)
    ensures Beside(g, q, Expand(g, l), ExpandRoutes(g, l, rs), k + 1)
  {
    if l != [] {
      var n := |l| - 1;
      ExpandBeside(g, q, l[..n], rs[..n], k);
      var m := |g[l[n].suff].children|;
      ChildRoutesBeside(g, q, l[n], rs[n], m);
      BesideJoin(g, q, Expand(g, l[..n]), ExpandRoutes(g, l[..n], rs[..n]), AddLevel(g, l[n], m),
                 ChildRoutes(g, l[n], rs[n], m), k + 1);
    }
  }

  lemma {:induction false} ExpandAscends(g: Graph, l: seq<Src>, rs: seq<Route>)
    requires GraphOk(g) && Known(g, l) && |rs| == |l| && Ascending(rs)
    ensures Ascending(ExpandRoutes(g, l, rs))
    ensures forall x :: x in ExpandRoutes(g, l, rs) ==> x.Via? && x.route in rs
    decreases |l|
  {
    if l != [] {
      var n := |l| - 1;
      ExpandAscends(g, l[..n], rs[..n]);
      ChildRoutesAscend(g, l[n], rs[n], |g[l[n].suff].children|);
      AscendingJoin(ExpandRoutes(g, l[..n], rs[..n]), ChildRoutes(g, l[n], rs[n], |g[l[n].suff].children|));
    }
  }

  lemma {:induction false} ExpandAll(g: Graph, l: seq<Src>, rs: seq<Route>, i: nat, step: Step, c: Src)
    requires GraphOk(g) && Known(g, l) && |rs| == |l| && i < |l| && Follows(g, l[i], step, c)
    ensures Via(rs[i], step) in ExpandRoutes(g, l, rs)
    decreases |l|
  {
    var n := |l| - 1;
    if i < n {
      ExpandAll(g, l[..n], rs[..n], i, step, c);
    } else {
      ChildRoutesAll(g, l[n], rs[n], |g[l[n].suff].children|, step, c);
    }
  }

  /** Every chain of `k` rules is among `rs`. */
  ghost predicate Covers(g: Graph, q: seq<Src>, rs: seq<Route>, k: nat) {
    forall r, s :: Length(r) == k && Leads(g, q, r, s) ==> r in rs
  }

  /** The candidates of a level stand in the order of their chains, and every chain is there. */
  lemma {:induction false} LevelRoutes(g: Graph, q: seq<Src>, k: nat) returns (rs: seq<Route>)
    requires GraphOk(g) && Known(g, q)
    ensures Beside(g, q, Level(g, q, k), rs, k) && Ascending(rs) && Covers(g, q, rs, k)
  {
    if k == 0 {
      rs := StartRoutes(|q|);
      forall r, s | Length(r) == 0 && Leads(g, q, r, s) ensures r in rs { assert rs[r.start] == r; }
    } else {
      var before := LevelRoutes(g, q, k - 1);
      var l := Level(g, q, k - 1);
      ExpandBeside(g, q, l, before, k - 1);
      ExpandAscends(g, l, before);
      ExpandCovers(g, q, l, before, k - 1);
      rs := ExpandRoutes(g, l, before);
    }
  }

  lemma ExpandCovers(g: Graph, q: seq<Src>, l: seq<Src>, rs: seq<Route>, k: nat)
    requires GraphOk(g) && Known(g, l) && Beside(g, q, l, rs, k) && Covers(g, q, rs, k)
    ensures Covers(g, q, ExpandRoutes(g, l, rs), k + 1)
  {
    hide ExpandRoutes, Follows;
    forall r, s | Length(r) == k + 1 && Leads(g, q, r, s) ensures r in ExpandRoutes(g, l, rs) {
      assert Leads(g, q, r.route, s.parent) && r.route in rs;
      var i :| 0 <= i < |rs| && rs[i] == r.route;
      LeadsOnce(g, q, r.route, l[i], s.parent);
      ExpandAll(g, l, rs, i, r.step, s);
    }
  }

  /** A chain leads to one candidate. */
  lemma {:induction false} LeadsOnce(g: Graph, q: seq<Src>, r: Route, s: Src, t: Src)
    requires Leads(g, q, r, s) && Leads(g, q, r, t)
    ensures s == t
  {
    if r.Via? { LeadsOnce(g, q, r.route, s.parent, t.parent); }
  }

  /** The first existing candidate of a level has the least chain. */
  lemma LeastAt(g: Graph, there: Disk, q: seq<Src>, l: seq<Src>, rs: seq<Route>, k: nat, i: nat, r: Route, s: Src)
    requires Beside(g, q, l, rs, k) && Ascending(rs) && Covers(g, q, rs, k) && i < |l| && NoneExists(there, l[..i])
    requires Exists(there, s) && Leads(g, q, r, s) && Length(r) == k
    ensures rs[i] == r || Less(rs[i], r)
  {
    hide Less, Length;
    var h :| 0 <= h < |rs| && rs[h] == r;
    LeadsOnce(g, q, r, l[h], s);
  }

  /** A chain to an existing candidate has at least as many rules as the first level with one. */
  lemma NotShorter(g: Graph, there: Disk, q: seq<Src>, k: nat, r: Route, s: Src)
    requires GraphOk(g) && Known(g, q) && forall j: nat :: j < k ==> NoneExists(there, Level(g, q, j))
    requires Exists(there, s) && Leads(g, q, r, s)
    ensures k <= Length(r)
  {
    hide Level;
    var j := Reaches(g, q, r, s, Length(r));
    assert !NoneExists(there, Level(g, q, Length(r)));
  }

  /** MAIN: of the existing candidates at the ends of the shortest chains, the search finds the one
      whose chain comes first: by its place in the list, then by the places of its rules, the bare
      prefix before the prefix with the suffix. */
  lemma FoundIsLeast(g: Graph, there: Disk, q: seq<Src>, s: Src) returns (r: Route)
    requires GraphOk(g) && Known(g, q) && FirstFound(g, there, q, s)
    ensures Leads(g, q, r, s) && Exists(there, s)
    ensures forall r', s' :: Exists(there, s') && Leads(g, q, r', s') ==>
              Length(r) < Length(r') || (Length(r) == Length(r') && (r == r' || Less(r, r')))
  {
    hide Level, Leads, Length, Less, Covers, Exists, NoneExists, Ascending;
    var k: nat, i: nat :| FoundAt(g, there, q, s, k, i);
    var rs := LevelRoutes(g, q, k);
    r := rs[i];
    forall r', s' | Exists(there, s') && Leads(g, q, r', s')
      ensures k < Length(r') || (k == Length(r') && (r == r' || Less(r, r')))
    {
      NotShorter(g, there, q, k, r', s');
      if k == Length(r') { LeastAt(g, there, q, Level(g, q, k), rs, k, i, r', s'); }
    }
  }

  lemma Reaches(g: Graph, q: seq<Src>, r: Route, s: Src, k: nat) returns (j: nat)
    requires GraphOk(g) && Known(g, q) && Leads(g, q, r, s) && k == Length(r)
    ensures j < |Level(g, q, k)| && Level(g, q, k)[j] == s
  {
    var rs := LevelRoutes(g, q, k);
    j :| 0 <= j < |rs| && rs[j] == r;
    LeadsOnce(g, q, r, Level(g, q, k)[j], s);
  }

  // ----- From a name.

  predicate SuffixesAscend(l: seq<Src>, k: nat) {
    (forall i, j :: 0 <= i < j < |l| ==> l[i].suff < l[j].suff) && (forall i :: 0 <= i < |l| ==> l[i].suff < k)
  }

  /** The targets of a name stand in the order of their suffixes in the list. */
  lemma {:induction false} TargetsInOrder(g: Graph, name: string, k: nat)
    requires k <= |g|
    ensures SuffixesAscend(Targets(g, name, k), k)
  {
    if k > 0 {
      TargetsInOrder(g, name, k - 1);
      var l, sn := Targets(g, name, k - 1), g[k - 1].name;
      assert SuffixesAscend(l + [], k);
      if EndsWith(name, sn) { assert SuffixesAscend(l + [Target(name, name[..|name| - |sn|], k - 1)], k); }
    }
  }

  lemma {:induction false} LevelShift(g: Graph, q: seq<Src>, k: nat)
    requires GraphOk(g) && Known(g, q)
    ensures Level(g, Expand(g, q), k) == Level(g, q, k + 1)
  {
    hide Expand;
    if k > 0 { LevelShift(g, q, k - 1); } else { LevelOne(g, q); }
  }

  lemma LevelOne(g: Graph, q: seq<Src>)
    requires GraphOk(g) && Known(g, q)
    ensures Level(g, q, 1) == Expand(g, q)
  {
    assert Level(g, q, 0) == q;
  }

  /** MAIN: so it is for the sources of a name, where a chain begins at a target and has at least
      one rule. */
  lemma SourceIsLeast(g: Graph, there: Disk, targs: seq<Src>, s: Src) returns (r: Route)
    requires GraphOk(g) && Known(g, targs) && FirstFound(g, there, Expand(g, targs), s)
    ensures r.Via? && Leads(g, targs, r, s) && Exists(there, s)
    ensures forall r': Route, s' :: r'.Via? && Exists(there, s') && Leads(g, targs, r', s') ==>
              Length(r) < Length(r') || (Length(r) == Length(r') && (r == r' || Less(r, r')))
  {
    var k, i := SourceLevel(g, there, targs, s);
    hide Level, Leads, Less, Covers, Exists, NoneExists, Ascending;
    var rs := LevelRoutes(g, targs, k);
    r := rs[i];
    forall r': Route, s' | r'.Via? && Exists(there, s') && Leads(g, targs, r', s')
      ensures k < Length(r') || (k == Length(r') && (r == r' || Less(r, r')))
    {
      var j := Reaches(g, targs, r', s', Length(r'));
      SomeExists(there, Level(g, targs, Length(r')), s');
      if k == Length(r') { LeastAt(g, there, targs, Level(g, targs, k), rs, k, i, r', s'); }
    }
  }

  lemma SourceLevel(g: Graph, there: Disk, targs: seq<Src>, s: Src) returns (k: nat, i: nat)
    requires GraphOk(g) && Known(g, targs) && FirstFound(g, there, Expand(g, targs), s)
    ensures k > 0 && i < |Level(g, targs, k)| && Level(g, targs, k)[i] == s && Exists(there, s)
    ensures NoneExists(there, Level(g, targs, k)[..i])
    ensures forall j: nat :: 0 < j < k ==> NoneExists(there, Level(g, targs, j))
  {
    hide Level, Exists, NoneExists;
    var n: nat, i': nat :| FoundAt(g, there, Expand(g, targs), s, n, i');
    k, i := n + 1, i';
    LevelShift(g, targs, n);
    forall j: nat | 0 < j < k ensures NoneExists(there, Level(g, targs, j)) { LevelShift(g, targs, j - 1); }
  }
}
