/** Making one target after the other, depth first (`CompatMake`, bsdmake/compat.c), as functions
    on the node fields. */
module CompatNodes {
  import opened MakeGraph

  datatype Stage = Unmade | BeingMade | Made | UpToDate | Failed | Aborted

  /** The -k flag, and the nodes whose commands fail. */
  datatype Mode = Mode(now: nat, keepgoing: bool, fails: set<nat>)

  /** The commands of a node have been started: the stages of all nodes when the node was entered
      and at that time. */
  datatype Launch = Launch(node: nat, before: seq<Stage>, made: seq<Stage>)

  /** The fields of the nodes; `stopped` says that the program has exited. `ran` and `seen` are
      history: what has been started, and how many of its children a node has been through. */
  datatype Fields = Fields(make: seq<bool>, made: seq<Stage>, childMade: seq<bool>, cmtime: seq<nat>, mtime: seq<nat>,
                           stopped: bool, ran: seq<Launch>, seen: seq<nat>)

  predicate Fits(g: Graph, s: Fields) {
    |s.make| == |s.made| == |s.childMade| == |s.cmtime| == |s.mtime| == |s.seen| == |g|
  }

  predicate LinksIn(g: Graph) {
    forall n :: 0 <= n < |g| ==> LinkedAt(g, n)
  }

  function Left(made: seq<Stage>): nat {
    if made == [] then 0 else Left(made[..|made| - 1]) + if made[|made| - 1] == Unmade then 1 else 0
  }

  lemma {:induction false} LeftSet(made: seq<Stage>, n: nat, v: Stage)
    requires n < |made| && v != Unmade
    ensures Left(made[n := v]) == Left(made) - if made[n] == Unmade then 1 else 0
  {
    var k := |made| - 1;
    if n == k {
      assert made[n := v][..k] == made[..k];
    } else {
      assert made[n := v][..k] == made[..k][n := v];
      LeftSet(made[..k], n, v);
    }
  }

  // ----- What a child tells the parent that has asked for it.

  function Stamp(s: Fields, n: nat, p: nat): Fields
    requires n < |s.mtime| && p < |s.cmtime|
  {
    s.(cmtime := s.cmtime[p := Max(s.cmtime[p], s.mtime[n])])
  }

  /** One child more has been asked for. */
  function Asked(s: Fields, p: nat): Fields
    requires p < |s.seen|
  {
    s.(seen := s.seen[p := s.seen[p] + 1])
  }

  function Refuse(s: Fields, p: nat): Fields
    requires p < |s.make|
  {
    s.(make := s.make[p := false])
  }

  function TellMade(g: Graph, s: Fields, n: nat, p: nat): Fields
    requires Fits(g, s) && n < |g| && p < |g|
  {
    if g[n].exec then s else Stamp(s.(childMade := s.childMade[p := true]), n, p)
  }

  /** A node that has been reached before. */
  function Again(g: Graph, s: Fields, n: nat, p: nat): (s': Fields)
    requires Fits(g, s) && n < |g| && p < |g| && s.made[n] != Unmade
    ensures Fits(g, s')
  {
    match s.made[n]
    case Failed => Refuse(s, p)
    case BeingMade => Refuse(s.(made := s.made[n := Failed]), p)
    case Made => TellMade(g, s, n, p)
    case UpToDate => if g[n].exec then s else Stamp(s, n, p)
    case _ => s
  }

  // ----- A node whose children have been made.

  /** A node that is up to date tells all its parents at once. */
  function StampAll(g: Graph, s: Fields, n: nat, k: nat): (s': Fields)
    requires Fits(g, s) && n < |g| && Refs(g, g[n].parents) && k <= |g[n].parents|
    ensures Fits(g, s') && s' == s.(cmtime := s'.cmtime)
  {
    if k == 0 then s
    else assert g[n].parents[k - 1] in g[n].parents;
         Stamp(StampAll(g, s, n, k - 1), n, g[n].parents[k - 1])
  }

  predicate OutOfDate(g: Graph, s: Fields, n: nat)
    requires Fits(g, s) && n < |g|
  {
    OODate(g[n], s.childMade[n], s.cmtime[n])
  }

  /** `Make_OODate` looks at the file of a node that is neither .JOIN nor .EXEC. */
  function Look(g: Graph, s: Fields, n: nat): (s': Fields)
    requires Fits(g, s) && n < |g|
    ensures Fits(g, s')
  {
    if g[n].join || g[n].exec then s else s.(mtime := s.mtime[n := g[n].stat])
  }

  function Remade(x: Node, now: nat, cmtime: nat): nat {
    Max(if x.after == 0 then now else x.after, cmtime)
  }

  /** The commands are run. */
  function RunCommands(g: Graph, mode: Mode, s: Fields, n: nat, p: nat, before: seq<Stage>): (s': Fields)
    requires Fits(g, s) && n < |g| && p < |g|
    ensures Fits(g, s')
  {
    var s1 := s.(ran := s.ran + [Launch(n, before, s.made)]);
    if n in mode.fails then
      var s2 := s1.(made := s1.made[n := Failed]);
      if mode.keepgoing then Refuse(s2, p) else s2.(stopped := true)
    else
      TellMade(g, s1.(made := s1.made[n := Made], mtime := s1.mtime[n := Remade(g[n], mode.now, s1.cmtime[n])]), n, p)
  }

  function Finish(g: Graph, mode: Mode, s: Fields, n: nat, p: nat, before: seq<Stage>): (s': Fields)
    requires LinksIn(g) && Fits(g, s) && n < |g| && p < |g|
    ensures Fits(g, s')
  {
    if !s.make[n] then Refuse(s.(made := s.made[n := Aborted]), p)
    else
      var s1 := Look(g, s, n);
      if OutOfDate(g, s1, n) then RunCommands(g, mode, s1, n, p, before)
      else assert LinkedAt(g, n);
           StampAll(g, s1, n, |g[n].parents|).(made := s.made[n := UpToDate])
  }

  function Enter(s: Fields, n: nat): Fields
    requires n < |s.make| && n < |s.made|
  {
    s.(make := s.make[n := true], made := s.made[n := BeingMade])
  }

  /** `CompatMake` for node `n`, asked for by `p`. It ends on every graph, with cycles or
      without: a node is entered only while it is UNMADE. */
  function CompatMake(g: Graph, mode: Mode, s: Fields, n: nat, p: nat): (s': Fields)
    requires LinksIn(g) && Fits(g, s) && n < |g| && p < |g|
    ensures Fits(g, s') && Left(s'.made) <= Left(s.made)
    decreases Left(s.made), 1, 0
  {
    if s.stopped then s
    else if s.made[n] != Unmade then
      assert s.made[n := s.made[n]] == s.made;
      LeftSet(s.made, n, Failed);
      Asked(Again(g, s, n, p), p)
    else
      LeftSet(s.made, n, BeingMade);
      var s1 := Children(g, mode, Enter(s, n), n, |g[n].children|);
      FinishLeft(g, mode, s1, n, p, s.made);
      if s1.stopped then s1 else Asked(Finish(g, mode, s1, n, p, s.made), p)
  }

  /** The first `k` children of `n`, in their order. */
  function Children(g: Graph, mode: Mode, s: Fields, n: nat, k: nat): (s': Fields)
    requires LinksIn(g) && Fits(g, s) && n < |g| && k <= |g[n].children|
    ensures Fits(g, s') && Left(s'.made) <= Left(s.made)
    decreases Left(s.made), 2, k
  {
    if k == 0 then s
    else
      assert LinkedAt(g, n) && g[n].children[k - 1] < |g|;
      CompatMake(g, mode, Children(g, mode, s, n, k - 1), g[n].children[k - 1], n)
  }

  lemma FinishLeft(g: Graph, mode: Mode, s: Fields, n: nat, p: nat, before: seq<Stage>)
    requires LinksIn(g) && Fits(g, s) && n < |g| && p < |g|
    ensures Left(Finish(g, mode, s, n, p, before).made) <= Left(s.made)
  {
    LeftSet(s.made, n, Aborted);
    LeftSet(s.made, n, UpToDate);
    LeftSet(s.made, n, Made);
    LeftSet(s.made, n, Failed);
  }

  /** The targets, each asking for itself. */
  function Targets(g: Graph, mode: Mode, s: Fields, targs: seq<nat>): (s': Fields)
    requires LinksIn(g) && Fits(g, s) && Refs(g, targs)
    ensures Fits(g, s')
  {
    if targs == [] then s
    else
      var k := |targs| - 1;
      CompatMake(g, mode, Targets(g, mode, s, targs[..k]), targs[k], targs[k])
  }
}
